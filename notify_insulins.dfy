/** Pets::NotifyInsulins: the periodic reminder job. It selects the pets due within
    15 minutes (never the overdue ones, excluding nobody), pushes one reminder batch
    per selected pet to its owners' devices, and then writes one ledger row per
    selected row so that the same reminder is not sent twice. */
module NotifyInsulins {
  import opened Common
  import opened Schema
  import opened Persistence
  import opened NotifyUsers
  import opened PetPushTokens
  import FindByNextInsulinTime

  type DueRow = FindByNextInsulinTime.DueRow

  /** Minutes of warning before a dose is due. */
  const LEAD: int := 15

  /** `params`: the fixed policy the job runs the selection with. */
  function NotifierParams(): FindByNextInsulinTime.Params {
    FindByNextInsulinTime.Params(Some(LEAD), Some(false), Some([]))
  }

  function Title(petName: string): string {
    petName + ": Insulina!"
  }

  function Body(petName: string): string {
    petName + " precisará de insulina em breve!."
  }

  /** What a run does, in order: push batches sent, then ledger rows written. */
  datatype Effect =
    | PushBatch(petId: Id, attempts: seq<Message>, successCount: nat, errorCount: nat)
    | LedgerRow(entry: SentNotification)

  /** `find_pet_ids`: the due-pet query run with the job's fixed `params`. */
  function Selection(t: Tables, now: Time): seq<DueRow> {
    FindByNextInsulinTime.Call(t, now, NotifierParams())
  }

  /** `Pet.where(id: rows.map(&:id))`: the stored pets some row names, in table order. */
  function PetsToNotify(pets: seq<Pet>, rows: seq<DueRow>): (r: seq<Pet>)
    ensures forall pet :: pet in r <==> pet in pets && exists row :: row in rows && row.petId == pet.id
    ensures rows == [] ==> r == []
  {
    if pets == [] then []
    else
      assert forall pet :: pet in pets ==> pet == pets[0] || pet in pets[1..];
      (if exists row :: row in rows && row.petId == pets[0].id then [pets[0]] else [])
      + PetsToNotify(pets[1..], rows)
  }

  /** The batch a pet gets: none when its owners have no token, otherwise one message per token. */
  function BatchFor(t: Tables, pet: Pet, transport: Transport): seq<Effect> {
    var tokens := PetTokens(t, pet.id);
    if tokens == [] then []
    else
      var ms := Messages(tokens, Title(pet.name), Body(pet.name));
      [PushBatch(pet.id, ms, CountAccepted(ms, transport), CountRejected(ms, transport))]
  }

  function PushEffects(t: Tables, pets: seq<Pet>, transport: Transport): seq<Effect> {
    if pets == [] then []
    else PushEffects(t, pets[..|pets| - 1], transport) + BatchFor(t, pets[|pets| - 1], transport)
  }

  /** The ledger rows of a run, with ids taken from the sequence starting at `firstId`. */
  function LedgerEntries(rows: seq<DueRow>, firstId: Id): seq<SentNotification> {
    seq(|rows|, i requires 0 <= i < |rows| =>
      SentNotification(firstId + i, rows[i].petId, LEAD, rows[i].insulinApplicationId))
  }

  function LogEffects(entries: seq<SentNotification>): seq<Effect> {
    seq(|entries|, i requires 0 <= i < |entries| => LedgerRow(entries[i]))
  }

  /** The ledger after a run over `rows`. */
  function AfterRun(t: Tables, rows: seq<DueRow>, firstId: Id): Tables {
    t.(sentNotifications := t.sentNotifications + LedgerEntries(rows, firstId))
  }

  // ---------------------------------------------------------------------------
  // The job

  /** `process_pet_notifications`: one batch per pet whose owners have tokens. */
  method ProcessPetNotifications(t: Tables, pets: seq<Pet>, transport: Transport) returns (effects: seq<Effect>)
    ensures effects == PushEffects(t, pets, transport)
  {
    effects := [];
    var i := 0;
    while i < |pets|
      invariant 0 <= i <= |pets|
      invariant effects == PushEffects(t, pets[..i], transport)
    {
      var pet := pets[i];
      var pushTokens := CollectPushTokensForPet(t, pet.id);
      assert pets[..i + 1][..i] == pets[..i];
      if |pushTokens| > 0 {
        var successCount, errorCount, attempts :=
          SendNotificationsToTokens(pushTokens, Title(pet.name), Body(pet.name), transport);
        assert attempts == Messages(pushTokens, Title(pet.name), Body(pet.name));
        effects := effects + [PushBatch(pet.id, attempts, successCount, errorCount)];
      }
      i := i + 1;
    }
    assert pets[..i] == pets;
  }

  /** `log_notifications`: one ledger row per selected row. */
  method LogNotifications(db: Database, rows: seq<DueRow>) returns (effects: seq<Effect>)
    requires db.Valid()
    requires forall r :: r in rows ==> HasPet(db.pets, r.petId) && HasApplication(db.applications, r.insulinApplicationId)
    modifies db`sentNotifications, db`nextSentNotificationId
    ensures db.Valid()
    ensures db.sentNotifications == old(db.sentNotifications) + LedgerEntries(rows, old(db.nextSentNotificationId))
    ensures db.nextSentNotificationId == old(db.nextSentNotificationId) + |rows|
    ensures effects == LogEffects(LedgerEntries(rows, old(db.nextSentNotificationId)))
  {
    var firstId := db.nextSentNotificationId;
    effects := [];
    var i := 0;
    while i < |rows|
      invariant 0 <= i <= |rows|
      invariant db.Valid()
      invariant db.sentNotifications == old(db.sentNotifications) + LedgerEntries(rows[..i], firstId)
      invariant db.nextSentNotificationId == firstId + i
      invariant effects == LogEffects(LedgerEntries(rows[..i], firstId))
    {
      var entry := SentNotification(db.nextSentNotificationId, rows[i].petId, LEAD, rows[i].insulinApplicationId);
      assert LedgerEntries(rows[..i + 1], firstId) == LedgerEntries(rows[..i], firstId) + [entry];
      assert rows[i] in rows;
      db.sentNotifications := db.sentNotifications + [entry];
      db.nextSentNotificationId := db.nextSentNotificationId + 1;
      effects := effects + [LedgerRow(entry)];
      i := i + 1;
    }
    assert rows[..i] == rows;
  }

  /** `call`: select, stop when nothing is due, otherwise push every batch and then log every row. */
  method Call(db: Database, now: Time, transport: Transport) returns (effects: seq<Effect>)
    requires db.Valid()
    modifies db`sentNotifications, db`nextSentNotificationId
    ensures db.Valid()
    ensures var rows := Selection(old(db.State()), now);
      && db.State() == AfterRun(old(db.State()), rows, old(db.nextSentNotificationId))
      && db.nextSentNotificationId == old(db.nextSentNotificationId) + |rows|
      && effects == PushEffects(old(db.State()), PetsToNotify(old(db.pets), rows), transport)
                    + LogEffects(LedgerEntries(rows, old(db.nextSentNotificationId)))
    ensures Selection(old(db.State()), now) == [] ==> effects == [] && db.State() == old(db.State())
  {
    var t := db.State();
    var rows := Selection(t, now);
    if rows == [] {
      assert LedgerEntries(rows, db.nextSentNotificationId) == [];
      assert PetsToNotify(db.pets, rows) == [];
      return [];
    }
    FindByNextInsulinTime.SelectedRowsReferToStoredRecords(t, now, NotifierParams());
    var pushes := ProcessPetNotifications(t, PetsToNotify(t.pets, rows), transport);
    var logged := LogNotifications(db, rows);
    effects := pushes + logged;
  }

  // ---------------------------------------------------------------------------
  // Properties

  /** Every selected row has its ledger row, carrying the lead and the row's application. */
  lemma RowIsLogged(rows: seq<DueRow>, firstId: Id, r: DueRow)
    requires r in rows
    ensures exists e :: (e in LedgerEntries(rows, firstId)
      && e.petId == r.petId && e.minutesAlarm == LEAD && e.lastInsulinId == r.insulinApplicationId)
  {
    var i :| 0 <= i < |rows| && rows[i] == r;
    assert LedgerEntries(rows, firstId)[i].petId == r.petId;
  }

  /** Once logged, a row is never selected again by the job, whatever the clock and
      whatever else the ledger gains. */
  lemma LoggedRowsNeverReselected(t: Tables, now: Time, firstId: Id, later: Tables, laterNow: Time)
    requires forall e :: e in LedgerEntries(Selection(t, now), firstId) ==> e in later.sentNotifications
    ensures forall r :: r in Selection(t, now) ==> r !in Selection(later, laterNow)
  {
    forall r | r in Selection(t, now)
      ensures r !in Selection(later, laterNow)
    {
      RowIsLogged(Selection(t, now), firstId, r);
      FindByNextInsulinTime.NotifiedApplicationIsSkipped(later, laterNow, NotifierParams(), r.petId, r.insulinApplicationId);
    }
  }

  /** A second run at the same clock, over the same pets and applications, selects
      none of the pets the first run logged. */
  lemma SecondRunSelectsNoLoggedPet(t: Tables, now: Time, firstId: Id)
    requires UniquePetIds(t.pets)
    ensures var rows := Selection(t, now);
      forall r2, r :: r2 in Selection(AfterRun(t, rows, firstId), now) && r in rows ==> r2.petId != r.petId
  {
    var rows := Selection(t, now);
    var t2 := AfterRun(t, rows, firstId);
    var q := FindByNextInsulinTime.Effective(NotifierParams());
    forall r2, r | r2 in Selection(t2, now) && r in rows
      ensures r2.petId != r.petId
    {
      if r2.petId == r.petId {
        var pet2, a2: InsulinApplication :| pet2 in t2.pets && a2.petId == pet2.id
          && FindByNextInsulinTime.IsLatest(t2.applications, a2)
          && FindByNextInsulinTime.PassesWhere(t2, now, q, pet2, a2) && r2 == FindByNextInsulinTime.DueRow(pet2.id, a2.id);
        var pet, a: InsulinApplication :| pet in t.pets && a.petId == pet.id
          && FindByNextInsulinTime.IsLatest(t.applications, a)
          && FindByNextInsulinTime.PassesWhere(t, now, q, pet, a) && r == FindByNextInsulinTime.DueRow(pet.id, a.id);
        assert pet2 == pet by {
          var i :| 0 <= i < |t.pets| && t.pets[i] == pet;
          var j :| 0 <= j < |t.pets| && t.pets[j] == pet2;
          assert i == j;
        }
        assert a2.applicationTime == a.applicationTime;
        assert !FindByNextInsulinTime.AlreadyNotified(t.sentNotifications, pet.id, q.lead, a2.id);
        FindByNextInsulinTime.DueLatestApplicationIsSelected(t, now, NotifierParams(), pet, a2);
        RowIsLogged(rows, firstId, r2);
        assert FindByNextInsulinTime.AlreadyNotified(t2.sentNotifications, pet.id, q.lead, a2.id);
      }
    }
  }

  lemma {:induction false} PushEffectsArePushes(t: Tables, pets: seq<Pet>, transport: Transport)
    ensures forall e :: e in PushEffects(t, pets, transport) ==> e.PushBatch?
    ensures forall e :: e in PushEffects(t, pets, transport) ==> exists pet :: pet in pets && e.petId == pet.id && PetTokens(t, pet.id) != []
  {
    if pets != [] {
      PushEffectsArePushes(t, pets[..|pets| - 1], transport);
      assert forall pet :: pet in pets[..|pets| - 1] ==> pet in pets;
    }
  }

  /** Within a run every push batch comes before every ledger row. */
  lemma PushesPrecedeLedgerRows(t: Tables, rows: seq<DueRow>, firstId: Id, transport: Transport)
    ensures var effects := PushEffects(t, PetsToNotify(t.pets, rows), transport) + LogEffects(LedgerEntries(rows, firstId));
      forall i, j :: 0 <= i < j < |effects| && effects[i].LedgerRow? ==> effects[j].LedgerRow?
  {
    PushEffectsArePushes(t, PetsToNotify(t.pets, rows), transport);
    PushesThenLedgerRows(PushEffects(t, PetsToNotify(t.pets, rows), transport), LogEffects(LedgerEntries(rows, firstId)));
  }

  /** Push batches followed by ledger rows: no push batch comes after a ledger row. */
  lemma PushesThenLedgerRows(pushes: seq<Effect>, logs: seq<Effect>)
    requires forall e :: e in pushes ==> e.PushBatch?
    requires forall k :: 0 <= k < |logs| ==> logs[k].LedgerRow?
    ensures forall i, j :: 0 <= i < j < |pushes + logs| && (pushes + logs)[i].LedgerRow? ==> (pushes + logs)[j].LedgerRow?
  {
    var effects := pushes + logs;
    forall k | 0 <= k < |pushes|
      ensures effects[k].PushBatch?
    {
      assert effects[k] == pushes[k] && pushes[k] in pushes;
    }
    forall i, j | 0 <= i < j < |effects| && effects[i].LedgerRow?
      ensures effects[j].LedgerRow?
    {
      assert effects[j] == logs[j - |pushes|];
    }
  }

  /** A selected pet whose owners have no push token gets no batch but still gets its ledger row. */
  lemma PetWithoutTokensIsLoggedNotPushed(t: Tables, rows: seq<DueRow>, firstId: Id, transport: Transport, r: DueRow)
    requires r in rows && PetTokens(t, r.petId) == []
    ensures forall e :: e in PushEffects(t, PetsToNotify(t.pets, rows), transport) ==> e.PushBatch? && e.petId != r.petId
    ensures exists e :: e in LedgerEntries(rows, firstId) && e.petId == r.petId && e.lastInsulinId == r.insulinApplicationId
  {
    PushEffectsArePushes(t, PetsToNotify(t.pets, rows), transport);
    RowIsLogged(rows, firstId, r);
  }
}
