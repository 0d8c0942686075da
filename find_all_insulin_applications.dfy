/** Pets::FindAllInsulinApplications: a pet's insulin applications, optionally
    narrowed by a date, a units and a glucose range, most recent first.

    Each range is added to the condition hash only when at least one of its two
    bounds is given; a missing bound leaves that side open, a given bound is
    inclusive, and a NULL glucose level lies in no range. */
module FindAllInsulinApplications {
  import opened Common
  import opened Schema
  import opened PetAuthorizationHelpers

  datatype Query = Query(
    petId: Id,
    minDate: Option<Time>, maxDate: Option<Time>,
    minUnits: Option<int>, maxUnits: Option<int>,
    minGlucose: Option<int>, maxGlucose: Option<int>)

  /** A Ruby range `lo..hi`; a nil end is open. */
  datatype Range = Range(lo: Option<int>, hi: Option<int>)

  /** The condition hash handed to `where`. */
  datatype FilterHash = FilterHash(
    petId: Id,
    applicationTime: Option<Range>,
    insulinUnits: Option<Range>,
    glucoseLevel: Option<Range>)

  predicate InRange(v: int, r: Range) {
    (r.lo.Some? ==> r.lo.value <= v) && (r.hi.Some? ==> v <= r.hi.value)
  }

  /** The SQL meaning of the condition hash on one row. */
  predicate Matches(h: FilterHash, a: InsulinApplication) {
    && a.petId == h.petId
    && (h.applicationTime.Some? ==> InRange(a.applicationTime, h.applicationTime.value))
    && (h.insulinUnits.Some? ==> InRange(a.insulinUnits, h.insulinUnits.value))
    && (h.glucoseLevel.Some? ==> a.glucoseLevel.Some? && InRange(a.glucoseLevel.value, h.glucoseLevel.value))
  }

  /** Which applications the caller asks for: the pet's, within every supplied bound. */
  ghost predicate Wanted(q: Query, a: InsulinApplication) {
    && a.petId == q.petId
    && (q.minDate.Some? ==> q.minDate.value <= a.applicationTime)
    && (q.maxDate.Some? ==> a.applicationTime <= q.maxDate.value)
    && (q.minUnits.Some? ==> q.minUnits.value <= a.insulinUnits)
    && (q.maxUnits.Some? ==> a.insulinUnits <= q.maxUnits.value)
    && ((q.minGlucose.Some? || q.maxGlucose.Some?) ==> a.glucoseLevel.Some?)
    && (q.minGlucose.Some? ==> q.minGlucose.value <= a.glucoseLevel.value)
    && (q.maxGlucose.Some? ==> a.glucoseLevel.value <= q.maxGlucose.value)
  }

  /** `filters`: starts from the pet id and adds each range whose bounds are not both nil. */
  method Filters(q: Query) returns (h: FilterHash)
    ensures h.petId == q.petId
    ensures h.applicationTime.Some? <==> q.minDate.Some? || q.maxDate.Some?
    ensures h.insulinUnits.Some? <==> q.minUnits.Some? || q.maxUnits.Some?
    ensures h.glucoseLevel.Some? <==> q.minGlucose.Some? || q.maxGlucose.Some?
    ensures forall a :: Matches(h, a) <==> Wanted(q, a)
  {
    h := FilterHash(q.petId, None, None, None);
    if q.minDate.Some? || q.maxDate.Some? {
      h := h.(applicationTime := Some(Range(q.minDate, q.maxDate)));
    }
    if q.minUnits.Some? || q.maxUnits.Some? {
      h := h.(insulinUnits := Some(Range(q.minUnits, q.maxUnits)));
    }
    if q.minGlucose.Some? || q.maxGlucose.Some? {
      h := h.(glucoseLevel := Some(Range(q.minGlucose, q.maxGlucose)));
    }
  }

  /** `InsulinApplication.where(h)`, in table order. */
  function Where(apps: seq<InsulinApplication>, h: FilterHash): (r: seq<InsulinApplication>)
    ensures forall a :: multiset(r)[a] == if Matches(h, a) then multiset(apps)[a] else 0
  {
    if apps == [] then []
    else
      assert apps == [apps[0]] + apps[1..];
      (if Matches(h, apps[0]) then [apps[0]] else []) + Where(apps[1..], h)
  }

  predicate NonIncreasingTimes(s: seq<InsulinApplication>) {
    forall i, j :: 0 <= i < j < |s| ==> s[i].applicationTime >= s[j].applicationTime
  }

  /** Places `a` before the first element that is not later than it. */
  function Insert(a: InsulinApplication, s: seq<InsulinApplication>): (r: seq<InsulinApplication>)
    requires NonIncreasingTimes(s)
    ensures NonIncreasingTimes(r)
    ensures multiset(r) == multiset(s) + multiset{a}
    ensures forall x :: x in r <==> x in s || x == a
  {
    if s == [] then [a]
    else if s[0].applicationTime <= a.applicationTime then [a] + s
    else
      var rest := Insert(a, s[1..]);
      assert s == [s[0]] + s[1..];
      assert forall x :: x in rest ==> x.applicationTime <= s[0].applicationTime;
      [s[0]] + rest
  }

  /** `order(application_time: :desc)`; among equal times the order is not specified. */
  function OrderByTimeDesc(s: seq<InsulinApplication>): (r: seq<InsulinApplication>)
    ensures NonIncreasingTimes(r)
    ensures multiset(r) == multiset(s)
  {
    if s == [] then []
    else
      assert s == [s[0]] + s[1..];
      Insert(s[0], OrderByTimeDesc(s[1..]))
  }

  /** `call`: pet existence, then permission at any level, then the filtered and ordered rows.
      Each wanted application appears as often as it is stored, and nothing else appears. */
  method Call(t: Tables, userId: Id, q: Query) returns (r: Result<seq<InsulinApplication>>)
    ensures !HasPet(t.pets, q.petId) ==> r == Err(NotFound(NOT_FOUND))
    ensures HasPet(t.pets, q.petId) && !HasPermission(t, userId, q.petId, false) ==> r == Err(Unauthorized)
    ensures r.Ok? <==> HasPet(t.pets, q.petId) && HasPermission(t, userId, q.petId, false)
    ensures r.Ok? ==> NonIncreasingTimes(r.value)
    ensures r.Ok? ==> forall a :: multiset(r.value)[a] == if Wanted(q, a) then multiset(t.applications)[a] else 0
  {
    var check := AndThen(ValidatePetExistence(t.pets, q.petId), ValidatePetPermission(t, userId, q.petId, false));
    if check.Fail? {
      return Err(check.error);
    }
    var h := Filters(q);
    r := Ok(OrderByTimeDesc(Where(t.applications, h)));
  }

  /** Without bounds every application of the pet is wanted, and only those. */
  lemma NoBoundsWantsEveryApplicationOfThePet(petId: Id, a: InsulinApplication)
    ensures Wanted(Query(petId, None, None, None, None, None, None), a) <==> a.petId == petId
  {
  }

  /** A supplied bound is inclusive: a value equal to it is kept. */
  lemma BoundsAreInclusive(q: Query, a: InsulinApplication)
    requires a.petId == q.petId
    requires q.minDate == Some(a.applicationTime) && q.maxDate == Some(a.applicationTime)
    requires q.minUnits == Some(a.insulinUnits) && q.maxUnits == Some(a.insulinUnits)
    requires a.glucoseLevel.Some? && q.minGlucose == a.glucoseLevel && q.maxGlucose == a.glucoseLevel
    ensures Wanted(q, a)
  {
  }

  /** Any glucose bound drops the applications whose glucose is not recorded. */
  lemma GlucoseBoundDropsUnrecorded(q: Query, a: InsulinApplication)
    requires q.minGlucose.Some? || q.maxGlucose.Some?
    requires a.glucoseLevel.None?
    ensures !Wanted(q, a)
  {
  }
}
