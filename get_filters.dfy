/** InsulinApplications::GetFilters: the bounds the filter form offers for one pet,
    as MIN and MAX over that pet's applications. SQL aggregates skip NULL, so the
    glucose bounds range over the applications whose glucose is recorded and are
    nil when none is. */
module GetFilters {
  import opened Common
  import opened Schema
  import opened PetAuthorizationHelpers

  datatype FilterBounds = FilterBounds(
    minDate: Time, maxDate: Time,
    minUnits: int, maxUnits: int,
    minGlucose: Option<int>, maxGlucose: Option<int>)

  function Min(a: int, b: int): int { if a <= b then a else b }
  function Max(a: int, b: int): int { if a <= b then b else a }

  /** `lo` and `hi` are attained values of `vals` and every value lies between them. */
  ghost predicate Spans(vals: seq<int>, lo: int, hi: int) {
    lo in vals && hi in vals && forall v :: v in vals ==> lo <= v <= hi
  }

  function Times(apps: seq<InsulinApplication>): seq<int> {
    seq(|apps|, i requires 0 <= i < |apps| => apps[i].applicationTime)
  }

  function Units(apps: seq<InsulinApplication>): seq<int> {
    seq(|apps|, i requires 0 <= i < |apps| => apps[i].insulinUnits)
  }

  /** The recorded glucose levels, NULLs skipped. */
  function Glucoses(apps: seq<InsulinApplication>): (r: seq<int>)
    ensures forall g :: g in r <==> exists a :: a in apps && a.glucoseLevel == Some(g)
  {
    if apps == [] then []
    else
      assert forall a :: a in apps ==> a == apps[0] || a in apps[1..];
      (if apps[0].glucoseLevel.Some? then [apps[0].glucoseLevel.value] else []) + Glucoses(apps[1..])
  }

  /** MIN and MAX of a non-empty column. */
  function Aggregate(vals: seq<int>): (r: (int, int))
    requires vals != []
    ensures Spans(vals, r.0, r.1)
  {
    if |vals| == 1 then (vals[0], vals[0])
    else
      var rest := Aggregate(vals[1..]);
      assert forall v :: v in vals ==> v == vals[0] || v in vals[1..];
      (Min(vals[0], rest.0), Max(vals[0], rest.1))
  }

  /** MIN and MAX of a column that may hold no value. */
  function AggregateOrNil(vals: seq<int>): (r: (Option<int>, Option<int>))
    ensures r.0.None? <==> vals == []
    ensures r.1.None? <==> vals == []
    ensures vals != [] ==> Spans(vals, r.0.value, r.1.value)
  {
    if vals == [] then (None, None)
    else
      var (lo, hi) := Aggregate(vals);
      (Some(lo), Some(hi))
  }

  /** `build_filter_query` and `build_filter_response` over a non-empty set of applications. */
  function BuildFilterResponse(apps: seq<InsulinApplication>): (r: FilterBounds)
    requires apps != []
    ensures Spans(Times(apps), r.minDate, r.maxDate)
    ensures Spans(Units(apps), r.minUnits, r.maxUnits)
    ensures r.minGlucose.None? <==> forall a :: a in apps ==> a.glucoseLevel.None?
    ensures r.maxGlucose.None? <==> forall a :: a in apps ==> a.glucoseLevel.None?
    ensures r.minGlucose.Some? ==> Spans(Glucoses(apps), r.minGlucose.value, r.maxGlucose.value)
  {
    var (minDate, maxDate) := Aggregate(Times(apps));
    var (minUnits, maxUnits) := Aggregate(Units(apps));
    var (minGlucose, maxGlucose) := AggregateOrNil(Glucoses(apps));
    assert Glucoses(apps) == [] <==> forall a :: a in apps ==> a.glucoseLevel.None? by {
      if Glucoses(apps) != [] {
        assert Glucoses(apps)[0] in Glucoses(apps);
      }
    }
    FilterBounds(minDate, maxDate, minUnits, maxUnits, minGlucose, maxGlucose)
  }

  /** `validate_insulin_application_existence`. */
  function ValidateInsulinApplicationExistence(apps: seq<InsulinApplication>, petId: Id): (r: Outcome)
    ensures r.Pass? <==> HasApplicationOfPet(apps, petId)
    ensures r.Fail? ==> r.error == NotFound(APPLICATION_NOT_FOUND)
  {
    if HasApplicationOfPet(apps, petId) then Pass else Fail(NotFound(APPLICATION_NOT_FOUND))
  }

  /** `perform_validations` then the aggregates over the pet's own applications. */
  function Call(t: Tables, userId: Id, petId: Id): (r: Result<FilterBounds>)
    ensures !HasPet(t.pets, petId) ==> r == Err(NotFound(NOT_FOUND))
    ensures HasPet(t.pets, petId) && !HasPermission(t, userId, petId, false) ==> r == Err(Unauthorized)
    ensures HasPet(t.pets, petId) && HasPermission(t, userId, petId, false) && !HasApplicationOfPet(t.applications, petId)
      ==> r == Err(NotFound(APPLICATION_NOT_FOUND))
    ensures r.Ok? <==> HasPet(t.pets, petId) && HasPermission(t, userId, petId, false) && HasApplicationOfPet(t.applications, petId)
    ensures r.Ok? ==> r.value.minDate <= r.value.maxDate && r.value.minUnits <= r.value.maxUnits
    ensures r.Ok? && r.value.minGlucose.Some? ==> r.value.maxGlucose.Some? && r.value.minGlucose.value <= r.value.maxGlucose.value
  {
    var check := AndThen(AndThen(ValidatePetExistence(t.pets, petId), ValidatePetPermission(t, userId, petId, false)),
                         ValidateInsulinApplicationExistence(t.applications, petId));
    if check.Fail? then Err(check.error)
    else
      var mine := OfPet(t.applications, petId);
      var a :| a in t.applications && a.petId == petId;
      assert a in mine;
      Ok(BuildFilterResponse(mine))
  }

  /** Every bound is attained by an application of the pet, and every application of the
      pet lies within the bounds; nil glucose levels are skipped. */
  lemma BoundsSpanThePetsApplications(t: Tables, userId: Id, petId: Id)
    requires Call(t, userId, petId).Ok?
    ensures var b := Call(t, userId, petId).value;
      && (exists a :: a in t.applications && a.petId == petId && a.applicationTime == b.minDate)
      && (exists a :: a in t.applications && a.petId == petId && a.applicationTime == b.maxDate)
      && (exists a :: a in t.applications && a.petId == petId && a.insulinUnits == b.minUnits)
      && (exists a :: a in t.applications && a.petId == petId && a.insulinUnits == b.maxUnits)
      && (forall a :: a in t.applications && a.petId == petId ==>
            && b.minDate <= a.applicationTime <= b.maxDate
            && b.minUnits <= a.insulinUnits <= b.maxUnits
            && (a.glucoseLevel.Some? ==> b.minGlucose.Some? && b.minGlucose.value <= a.glucoseLevel.value <= b.maxGlucose.value))
      && (b.minGlucose.None? <==> forall a :: a in t.applications && a.petId == petId ==> a.glucoseLevel.None?)
      && (b.minGlucose.Some? ==>
            && (exists a :: a in t.applications && a.petId == petId && a.glucoseLevel == b.minGlucose)
            && (exists a :: a in t.applications && a.petId == petId && a.glucoseLevel == b.maxGlucose))
  {
    var mine := OfPet(t.applications, petId);
    var b := Call(t, userId, petId).value;
    assert b == BuildFilterResponse(mine);
    var i :| 0 <= i < |mine| && mine[i].applicationTime == b.minDate;
    assert mine[i] in mine;
    var j :| 0 <= j < |mine| && mine[j].applicationTime == b.maxDate;
    assert mine[j] in mine;
    var k :| 0 <= k < |mine| && mine[k].insulinUnits == b.minUnits;
    assert mine[k] in mine;
    var l :| 0 <= l < |mine| && mine[l].insulinUnits == b.maxUnits;
    assert mine[l] in mine;
    forall a | a in t.applications && a.petId == petId
      ensures b.minDate <= a.applicationTime <= b.maxDate && b.minUnits <= a.insulinUnits <= b.maxUnits
      ensures a.glucoseLevel.Some? ==> b.minGlucose.Some? && b.minGlucose.value <= a.glucoseLevel.value <= b.maxGlucose.value
    {
      var n :| 0 <= n < |mine| && mine[n] == a;
      assert Times(mine)[n] == a.applicationTime && a.applicationTime in Times(mine);
      assert Units(mine)[n] == a.insulinUnits && a.insulinUnits in Units(mine);
      if a.glucoseLevel.Some? {
        assert a.glucoseLevel.value in Glucoses(mine);
      }
    }
  }

  /** Applications of other pets never change the bounds. */
  lemma OtherPetsDoNotAffectBounds(t: Tables, t': Tables, userId: Id, petId: Id)
    requires t'.pets == t.pets && t'.petOwners == t.petOwners
    requires OfPet(t'.applications, petId) == OfPet(t.applications, petId)
    ensures Call(t', userId, petId) == Call(t, userId, petId)
  {
    assert HasApplicationOfPet(t'.applications, petId) <==> HasApplicationOfPet(t.applications, petId) by {
      if HasApplicationOfPet(t.applications, petId) {
        var a :| a in t.applications && a.petId == petId;
        assert a in OfPet(t'.applications, petId);
      }
    }
  }

  /** With a single application every minimum equals its maximum and that application's value. */
  lemma SingleApplicationBoundsCoincide(a: InsulinApplication)
    ensures var b := BuildFilterResponse([a]);
      && b.minDate == b.maxDate == a.applicationTime
      && b.minUnits == b.maxUnits == a.insulinUnits
      && b.minGlucose == b.maxGlucose == a.glucoseLevel
  {
    assert Times([a]) == [a.applicationTime];
    assert Units([a]) == [a.insulinUnits];
  }
}
