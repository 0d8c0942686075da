/** Users::CreatePushToken: registers a device token for the caller. The caller is
    looked up first (a missing one re-raises RecordNotFound); the token row is then
    found or created on the pair (user, token), so registering a device twice stores
    it once. */
module CreatePushToken {
  import opened Common
  import opened Schema
  import opened Persistence

  predicate IsPair(k: PushToken, userId: Id, token: string) {
    k.userId == userId && k.token == token
  }

  /** The `find_by` half of `find_or_create_by!`: the first row for the pair. */
  function FindToken(tokens: seq<PushToken>, userId: Id, token: string): (r: Option<PushToken>)
    ensures r.None? <==> forall k :: k in tokens ==> !IsPair(k, userId, token)
    ensures r.Some? ==> r.value in tokens && IsPair(r.value, userId, token)
  {
    if tokens == [] then None
    else if IsPair(tokens[0], userId, token) then Some(tokens[0])
    else
      assert forall k :: k in tokens ==> k == tokens[0] || k in tokens[1..];
      FindToken(tokens[1..], userId, token)
  }

  /** How many rows hold the pair. */
  function CountPair(tokens: seq<PushToken>, userId: Id, token: string): nat {
    if tokens == [] then 0
    else CountPair(tokens[..|tokens| - 1], userId, token) + (if IsPair(tokens[|tokens| - 1], userId, token) then 1 else 0)
  }

  /** The row `find_or_create_by!` returns and the table it leaves: the existing row and the
      table unchanged, or a new row with the next id appended. */
  function FindOrCreate(tokens: seq<PushToken>, userId: Id, token: string, nextId: Id): (r: (PushToken, seq<PushToken>))
    ensures IsPair(r.0, userId, token) && r.0 in r.1
    ensures FindToken(tokens, userId, token).Some? ==> r == (FindToken(tokens, userId, token).value, tokens)
    ensures FindToken(tokens, userId, token).None? ==> r == (PushToken(nextId, userId, token), tokens + [PushToken(nextId, userId, token)])
  {
    match FindToken(tokens, userId, token)
    case Some(k) => (k, tokens)
    case None =>
      var k := PushToken(nextId, userId, token);
      (k, tokens + [k])
  }

  /** `call`: `user`, then `create_push_token`. */
  method Call(db: Database, userId: Id, token: string) returns (r: Result<PushToken>)
    requires db.Valid()
    modifies db`pushTokens, db`nextPushTokenId
    ensures db.Valid()
    ensures !HasUser(old(db.users), userId) ==>
      r == Err(RecordNotFound) && db.pushTokens == old(db.pushTokens) && db.nextPushTokenId == old(db.nextPushTokenId)
    ensures HasUser(old(db.users), userId) ==>
      var found := FindToken(old(db.pushTokens), userId, token);
      var (row, after) := FindOrCreate(old(db.pushTokens), userId, token, old(db.nextPushTokenId));
      && r == Ok(row)
      && db.pushTokens == after
      && db.nextPushTokenId == old(db.nextPushTokenId) + (if found.None? then 1 else 0)
  {
    if !HasUser(db.users, userId) {
      return Err(RecordNotFound);
    }
    var found := FindToken(db.pushTokens, userId, token);
    if found.Some? {
      return Ok(found.value);
    }
    var k := PushToken(db.nextPushTokenId, userId, token);
    AppendPushTokenKeepsConsistent(db.State(), k);
    db.pushTokens := db.pushTokens + [k];
    db.nextPushTokenId := db.nextPushTokenId + 1;
    r := Ok(k);
  }

  // ---------------------------------------------------------------------------
  // Properties

  /** Looking the pair up in a table with one more row: earlier rows win. */
  lemma {:induction false} FindTokenAppend(tokens: seq<PushToken>, k: PushToken, userId: Id, token: string)
    ensures FindToken(tokens + [k], userId, token) ==
      if FindToken(tokens, userId, token).Some? then FindToken(tokens, userId, token)
      else if IsPair(k, userId, token) then Some(k)
      else None
  {
    if tokens != [] {
      assert (tokens + [k])[1..] == tokens[1..] + [k];
      FindTokenAppend(tokens[1..], k, userId, token);
    }
  }

  /** A second identical registration finds the row the first one returned and adds nothing. */
  lemma FindOrCreateIsIdempotent(tokens: seq<PushToken>, userId: Id, token: string, nextId: Id, laterId: Id)
    ensures var (row, after) := FindOrCreate(tokens, userId, token, nextId);
      FindOrCreate(after, userId, token, laterId) == (row, after)
  {
    if FindToken(tokens, userId, token).None? {
      FindTokenAppend(tokens, PushToken(nextId, userId, token), userId, token);
    }
  }

  /** Starting with no row for the pair, two identical registrations leave exactly one. */
  lemma TwoCallsLeaveOneRow(tokens: seq<PushToken>, userId: Id, token: string, nextId: Id, laterId: Id)
    requires CountPair(tokens, userId, token) == 0
    ensures var after := FindOrCreate(tokens, userId, token, nextId).1;
      CountPair(FindOrCreate(after, userId, token, laterId).1, userId, token) == 1
  {
    FindOrCreateIsIdempotent(tokens, userId, token, nextId, laterId);
    var k := PushToken(nextId, userId, token);
    var after := tokens + [k];
    assert after[..|after| - 1] == tokens;
    if FindToken(tokens, userId, token).Some? {
      CountPairCountsFound(tokens, userId, token);
    }
  }

  /** A row found for the pair is counted. */
  lemma {:induction false} CountPairCountsFound(tokens: seq<PushToken>, userId: Id, token: string)
    requires FindToken(tokens, userId, token).Some?
    ensures CountPair(tokens, userId, token) > 0
  {
    var last := tokens[|tokens| - 1];
    var init := tokens[..|tokens| - 1];
    assert tokens == init + [last];
    FindTokenAppend(init, last, userId, token);
    if FindToken(init, userId, token).Some? {
      CountPairCountsFound(init, userId, token);
    }
  }
}
