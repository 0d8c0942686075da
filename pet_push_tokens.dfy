/** The push tokens of a pet's owners, as both notifiers collect them: for each
    owner of the pet in turn, each of that owner's tokens in turn. */
module PetPushTokens {
  import opened Schema

  /** `owner.push_tokens.map(&:token)`, in table order. */
  function TokensOfUser(tokens: seq<PushToken>, userId: Id): seq<string> {
    if tokens == [] then []
    else
      TokensOfUser(tokens[..|tokens| - 1], userId)
      + (if tokens[|tokens| - 1].userId == userId then [tokens[|tokens| - 1].token] else [])
  }

  /** The concatenation, over `owners` in order, of each owner's tokens. */
  function TokensOfOwners(owners: seq<PetOwner>, tokens: seq<PushToken>): seq<string> {
    if owners == [] then []
    else TokensOfOwners(owners[..|owners| - 1], tokens) + TokensOfUser(tokens, owners[|owners| - 1].ownerId)
  }

  /** The tokens of every owner of the pet, at any ownership level. */
  function PetTokens(t: Tables, petId: Id): seq<string> {
    TokensOfOwners(OwnershipsOfPet(t.petOwners, petId), t.pushTokens)
  }

  lemma {:induction false} TokensOfUserMembership(tokens: seq<PushToken>, userId: Id, token: string)
    ensures token in TokensOfUser(tokens, userId) <==>
      exists k :: k in tokens && k.userId == userId && k.token == token
  {
    if tokens != [] {
      var init := tokens[..|tokens| - 1];
      TokensOfUserMembership(init, userId, token);
      assert tokens == init + [tokens[|tokens| - 1]];
    }
  }

  lemma {:induction false} TokensOfOwnersMembership(owners: seq<PetOwner>, tokens: seq<PushToken>, token: string)
    ensures token in TokensOfOwners(owners, tokens) <==>
      exists o, k :: o in owners && k in tokens && k.userId == o.ownerId && k.token == token
  {
    if owners != [] {
      var init := owners[..|owners| - 1];
      var last := owners[|owners| - 1];
      TokensOfOwnersMembership(init, tokens, token);
      TokensOfUserMembership(tokens, last.ownerId, token);
      assert owners == init + [last];
      if exists o, k :: o in owners && k in tokens && k.userId == o.ownerId && k.token == token {
        var o, k :| o in owners && k in tokens && k.userId == o.ownerId && k.token == token;
        if o != last {
          assert o in init;
        }
      }
    }
  }

  /** A token is collected for the pet exactly when it belongs to a user holding an ownership row of the pet. */
  lemma PetTokensMembership(t: Tables, petId: Id, token: string)
    ensures token in PetTokens(t, petId) <==>
      exists o, k :: o in t.petOwners && o.petId == petId && k in t.pushTokens && k.userId == o.ownerId && k.token == token
  {
    TokensOfOwnersMembership(OwnershipsOfPet(t.petOwners, petId), t.pushTokens, token);
  }

  /** `collect_push_tokens_for_pet`: appends each owner's tokens to a list, owner after owner. */
  method CollectPushTokensForPet(t: Tables, petId: Id) returns (pushTokens: seq<string>)
    ensures pushTokens == PetTokens(t, petId)
  {
    var owners := OwnershipsOfPet(t.petOwners, petId);
    pushTokens := [];
    var i := 0;
    while i < |owners|
      invariant 0 <= i <= |owners|
      invariant pushTokens == TokensOfOwners(owners[..i], t.pushTokens)
    {
      var owner := owners[i];
      var before := pushTokens;
      var j := 0;
      while j < |t.pushTokens|
        invariant 0 <= j <= |t.pushTokens|
        invariant pushTokens == before + TokensOfUser(t.pushTokens[..j], owner.ownerId)
      {
        if t.pushTokens[j].userId == owner.ownerId {
          pushTokens := pushTokens + [t.pushTokens[j].token];
        }
        assert t.pushTokens[..j + 1][..j] == t.pushTokens[..j];
        j := j + 1;
      }
      assert t.pushTokens[..j] == t.pushTokens;
      assert owners[..i + 1][..i] == owners[..i];
      i := i + 1;
    }
    assert owners[..i] == owners;
  }
}
