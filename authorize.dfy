/** Auth::Authorize: takes the access token from the `authorization` header and
    decodes it. The token is the last field of the header split on "Bearer ", so a
    header without that prefix is taken whole; a missing or blank token raises
    InvalidTokenError before any decoding. */
module Authorize {
  import opened Common

  const BEARER: string := "Bearer "

  /** What a decoded token carries. */
  datatype Claims = Claims(userId: int)

  /** `sep` occurs in `s` at position `i`. */
  predicate OccursAt(s: string, sep: string, i: int) {
    0 <= i <= |s| - |sep| && s[i..i + |sep|] == sep
  }

  /** `sep` occurs somewhere in `s`. */
  ghost predicate Contains(s: string, sep: string) {
    exists i :: 0 <= i <= |s| && OccursAt(s, sep, i)
  }

  /** Every field between the non-overlapping occurrences of `sep`, scanning left to right,
      empty ones included. */
  function Fields(s: string, sep: string): (r: seq<string>)
    requires |sep| > 0
    ensures |r| >= 1
    ensures r[0] <= s
    ensures forall i :: 0 <= i < |r| ==> !Contains(r[i], sep)
    decreases |s|
  {
    if |s| < |sep| then
      assert !Contains(s, sep);
      [s]
    else if s[..|sep|] == sep then
      assert !Contains("", sep);
      [""] + Fields(s[|sep|..], sep)
    else
      var rest := Fields(s[1..], sep);
      PrependKeepsSeparatorOut(s, rest[0], sep);
      [[s[0]] + rest[0]] + rest[1..]
  }

  /** A prefix `[s[0]] + f` of `s`, with `f` free of `sep` and `s` not starting with `sep`, is free of `sep`. */
  lemma PrependKeepsSeparatorOut(s: string, f: string, sep: string)
    requires 0 < |sep| <= |s| && s[..|sep|] != sep
    requires f <= s[1..] && !Contains(f, sep)
    ensures [s[0]] + f <= s
    ensures !Contains([s[0]] + f, sep)
  {
    var g := [s[0]] + f;
    assert g <= s by {
      assert s == [s[0]] + s[1..];
    }
    forall i | 0 <= i <= |g| - |sep|
      ensures !OccursAt(g, sep, i)
    {
      if i == 0 {
        assert g[..|sep|] == s[..|sep|];
      } else {
        assert g[i..i + |sep|] == f[i - 1..i - 1 + |sep|];
        assert !OccursAt(f, sep, i - 1);
      }
    }
  }

  /** The fields put back together with `sep` between them. */
  function Join(fields: seq<string>, sep: string): string
    requires |fields| >= 1
  {
    if |fields| == 1 then fields[0] else fields[0] + sep + Join(fields[1..], sep)
  }

  /** Ruby's `split` drops the trailing empty fields (and so gives [] for an empty string). */
  function DropTrailingEmpty(fields: seq<string>): (r: seq<string>)
    ensures r <= fields
    ensures r == [] || r[|r| - 1] != ""
    ensures forall i :: |r| <= i < |fields| ==> fields[i] == ""
  {
    if fields == [] then []
    else if fields[|fields| - 1] == "" then DropTrailingEmpty(fields[..|fields| - 1])
    else fields
  }

  /** `headers['authorization']&.split('Bearer ')&.last`. */
  function ExtractToken(header: Option<string>): (r: Option<string>)
    ensures header.None? ==> r.None?
    ensures r.Some? ==> r.value != "" && !Contains(r.value, BEARER)
  {
    if header.None? then None
    else
      var fields := DropTrailingEmpty(Fields(header.value, BEARER));
      if fields == [] then None else Some(fields[|fields| - 1])
  }

  /** `call`: `validate_access_token` raises InvalidTokenError for a missing or blank token;
      otherwise the decoder's answer is returned. */
  function Call(header: Option<string>, decode: string -> Result<Claims>): (r: Result<Claims>)
    ensures IsBlankOrNil(ExtractToken(header)) ==> r == Err(InvalidToken)
    ensures !IsBlankOrNil(ExtractToken(header)) ==> r == decode(ExtractToken(header).value)
  {
    var token := ExtractToken(header);
    if IsBlankOrNil(token) then Err(InvalidToken) else decode(token.value)
  }

  // ---------------------------------------------------------------------------
  // Properties

  /** Splitting loses nothing: joining the fields with the separator gives the string back. */
  lemma {:induction false} JoinFields(s: string, sep: string)
    requires |sep| > 0
    ensures Join(Fields(s, sep), sep) == s
    decreases |s|
  {
    if |s| < |sep| {
    } else if s[..|sep|] == sep {
      JoinFields(s[|sep|..], sep);
      assert s == sep + s[|sep|..];
    } else {
      var rest := Fields(s[1..], sep);
      JoinFields(s[1..], sep);
      assert s == [s[0]] + s[1..];
      if |rest| > 1 {
        assert Join(rest, sep) == rest[0] + sep + Join(rest[1..], sep);
        var r := [[s[0]] + rest[0]] + rest[1..];
        assert r[1..] == rest[1..];
      }
    }
  }

  /** A string without the separator is a single field. */
  lemma {:induction false} FieldsWithoutSeparator(s: string, sep: string)
    requires |sep| > 0 && !Contains(s, sep)
    ensures Fields(s, sep) == [s]
    decreases |s|
  {
    if |s| >= |sep| {
      assert !OccursAt(s, sep, 0);
      assert !Contains(s[1..], sep) by {
        forall i | 0 <= i <= |s[1..]| - |sep|
          ensures !OccursAt(s[1..], sep, i)
        {
          assert s[1..][i..i + |sep|] == s[i + 1..i + 1 + |sep|];
          assert !OccursAt(s, sep, i + 1);
        }
      }
      FieldsWithoutSeparator(s[1..], sep);
      assert s == [s[0]] + s[1..];
    }
  }

  /** "Bearer <token>" yields the token, for any non-empty token without "Bearer " in it. */
  lemma BearerHeaderGivesToken(token: string)
    requires token != "" && !Contains(token, BEARER)
    ensures ExtractToken(Some(BEARER + token)) == Some(token)
  {
    var h := BEARER + token;
    assert h[..|BEARER|] == BEARER && h[|BEARER|..] == token;
    FieldsWithoutSeparator(token, BEARER);
    assert Fields(h, BEARER) == ["", token];
  }

  /** A header without the prefix is taken whole as the token. */
  lemma UnprefixedHeaderIsTakenWhole(token: string)
    requires token != "" && !Contains(token, BEARER)
    ensures ExtractToken(Some(token)) == Some(token)
  {
    FieldsWithoutSeparator(token, BEARER);
  }

  /** No header, and a header holding only the prefix, are refused before decoding. */
  lemma MissingTokenIsInvalid(decode: string -> Result<Claims>)
    ensures Call(None, decode) == Err(InvalidToken)
    ensures Call(Some(BEARER), decode) == Err(InvalidToken)
    ensures Call(Some(""), decode) == Err(InvalidToken)
  {
    assert BEARER[..|BEARER|] == BEARER && BEARER[|BEARER|..] == "";
    assert Fields("", BEARER) == [""];
    assert Fields(BEARER, BEARER) == ["", ""];
  }
}
