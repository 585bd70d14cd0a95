/** The bearer-token check that every authenticated route runs first (`get_current_user_id`). */
module Auth {
  import opened Base

  const BEARER_PREFIX: string := "Bearer "

  /** The rejection value the helper returns. */
  const NO_USER: int := -1

  /** `p` occurs in `s` starting at position `j`. */
  predicate OccursAt(s: string, p: string, j: nat) {
    j + |p| <= |s| && s[j..j + |p|] == p
  }

  /**
   * `std::string::find(p, i)`: the first position at or after `i` where `p` occurs
   * in `s`, or -1 standing for `npos`.
   */
  function FindFrom(s: string, p: string, i: nat): (r: int)
    requires i <= |s|
    decreases |s| - i
    ensures r == -1 || (i <= r && OccursAt(s, p, r))
    ensures r != -1 ==> forall j :: i <= j < r ==> !OccursAt(s, p, j)
    ensures r == -1 ==> forall j :: i <= j ==> !OccursAt(s, p, j)
  {
    if i + |p| > |s| then -1
    else if s[i..i + |p|] == p then i
    else FindFrom(s, p, i + 1)
  }

  function Find(s: string, p: string): int {
    FindFrom(s, p, 0)
  }

  /** `find(p) != 0` is the source's way of asking "does not start with p". */
  lemma FindZeroIffPrefix(s: string, p: string)
    ensures Find(s, p) == 0 <==> StartsWith(s, p)
  {
    if StartsWith(s, p) {
      assert s[0..|p|] == s[..|p|];
    }
  }

  /**
   * The caller's id, or -1. `verify` stands for decoding the token, checking its HS256
   * signature, reading its `user_id` claim and converting it with `stoi`: None when any of
   * those throws.
   */
  function CurrentUserId(authorization: string, verify: string -> Option<int>): (id: int)
    ensures !StartsWith(authorization, BEARER_PREFIX) ==> id == NO_USER
    ensures StartsWith(authorization, BEARER_PREFIX) ==>
              id == verify(authorization[|BEARER_PREFIX|..]).GetOr(NO_USER)
  {
    FindZeroIffPrefix(authorization, BEARER_PREFIX);
    if |authorization| == 0 || Find(authorization, BEARER_PREFIX) != 0 then NO_USER
    else
      var token := authorization[7..];
      match verify(token)
      case Some(userId) => userId
      case None => NO_USER
  }

  /** The token handed to the verifier is exactly what follows the prefix. */
  lemma BearerRoundTrip(token: string, verify: string -> Option<int>)
    ensures CurrentUserId(BEARER_PREFIX + token, verify) == verify(token).GetOr(NO_USER)
  {
    var h := BEARER_PREFIX + token;
    assert h[..|BEARER_PREFIX|] == BEARER_PREFIX;
    assert h[|BEARER_PREFIX|..] == token;
  }

  /** An accepted header always carried the prefix and a token the verifier accepted. */
  lemma AcceptedHeaderHasBearerToken(authorization: string, verify: string -> Option<int>)
    requires CurrentUserId(authorization, verify) != NO_USER
    ensures exists token :: authorization == BEARER_PREFIX + token &&
                            verify(token) == Some(CurrentUserId(authorization, verify))
  {
    var token := authorization[|BEARER_PREFIX|..];
    assert authorization == BEARER_PREFIX + token;
  }

  /** An empty header, another scheme, or the prefix in the wrong case are all rejected. */
  lemma RejectedHeaders(verify: string -> Option<int>)
    ensures CurrentUserId("", verify) == NO_USER
    ensures CurrentUserId("Basic abc", verify) == NO_USER
    ensures CurrentUserId("bearer abc", verify) == NO_USER
    ensures CurrentUserId("Bearer", verify) == NO_USER
  {
    assert !StartsWith("Basic abc", BEARER_PREFIX) by { assert "Basic abc"[0] != 'B' || "Basic abc"[1] != 'e'; }
    assert !StartsWith("bearer abc", BEARER_PREFIX) by { assert "bearer abc"[0] == 'b'; }
  }
}
