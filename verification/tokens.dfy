/** Bearer headers and what decoding a JSON Web Token can yield. Signing,
    signature checking and the clock stay outside the model: a decoder is a
    function parameter that returns one of the outcomes below. */
module Tokens {
  import opened Base

  /** What `jwt.decode` does with a token: return its payload, or raise
      `ExpiredSignatureError` or another `InvalidTokenError`. A payload is
      described by the two claims the handlers read (None when the key is
      missing) and whether it carries any other claim. */
  datatype Decoded =
    | Valid(userId: Option<nat>, role: Option<string>, otherClaims: bool)
    | Expired
    | Invalid

  /** Python's truth value of the payload dictionary: false only when empty. */
  predicate NonEmptyPayload(d: Decoded)
    requires d.Valid?
  {
    d.userId.Some? || d.role.Some? || d.otherClaims
  }

  /** `' '.join(parts)`. */
  function Join(parts: seq<string>): string {
    if parts == [] then ""
    else if |parts| == 1 then parts[0]
    else parts[0] + " " + Join(parts[1..])
  }

  /** Python's `s.split(' ')`: the pieces between single spaces, kept even
      when empty. */
  function Split(s: string): (r: seq<string>)
    ensures |r| >= 1
    ensures |r| == 1 <==> ' ' !in s
    ensures forall i :: 0 <= i < |r| ==> ' ' !in r[i]
    ensures Join(r) == s
    decreases |s|
  {
    if ' ' !in s then [s]
    else
      var i := FirstIndex(s, ' ');
      var rest := Split(s[i + 1..]);
      var r := [s[..i]] + rest;
      assert r[0] == s[..i] && r[1..] == rest;
      assert Join(r) == s[..i] + " " + Join(rest);
      SplitAround(s, i);
      assert forall k :: 1 <= k < |r| ==> r[k] == rest[k - 1];
      r
  }

  /** A string is the part before a space, the space, and the part after. */
  lemma SplitAround(s: string, i: nat)
    requires i < |s| && s[i] == ' '
    ensures s == s[..i] + " " + s[i + 1..]
  {
    assert s[..i] + " " + s[i + 1..] == s[..i] + s[i..];
  }

  /** The first space of `a + " " + b` is the one between them when `a` has none. */
  lemma FirstSpaceAfter(a: string, b: string)
    requires ' ' !in a
    ensures ' ' in a + " " + b
    ensures FirstIndex(a + " " + b, ' ') == |a|
  {
    var s := a + " " + b;
    assert s[|a|] == ' ';
  }

  /** Splitting at a space-free head peels that head off. */
  lemma SplitCons(a: string, b: string)
    requires ' ' !in a
    ensures Split(a + " " + b) == [a] + Split(b)
  {
    var s := a + " " + b;
    FirstSpaceAfter(a, b);
    assert s[..|a|] == a;
    assert s[|a| + 1..] == b;
  }

  /** Splitting undoes joining pieces that contain no space. */
  lemma {:induction false} SplitJoin(parts: seq<string>)
    requires |parts| >= 1
    requires forall i :: 0 <= i < |parts| ==> ' ' !in parts[i]
    ensures Split(Join(parts)) == parts
  {
    if |parts| > 1 {
      var head, tail := parts[0], parts[1..];
      forall i | 0 <= i < |tail| ensures ' ' !in tail[i] {
        assert tail[i] == parts[i + 1];
      }
      SplitJoin(tail);
      assert Join(parts) == head + " " + Join(tail);
      SplitCons(head, Join(tail));
      assert parts == [head] + tail;
    }
  }

  /** `auth_header.split(' ')[1]`: None where the index raises `IndexError`. */
  function SecondField(header: string): (r: Option<string>)
    ensures r.None? <==> ' ' !in header
    ensures r.Some? ==> ' ' !in r.value
  {
    var parts := Split(header);
    if |parts| < 2 then None else Some(parts[1])
  }

  /** A `Bearer <token>` header yields the token, provided the token has no
      space (encoded JSON Web Tokens never do). */
  lemma BearerToken(token: string)
    requires ' ' !in token
    ensures SecondField("Bearer " + token) == Some(token)
  {
    assert ' ' !in "Bearer";
    SplitJoin(["Bearer", token]);
    assert Join(["Bearer", token]) == "Bearer " + token;
  }
}
