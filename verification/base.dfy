/** Small shared vocabulary: optional values, HTTP replies, id allocation over
    finite maps, and the decimal rendering of identifiers. */
module Base {

  datatype Option<+T> = None | Some(value: T) {
    /** The value inside `Some`, or `default` (Python's `dict.get(key, default)`). */
    function GetOr(default: T): T {
      match this
      case Some(v) => v
      case None => default
    }
  }

  /** An HTTP reply: the status code and the `message` field of the JSON body. */
  datatype Response = Response(code: int, message: string)

  /** The reply Flask's `get_or_404` aborts with. */
  const NotFound := Response(404, "Not Found")

  lemma {:induction false} MaxExists(s: set<nat>)
    requires s != {}
    ensures exists m :: m in s && forall x :: x in s ==> x <= m
    decreases |s|
  {
    var y :| y in s;
    var rest := s - {y};
    if rest == {} {
      assert s == {y};
    } else {
      MaxExists(rest);
      var m :| m in rest && forall x :: x in rest ==> x <= m;
      var top := if y > m then y else m;
      assert top in s;
      forall x | x in s ensures x <= top {
        if x != y { assert x in rest; }
      }
    }
  }

  /** Some element of `s` is at most `k`, so a least one exists; the search
      walks `k` down instead of taking the set apart. */
  lemma {:induction false} MinBelow(s: set<nat>, k: nat)
    requires exists x :: x in s && x <= k
    ensures exists m :: m in s && forall x :: x in s ==> m <= x
    decreases k
  {
    if exists x :: x in s && x < k {
      MinBelow(s, k - 1);
    } else {
      var x :| x in s && x <= k;
      assert x == k;
    }
  }

  lemma MinExists(s: set<nat>)
    requires s != {}
    ensures exists m :: m in s && forall x :: x in s ==> m <= x
  {
    var y :| y in s;
    MinBelow(s, y);
  }

  /** The largest element of a non-empty finite set. */
  function MaxOf(s: set<nat>): (m: nat)
    requires s != {}
    ensures m in s && forall x :: x in s ==> x <= m
  {
    MaxExists(s);
    var m :| m in s && forall x :: x in s ==> x <= m; m
  }

  /** The least element of a non-empty finite set: the row a query's `.first()`
      returns when the table is scanned in primary-key order. */
  function MinOf(s: set<nat>): (m: nat)
    requires s != {}
    ensures m in s && forall x :: x in s ==> m <= x
  {
    MinExists(s);
    var m :| m in s && forall x :: x in s ==> m <= x; m
  }

  /** The primary key an auto-increment column hands to a new row: one past the
      largest key in use, starting at 1. */
  function FreshId<T>(m: map<nat, T>): (id: nat)
    ensures id !in m && id >= 1
    ensures forall k :: k in m ==> k < id
  {
    if m.Keys == {} then 1 else MaxOf(m.Keys) + 1
  }

  /** The keys of a table in primary-key order: the order an unordered query
      returns its rows in. */
  function AscendingKeys(s: set<nat>): (r: seq<nat>)
    ensures forall x :: x in s <==> x in r
    ensures forall i :: 0 <= i < |r| ==> r[i] in s
    ensures forall i, j :: 0 <= i < j < |r| ==> r[i] < r[j]
    decreases s
  {
    if s == {} then []
    else
      var m := MinOf(s);
      var rest := AscendingKeys(s - {m});
      var r := [m] + rest;
      assert forall i :: 1 <= i < |r| ==> r[i] == rest[i - 1];
      assert forall x :: x in r <==> x == m || x in rest;
      r
  }

  /** Position of the first occurrence of `x`: Python's `list.index` and `str.find`. */
  function FirstIndex<T(==)>(s: seq<T>, x: T): (i: nat)
    requires x in s
    ensures i < |s| && s[i] == x
    ensures forall j :: 0 <= j < i ==> s[j] != x
  {
    if s[0] == x then 0 else 1 + FirstIndex(s[1..], x)
  }

  predicate IsDigit(c: char) {
    '0' <= c <= '9'
  }

  function DigitChar(d: nat): (c: char)
    requires d < 10
    ensures IsDigit(c)
  {
    ['0', '1', '2', '3', '4', '5', '6', '7', '8', '9'][d]
  }

  function DigitValue(c: char): (d: nat)
    requires IsDigit(c)
    ensures d < 10
  {
    (c as int - '0' as int) as nat
  }

  /** Python's `str(n)` for a non-negative integer. */
  function Decimal(n: nat): (r: string)
    ensures |r| >= 1
    ensures forall i :: 0 <= i < |r| ==> IsDigit(r[i])
  {
    if n < 10 then [DigitChar(n)] else Decimal(n / 10) + [DigitChar(n % 10)]
  }

  /** Reads a run of decimal digits back as a number (the inverse of `Decimal`). */
  function ParseDecimal(s: string): (n: nat)
    requires forall i :: 0 <= i < |s| ==> IsDigit(s[i])
  {
    if |s| == 0 then 0 else ParseDecimal(s[..|s| - 1]) * 10 + DigitValue(s[|s| - 1])
  }

  lemma {:induction false} DigitRoundTrip(d: nat)
    requires d < 10
    ensures DigitValue(DigitChar(d)) == d
  {
    var digits := ['0', '1', '2', '3', '4', '5', '6', '7', '8', '9'];
    assert DigitChar(d) == digits[d];
  }

  /** Rendering an identifier in decimal loses nothing: it parses back. */
  lemma {:induction false} DecimalRoundTrip(n: nat)
    ensures ParseDecimal(Decimal(n)) == n
  {
    var s := Decimal(n);
    if n < 10 {
      DigitRoundTrip(n);
      assert s[..0] == [];
    } else {
      DecimalRoundTrip(n / 10);
      DigitRoundTrip(n % 10);
      assert s[..|s| - 1] == Decimal(n / 10);
    }
  }

  lemma DecimalInjective(a: nat, b: nat)
    ensures Decimal(a) == Decimal(b) ==> a == b
  {
    DecimalRoundTrip(a);
    DecimalRoundTrip(b);
  }
}
