/**
 * Decimal rendering of integers (Python's str on int) and the names built
 * from it: utilities/naming.py's undirected_edge_name, together with the
 * parser that inverts them and therefore shows the names are unambiguous.
 */
module Naming {
  import opened Common

  predicate IsDigit(c: char) { '0' <= c <= '9' }

  predicate AllDigits(s: string) { forall i :: 0 <= i < |s| ==> IsDigit(s[i]) }

  function DigitChar(d: nat): (c: char)
    requires d < 10
    ensures IsDigit(c) && (c as int) - ('0' as int) == d
  {
    ['0', '1', '2', '3', '4', '5', '6', '7', '8', '9'][d]
  }

  function DigitValue(c: char): nat
    requires IsDigit(c)
  {
    (c as int) - ('0' as int)
  }

  /** str(n) for n >= 0: decimal digits, no leading zero. */
  function NatToString(n: nat): (s: string)
    ensures |s| >= 1 && AllDigits(s)
  {
    if n < 10 then [DigitChar(n)] else NatToString(n / 10) + [DigitChar(n % 10)]
  }

  function NatOfDigits(s: string): nat
    requires AllDigits(s)
  {
    if s == [] then 0 else NatOfDigits(s[..|s| - 1]) * 10 + DigitValue(s[|s| - 1])
  }

  lemma {:induction false} NatRoundTrip(n: nat)
    ensures NatOfDigits(NatToString(n)) == n
  {
    var s := NatToString(n);
    if n >= 10 {
      NatRoundTrip(n / 10);
      assert s[..|s| - 1] == NatToString(n / 10);
    }
  }

  /** str(i) for any integer: a minus sign before the digits of a negative number. */
  function IntToString(i: int): (s: string)
    ensures |s| >= 1 && (s[0] == '-' || IsDigit(s[0]))
    ensures s[0] == '-' <==> i < 0
    ensures forall k :: 0 <= k < |s| ==> s[k] == '-' || IsDigit(s[k])
  {
    if i < 0 then "-" + NatToString(-i) else NatToString(i)
  }

  /** int(s) for the strings IntToString produces; None for anything else. */
  function IntOfString(s: string): Option<int> {
    if |s| >= 2 && s[0] == '-' && AllDigits(s[1..]) then Some(0 - NatOfDigits(s[1..]))
    else if |s| >= 1 && AllDigits(s) then Some(NatOfDigits(s))
    else None
  }

  lemma IntRoundTrip(i: int)
    ensures IntOfString(IntToString(i)) == Some(i)
  {
    var s := IntToString(i);
    if i < 0 {
      var t := NatToString(-i);
      assert s == "-" + t && s[1..] == t;
      assert |s| >= 2 && s[0] == '-' && AllDigits(s[1..]);
      NatRoundTrip(-i);
    } else {
      assert s == NatToString(i) && AllDigits(s);
      assert IsDigit(s[0]);
      NatRoundTrip(i);
    }
  }

  lemma IntToStringInjective(a: int, b: int)
    ensures IntToString(a) == IntToString(b) <==> a == b
  {
    IntRoundTrip(a);
    IntRoundTrip(b);
  }

  /** "(" + a + sep + b + ")": the shape of every pair name in the source. */
  function PairName(a: string, sep: string, b: string): string {
    "(" + a + sep + b + ")"
  }

  /** Position of the first c in s, or |s| when there is none. */
  function IndexOf(s: string, c: char): (k: nat)
    ensures k <= |s|
    ensures k < |s| ==> s[k] == c
    ensures forall i :: 0 <= i < k ==> s[i] != c
  {
    if s == [] then 0 else if s[0] == c then 0 else 1 + IndexOf(s[1..], c)
  }

  /** Reads back the two integers of a name built by PairName, split at the first ','. */
  function ParsePair(s: string, sep: string): Option<(int, int)>
    requires |sep| >= 1 && sep[0] == ','
  {
    if |s| < 2 || s[0] != '(' || s[|s| - 1] != ')' then None
    else
      var body := s[1..|s| - 1];
      var k := IndexOf(body, ',');
      if k + |sep| > |body| || body[k..k + |sep|] != sep then None
      else match (IntOfString(body[..k]), IntOfString(body[k + |sep|..]))
        case (Some(a), Some(b)) => Some((a, b))
        case _ => None
  }

  lemma IndexOfAfterPrefix(a: string, rest: string, c: char)
    requires forall i :: 0 <= i < |a| ==> a[i] != c
    requires |rest| >= 1 && rest[0] == c
    ensures IndexOf(a + rest, c) == |a|
  {
    assert (a + rest)[|a|] == c;
    assert forall i :: 0 <= i < |a| ==> (a + rest)[i] == a[i];
  }

  lemma {:induction false} PairRoundTrip(a: int, sep: string, b: int)
    requires |sep| >= 1 && sep[0] == ','
    ensures ParsePair(PairName(IntToString(a), sep, IntToString(b)), sep) == Some((a, b))
  {
    var A, B := IntToString(a), IntToString(b);
    var s := PairName(A, sep, B);
    var body := s[1..|s| - 1];
    assert body == A + (sep + B);
    IndexOfAfterPrefix(A, sep + B, ',');
    var k := IndexOf(body, ',');
    assert k == |A|;
    assert body[..k] == A;
    assert body[k..k + |sep|] == sep;
    assert body[k + |sep|..] == B;
    IntRoundTrip(a);
    IntRoundTrip(b);
  }

  /**
   * undirected_edge_name: both endpoints as integers, smaller one first,
   * written "(u,v)".
   */
  function UndirectedEdgeName(u: int, v: int): string {
    if u > v then PairName(IntToString(v), ",", IntToString(u))
    else PairName(IntToString(u), ",", IntToString(v))
  }

  /** The name reads back as (smaller endpoint, larger endpoint). */
  lemma EdgeNameRoundTrip(u: int, v: int)
    ensures ParsePair(UndirectedEdgeName(u, v), ",") == Some((Min(u, v), Max(u, v)))
  {
    PairRoundTrip(Min(u, v), ",", Max(u, v));
  }

  lemma EdgeNameSymmetric(u: int, v: int)
    ensures UndirectedEdgeName(u, v) == UndirectedEdgeName(v, u)
  {
    EdgeNameRoundTrip(u, v);
  }

  /** Two edges get the same name exactly when they join the same two endpoints. */
  lemma EdgeNameInjective(a: int, b: int, c: int, d: int)
    ensures (UndirectedEdgeName(a, b) == UndirectedEdgeName(c, d))
            <==> ((Min(a, b), Max(a, b)) == (Min(c, d), Max(c, d)))
  {
    EdgeNameRoundTrip(a, b);
    EdgeNameRoundTrip(c, d);
  }
}
