/** Ordering of strings, sorting, and decimal numerals. */
module Strings {
  import opened Wrappers

  /** Lexicographic order. */
  predicate Less(a: string, b: string) {
    b != "" && (a == "" || a[0] < b[0] || (a[0] == b[0] && Less(a[1..], b[1..])))
  }

  /** a and b agree in their first k characters, and a ends there or has the smaller next one. */
  predicate SplitsAt(a: string, b: string, k: nat) {
    k <= |a| && k < |b| && a[..k] == b[..k] && (k == |a| || a[k] < b[k])
  }

  lemma {:induction false} SplitIsLess(a: string, b: string, k: nat)
    requires SplitsAt(a, b, k)
    ensures Less(a, b)
  {
    if k > 0 {
      assert a[0] == a[..k][0] == b[..k][0] == b[0];
      assert a[1..][..k - 1] == a[..k][1..] && b[1..][..k - 1] == b[..k][1..];
      SplitIsLess(a[1..], b[1..], k - 1);
    }
  }

  lemma {:induction false} LessSplits(a: string, b: string) returns (k: nat)
    requires Less(a, b)
    ensures SplitsAt(a, b, k)
  {
    k := 0;
    if a != "" && a[0] == b[0] {
      var m := LessSplits(a[1..], b[1..]);
      k := m + 1;
      assert a[..k] == [a[0]] + a[1..][..m] && b[..k] == [b[0]] + b[1..][..m];
    }
  }

  /** The first character that differs decides; a string comes before its extensions. */
  lemma {:induction false} LessIsLexicographic(a: string, b: string)
    ensures Less(a, b) <==> exists k :: SplitsAt(a, b, k)
  {
    if Less(a, b) {
      var k := LessSplits(a, b);
    }
    if k :| SplitsAt(a, b, k) {
      SplitIsLess(a, b, k);
    }
  }

  lemma {:induction false} LessTotal(a: string, b: string)
    ensures Less(a, b) || a == b || Less(b, a)
  {
    if a != "" && b != "" && a[0] == b[0] {
      LessTotal(a[1..], b[1..]);
      assert a == [a[0]] + a[1..] && b == [b[0]] + b[1..];
    }
  }

  lemma {:induction false} LessAsymmetric(a: string, b: string)
    requires Less(a, b)
    ensures !Less(b, a) && a != b
  {
    if a != "" && a[0] == b[0] {
      LessAsymmetric(a[1..], b[1..]);
    }
  }

  lemma {:induction false} LessTransitive(a: string, b: string, c: string)
    requires Less(a, b) && Less(b, c)
    ensures Less(a, c)
  {
    if a != "" && a[0] == b[0] == c[0] {
      LessTransitive(a[1..], b[1..], c[1..]);
    }
  }

  predicate AtMost(a: string, b: string) {
    a == b || Less(a, b)
  }

  lemma AtMostTransitive(a: string, b: string, c: string)
    requires AtMost(a, b) && AtMost(b, c)
    ensures AtMost(a, c)
  {
    if a != b && b != c {
      LessTransitive(a, b, c);
    }
  }

  // ----- Sorting -----

  ghost predicate Preorder<T(!new)>(le: (T, T) -> bool) {
    && (forall x, y :: le(x, y) || le(y, x))
    && (forall x, y, z :: le(x, y) && le(y, z) ==> le(x, z))
  }

  ghost predicate SortedBy<T(!new)>(le: (T, T) -> bool, q: seq<T>) {
    forall i, j :: 0 <= i < j < |q| ==> le(q[i], q[j])
  }

  /** Stands for the library's sort: some rearrangement in order.  Elements that compare equal may come
      out in any order. */
  method Sort<T(!new, ==)>(q: seq<T>, le: (T, T) -> bool) returns (r: seq<T>)
    requires Preorder(le)
    ensures SortedBy(le, r) && multiset(r) == multiset(q)
  {
    r := [];
    for i := 0 to |q|
      invariant SortedBy(le, r) && multiset(r) == multiset(q[..i])
    {
      assert q[..i + 1] == q[..i] + [q[i]];
      r := Insert(r, q[i], le);
    }
    assert q[..|q|] == q;
  }

  method Insert<T(!new, ==)>(r: seq<T>, x: T, le: (T, T) -> bool) returns (s: seq<T>)
    requires Preorder(le) && SortedBy(le, r)
    ensures SortedBy(le, s) && multiset(s) == multiset(r) + multiset{x}
  {
    var i := 0;
    while i < |r| && le(r[i], x)
      invariant 0 <= i <= |r|
      invariant forall k :: 0 <= k < i ==> le(r[k], x)
    {
      i := i + 1;
    }
    assert i < |r| ==> le(x, r[i]);
    s := r[..i] + [x] + r[i..];
    assert r == r[..i] + r[i..];
    MultisetAround(r[..i], x, r[i..]);
    InsertSorted(r, x, i, le);
  }

  lemma InsertSorted<T(!new)>(r: seq<T>, x: T, i: nat, le: (T, T) -> bool)
    requires Preorder(le) && SortedBy(le, r) && i <= |r|
    requires forall k :: 0 <= k < i ==> le(r[k], x)
    requires i < |r| ==> le(x, r[i])
    ensures SortedBy(le, r[..i] + [x] + r[i..])
  {
    var s := r[..i] + [x] + r[i..];
    forall k | i <= k < |r| ensures le(x, r[k]) {
      assert k > i ==> le(r[i], r[k]);
    }
    forall j, k | 0 <= j < k < |s| ensures le(s[j], s[k]) {
      assert s[j] == if j < i then r[j] else if j == i then x else r[j - 1];
      assert s[k] == if k < i then r[k] else if k == i then x else r[k - 1];
    }
  }

  lemma AtMostPreorder()
    ensures Preorder(AtMost)
  {
    forall x, y ensures AtMost(x, y) || AtMost(y, x) {
      LessTotal(x, y);
    }
    forall x, y, z | AtMost(x, y) && AtMost(y, z) ensures AtMost(x, z) {
      AtMostTransitive(x, y, z);
    }
  }

  // ----- The sorted listing of a set -----

  predicate IsLeast(k: string, s: set<string>) {
    k in s && forall j :: j in s ==> AtMost(k, j)
  }

  lemma {:induction false} LeastExists(s: set<string>)
    requires s != {}
    ensures exists k :: IsLeast(k, s)
  {
    var x :| x in s;
    if s == {x} {
      assert IsLeast(x, s);
    } else {
      LeastExists(s - {x});
      var y :| IsLeast(y, s - {x});
      LessTotal(x, y);
      var k := if Less(x, y) then x else y;
      forall j | j in s ensures AtMost(k, j) {
        if j != x {
          AtMostTransitive(k, y, j);
        }
      }
      assert IsLeast(k, s);
    }
  }

  lemma LeastUnique(k: string, l: string, s: set<string>)
    requires IsLeast(k, s) && IsLeast(l, s)
    ensures k == l
  {
    if k != l {
      LessAsymmetric(k, l);
    }
  }

  function Least(s: set<string>): (k: string)
    requires s != {}
    ensures IsLeast(k, s)
  {
    LeastExists(s);
    assert forall k, l :: IsLeast(k, s) && IsLeast(l, s) ==> k == l by {
      forall k, l | IsLeast(k, s) && IsLeast(l, s) ensures k == l {
        LeastUnique(k, l, s);
      }
    }
    var k :| k in s && IsLeast(k, s);
    k
  }

  function Listing(s: set<string>): seq<string> {
    if s == {} then [] else var k := Least(s); [k] + Listing(s - {k})
  }

  /** Sorting the keys of a map gives the same sequence whatever the order they were collected in. */
  lemma {:induction false} SortedListingIsUnique(q: seq<string>, s: set<string>)
    requires SortedBy(AtMost, q) && Lists(q, s)
    ensures q == Listing(s)
    decreases |q|
  {
    if q == [] {
      ListsNothing(q, s);
    } else {
      assert q[0] in s;
      var k := Least(s);
      assert k in q;
      assert IsLeast(q[0], s) by {
        forall j | j in s ensures AtMost(q[0], j) {
          assert j in q;
        }
      }
      LeastUnique(q[0], k, s);
      var rest := q[1..];
      assert q == [q[0]] + rest;
      forall x | x in rest ensures x in s - {k} {
        var j :| 0 <= j < |rest| && rest[j] == x;
        assert q[j + 1] == x;
      }
      forall x | x in s - {k} ensures x in rest {
        var j :| 0 <= j < |q| && q[j] == x;
        assert rest[j - 1] == x;
      }
      SortedListingIsUnique(rest, s - {k});
    }
  }

  lemma {:induction false} ListingLists(s: set<string>)
    ensures forall x :: x in Listing(s) <==> x in s
  {
    if s != {} {
      ListingLists(s - {Least(s)});
    }
  }

  // ----- Decimal numerals -----

  function Digit(d: int): char
    requires 0 <= d < 10
  {
    '0' + d as char
  }

  function Digits(n: nat): string {
    if n < 10 then [Digit(n)] else Digits(n / 10) + [Digit(n % 10)]
  }

  function Decimal(n: int): string {
    if n < 0 then "-" + Digits(-n) else Digits(n)
  }

  predicate Numeral(s: string) {
    forall i :: 0 <= i < |s| ==> '0' <= s[i] <= '9'
  }

  function ValueOf(s: string): int
    requires Numeral(s)
  {
    if s == "" then 0 else ValueOf(s[..|s| - 1]) * 10 + (s[|s| - 1] as int - '0' as int)
  }

  lemma {:induction false} DigitsValue(n: nat)
    ensures Digits(n) != "" && Numeral(Digits(n)) && ValueOf(Digits(n)) == n
  {
    if n < 10 {
      assert Digits(n) == [Digit(n)] && Digits(n)[..0] == "";
    } else {
      DigitsValue(n / 10);
      var s := Digits(n / 10) + [Digit(n % 10)];
      assert s[..|s| - 1] == Digits(n / 10);
    }
  }

  lemma DecimalInjective(m: int, n: int)
    requires Decimal(m) == Decimal(n)
    ensures m == n
  {
    var a, b := if m < 0 then -m else m, if n < 0 then -n else n;
    DigitsValue(a);
    DigitsValue(b);
    assert Digits(a)[0] != '-' && Digits(b)[0] != '-';
    assert m < 0 <==> Decimal(m)[0] == '-';
    assert n < 0 <==> Decimal(n)[0] == '-';
    if m < 0 {
      assert Decimal(m)[1..] == Digits(a) && Decimal(n)[1..] == Digits(b);
    }
  }
}
