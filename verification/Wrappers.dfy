/** Results and optional values shared by the other modules. */
module Wrappers {
  datatype Option<+T> = None | Some(value: T)

  datatype Result<+T, +E> = Ok(value: T) | Err(error: E)

  /** A sequence that lists the set `s`, each element once, in some order. */
  ghost predicate Lists<T(!new)>(q: seq<T>, s: set<T>) {
    && (forall i, j :: 0 <= i < j < |q| ==> q[i] != q[j])
    && (forall x :: x in q <==> x in s)
  }

  lemma ListsAppend<T(!new)>(q: seq<T>, s: set<T>, x: T)
    requires Lists(q, s) && x !in s
    ensures Lists(q + [x], s + {x})
  {
    forall y ensures y in q + [x] <==> y in s + {x} {
      assert y in q + [x] <==> y in q || y == x;
    }
  }

  lemma ListsNothing<T(!new)>(q: seq<T>, s: set<T>)
    requires Lists(q, s)
    ensures q == [] <==> s == {}
  {
    assert q != [] ==> q[0] in q;
  }

  /** Two listings of one set differ only in their order. */
  lemma {:induction false} ListsSameMultiset<T(!new)>(q: seq<T>, r: seq<T>, s: set<T>)
    requires Lists(q, s) && Lists(r, s)
    ensures multiset(q) == multiset(r)
  {
    forall x: T ensures multiset(q)[x] == multiset(r)[x] {
      ListsCount(q, s, x);
      ListsCount(r, s, x);
    }
  }

  lemma {:induction false} ListsCount<T(!new)>(q: seq<T>, s: set<T>, x: T)
    requires Lists(q, s)
    ensures multiset(q)[x] == if x in s then 1 else 0
    decreases |q|
  {
    if q == [] {
    } else {
      var n := |q| - 1;
      assert q == q[..n] + [q[n]];
      assert Lists(q[..n], s - {q[n]}) by {
        forall y ensures y in q[..n] <==> y in s - {q[n]} {
          if y in s - {q[n]} {
            var i :| 0 <= i < |q| && q[i] == y;
            assert q[..n][i] == y;
          }
        }
      }
      ListsCount(q[..n], s - {q[n]}, x);
    }
  }

  lemma MultisetAround<T>(a: seq<T>, x: T, b: seq<T>)
    ensures multiset(a + [x] + b) == multiset(a + b) + multiset{x}
  {
    assert multiset(a + [x] + b) == multiset(a) + multiset{x} + multiset(b);
    assert multiset(a + b) == multiset(a) + multiset(b);
  }

  /** A rearranged listing lists the same set. */
  lemma ListsRearranged<T(!new)>(q: seq<T>, r: seq<T>, s: set<T>)
    requires Lists(q, s) && multiset(r) == multiset(q)
    ensures Lists(r, s)
  {
    forall x ensures x in r <==> x in s {
      assert x in r <==> x in multiset(r);
      assert x in q <==> x in multiset(q);
    }
    forall i, j | 0 <= i < j < |r| ensures r[i] != r[j] {
      ListsCount(q, s, r[i]);
      assert r == r[..i] + [r[i]] + r[i + 1..j] + [r[j]] + r[j + 1..];
    }
  }

  lemma ListsWithout<T(!new)>(q: seq<T>, s: set<T>, i: nat)
    requires Lists(q, s) && i < |q|
    ensures Lists(q[..i] + q[i + 1..], s - {q[i]})
  {
    var r := q[..i] + q[i + 1..];
    forall x | x in r ensures x in s - {q[i]} {
      var j :| 0 <= j < |r| && r[j] == x;
      assert x == q[if j < i then j else j + 1];
    }
    forall x | x in s - {q[i]} ensures x in r {
      var j :| 0 <= j < |q| && q[j] == x;
      assert r[if j < i then j else j - 1] == x;
    }
  }
}
