/** The iteration order of an ordered map: its keys listed strictly ascending. */
module Ordered {
  ghost predicate TotalOrder<T(!new)>(le: (T, T) -> bool) {
    && (forall x :: le(x, x))
    && (forall x, y :: le(x, y) && le(y, x) ==> x == y)
    && (forall x, y, z :: le(x, y) && le(y, z) ==> le(x, z))
    && (forall x, y :: le(x, y) || le(y, x))
  }

  predicate StrictlyAscending<T(==)>(s: seq<T>, le: (T, T) -> bool) {
    forall i, j :: 0 <= i < j < |s| ==> le(s[i], s[j]) && s[i] != s[j]
  }

  lemma {:induction false} Least<T(!new)>(s: set<T>, le: (T, T) -> bool) returns (m: T)
    requires TotalOrder(le) && s != {}
    ensures m in s && forall x :: x in s ==> le(m, x)
    decreases s
  {
    m :| m in s;
    if s != {m} {
      var b := Least(s - {m}, le);
      if le(b, m) {
        m := b;
      } else {
        forall x | x in s ensures le(m, x) {
          assert x == m || le(b, x);
        }
      }
    }
  }

  /** The elements of `s`, each once, in ascending order. */
  function Ascending<T(!new, ==)>(s: set<T>, le: (T, T) -> bool): (r: seq<T>)
    requires TotalOrder(le)
    ensures StrictlyAscending(r, le)
    ensures forall x :: x in r <==> x in s
    decreases s
  {
    if s == {} then []
    else
      assert exists m :: m in s && forall x :: x in s ==> le(m, x) by { var m := Least(s, le); }
      var m :| m in s && forall x :: x in s ==> le(m, x);
      [m] + Ascending(s - {m}, le)
  }

  /** An ascending listing is determined by the set it lists. */
  lemma {:induction false} AscendingUnique<T(!new)>(a: seq<T>, b: seq<T>, le: (T, T) -> bool)
    requires TotalOrder(le) && StrictlyAscending(a, le) && StrictlyAscending(b, le)
    requires forall x :: x in a <==> x in b
    ensures a == b
    decreases |a|
  {
    if a == [] {
      assert forall x :: x !in b;
    } else {
      assert a[0] in b && b[0] in a;
      assert le(b[0], a[0]) && le(a[0], b[0]);
      forall x ensures x in a[1..] <==> x in b[1..] {
        assert x in a <==> x == a[0] || x in a[1..];
        assert x in b <==> x == b[0] || x in b[1..];
        assert a[0] !in a[1..] && b[0] !in b[1..];
      }
      AscendingUnique(a[1..], b[1..], le);
    }
  }

  lemma RemoveAt<T>(s: seq<T>, i: nat)
    requires i < |s|
    ensures multiset(s) == multiset(s[..i] + s[i + 1..]) + multiset{s[i]}
  {
    assert s == s[..i] + [s[i]] + s[i + 1..];
  }

  /** Two listings of one multiset: the last element of the first can be taken out of the second. */
  lemma TakeOut<T>(a: seq<T>, b: seq<T>) returns (i: nat)
    requires a != [] && multiset(a) == multiset(b)
    ensures i < |b| && b[i] == a[|a| - 1]
    ensures b == b[..i] + [b[i]] + b[i + 1..]
    ensures multiset(a[..|a| - 1]) == multiset(b[..i] + b[i + 1..])
  {
    var n := |a| - 1;
    RemoveAt(a, n);
    assert a[..n] + a[n + 1..] == a[..n];
    assert a[n] in multiset(b);
    i :| 0 <= i < |b| && b[i] == a[n];
    RemoveAt(b, i);
    assert multiset(a[..n]) == multiset(a) - multiset{a[n]};
  }
}
