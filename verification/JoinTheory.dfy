/** What the join completes, evicts and drops, over every interleaving of its inputs. */
module JoinTheory {
  import opened Wrappers
  import opened Keys
  import opened JoinModel

  // ---- The loop invariant ----

  function CountSome(vs: seq<Option<real>>): nat {
    if vs == [] then 0 else CountSome(vs[..|vs| - 1]) + (if vs[|vs| - 1].Some? then 1 else 0)
  }

  /** Every open bucket sits under its own key, counts its filled slots, is neither empty nor complete, and ends after
      the watermark; the cap holds. */
  ghost predicate Sound(n: nat, cap: Option<nat>, st: State) {
    && |st.maxEnd| == n
    && (forall k :: k in st.buckets ==> BucketSound(n, Least(st.maxEnd), k, st.buckets[k]))
    && (cap.Some? ==> |st.buckets| <= cap.value)
  }

  lemma {:induction false} CountFill(vs: seq<Option<real>>, i: nat, v: real)
    requires i < |vs|
    ensures CountSome(vs[i := Some(v)]) == CountSome(vs) + (if vs[i].None? then 1 else 0)
  {
    var n := |vs| - 1;
    if i < n {
      CountFill(vs[..n], i, v);
      assert vs[i := Some(v)][..n] == vs[..n][i := Some(v)];
    } else {
      assert vs[i := Some(v)][..n] == vs[..n];
    }
  }

  lemma {:induction false} CountBound(vs: seq<Option<real>>)
    ensures CountSome(vs) <= |vs|
    ensures CountSome(vs) == |vs| <==> forall i :: 0 <= i < |vs| ==> vs[i].Some?
    ensures CountSome(vs) == 0 <==> forall i :: 0 <= i < |vs| ==> vs[i].None?
  {
    if vs != [] {
      var n := |vs| - 1;
      CountBound(vs[..n]);
      assert vs == vs[..n] + [vs[n]];
    }
  }

  lemma {:induction false} LeastBound(s: seq<nat>)
    ensures forall i :: 0 <= i < |s| ==> Least(s) <= s[i]
    ensures s != [] ==> exists i :: 0 <= i < |s| && s[i] == Least(s)
  {
    if |s| > 1 {
      LeastBound(s[1..]);
      var j :| 0 <= j < |s[1..]| && s[1..][j] == Least(s[1..]);
      assert s[j + 1] == s[1..][j];
      assert forall i :: 1 <= i < |s| ==> s[i] == s[1..][i - 1];
      assert s[0] == Least(s) || s[j + 1] == Least(s);
    } else if |s| == 1 {
      assert s[0] == Least(s);
    }
  }

  lemma LeastGrows(s: seq<nat>, i: nat, x: nat)
    requires i < |s| && s[i] <= x
    ensures Least(s) <= Least(s[i := x])
  {
    LeastBound(s);
    LeastBound(s[i := x]);
  }

  /** A bucket that sits under its own key and counts its filled slots. */
  ghost predicate Counted(n: nat, k: Bytes, b: Bucket) {
    && k == BucketKeyBytes(b.start, b.end, b.labels)
    && |b.values| == n
    && b.filled == CountSome(b.values)
  }

  ghost predicate BucketSound(n: nat, watermark: nat, k: Bytes, b: Bucket) {
    Counted(n, k, b) && 0 < b.filled < n && watermark < b.end
  }

  /** Shape and counting of every bucket, in one. */
  ghost predicate Fillable(n: nat, buckets: Buckets) {
    forall k :: k in buckets ==> |buckets[k].values| == n && Counted(n, k, buckets[k]) && buckets[k].filled < n
  }

  lemma FilledCounted(n: nat, buckets: Buckets, m: Message)
    requires m.input < n && Fillable(n, buckets)
    ensures Counted(n, KeyOf(m.rec), Filled(n, buckets, m)) && 0 < Filled(n, buckets, m).filled <= n
  {
    CountBound(NoValues(n));
    var b := BucketFor(n, buckets, m.rec);
    assert Counted(n, KeyOf(m.rec), b);
    CountFill(b.values, m.input, m.rec.value);
    var after := b.values[m.input := Some(m.rec.value)];
    CountBound(after);
    assert after[m.input].Some?;
  }

  lemma StepSound(n: nat, cap: Option<nat>, t: Trace, m: Message)
    requires Shaped(n, t.st) && Sound(n, cap, t.st) && m.input < n
    ensures Sound(n, cap, Evict(Take(n, cap, t, m)).st)
  {
    hide Counted, Least, Take;
    StepCap(n, cap, t, m);
    TakeCounted(n, cap, t, m);
  }

  lemma TakeCounted(n: nat, cap: Option<nat>, t: Trace, m: Message)
    requires Shaped(n, t.st) && Sound(n, cap, t.st) && m.input < n
    ensures |Take(n, cap, t, m).st.maxEnd| == n
    ensures AllCounted(n, Take(n, cap, t, m).st.buckets)
  {
    hide Counted, KeyOf, Filled, Least, Refused;
    FilledCounted(n, t.st.buckets, m);
  }

  ghost predicate AllCounted(n: nat, buckets: Buckets) {
    forall k :: k in buckets ==> Counted(n, k, buckets[k]) && 0 < buckets[k].filled < n
  }

  lemma StepCap(n: nat, cap: Option<nat>, t: Trace, m: Message)
    requires Shaped(n, t.st) && m.input < n && (cap.Some? ==> |t.st.buckets| <= cap.value)
    ensures cap.Some? ==> |Evict(Take(n, cap, t, m)).st.buckets| <= cap.value
  {
    hide KeyOf, Filled, Least;
    var taken, after := Take(n, cap, t, m).st.buckets, Evict(Take(n, cap, t, m)).st.buckets;
    assert taken.Keys <= t.st.buckets.Keys + {KeyOf(m.rec)};
    if KeyOf(m.rec) in t.st.buckets { SmallerMap(taken, t.st.buckets); }
    SmallerMap(after, taken);
  }

  lemma SmallerMap(a: Buckets, b: Buckets)
    requires a.Keys <= b.Keys
    ensures |a| <= |b|
  {
    SubsetIsSmaller(a.Keys, b.Keys);
    assert |a| == |a.Keys| && |b| == |b.Keys|;
  }

  /** After every message, on every interleaving. */
  lemma {:induction false} LoopInvariant(n: nat, cap: Option<nat>, ms: seq<Message>)
    requires Tagged(n, ms)
    ensures Sound(n, cap, Feed(n, cap, ms).st)
  {
    hide Take, Evict, BucketSound;
    if ms == [] {
      assert Sound(n, cap, Start(n).st);
    } else {
      LoopInvariant(n, cap, ms[..|ms| - 1]);
      TakeKeepsShape(n, cap, Feed(n, cap, ms[..|ms| - 1]), ms[|ms| - 1]);
      StepSound(n, cap, Feed(n, cap, ms[..|ms| - 1]), ms[|ms| - 1]);
    }
  }

  // ---- Accounting ----

  ghost function AnyBucket(m: Buckets): Bytes
    requires m != map[]
    ensures AnyBucket(m) in m
  {
    assert m.Keys != {};
    var k :| k in m.Keys;
    k
  }

  /** The values held by these buckets. */
  ghost function Held(m: Buckets): nat
    decreases |m|
  {
    if m == map[] then 0
    else
      var k := AnyBucket(m);
      assert m.Keys == (m - {k}).Keys + {k};
      Held(m - {k}) + m[k].filled
  }

  lemma {:induction false} HeldTake(m: Buckets, k: Bytes)
    requires k in m
    ensures Held(m) == Held(m - {k}) + m[k].filled
    decreases |m|
  {
    var any := AnyBucket(m);
    if any != k {
      assert m.Keys == (m - {any}).Keys + {any} == (m - {k}).Keys + {k};
      HeldTake(m - {any}, k);
      HeldTake(m - {k}, any);
      assert m - {any} - {k} == m - {k} - {any};
    }
  }

  lemma {:induction false} HeldSplit(m: Buckets, gone: set<Bytes>)
    requires gone <= m.Keys
    ensures Held(m) == Held(m - gone) + Held(map k | k in gone :: m[k])
    decreases |gone|
  {
    var out := map k | k in gone :: m[k];
    if gone == {} {
      assert out == map[] && m - gone == m;
    } else {
      var k :| k in gone;
      HeldSplit(m, gone - {k});
      HeldTake(out, k);
      HeldTake(m - (gone - {k}), k);
      assert (m - (gone - {k})) - {k} == m - gone;
      assert out - {k} == map x | x in gone - {k} :: m[x];
    }
  }

  ghost function HeldEvicted(evicted: seq<Buckets>): nat {
    if evicted == [] then 0 else HeldEvicted(evicted[..|evicted| - 1]) + Held(evicted[|evicted| - 1])
  }

  lemma HeldFilled(n: nat, buckets: Buckets, m: Message)
    requires m.input < n && Fillable(n, buckets)
    ensures var (key, filled, b) := (KeyOf(m.rec), Filled(n, buckets, m), BucketFor(n, buckets, m.rec));
      var was := b.values[m.input];
      && Held(buckets) == Held(buckets - {key}) + b.filled
      && Held(buckets[key := filled]) == Held(buckets - {key}) + filled.filled
      && filled.filled + (if was.Some? then 1 else 0) == b.filled + 1
      && (filled.filled == n ==> was.None?)
  {
    hide Held, KeyOf, Counted;
    var key, filled := KeyOf(m.rec), Filled(n, buckets, m);
    FilledCounted(n, buckets, m);
    HeldTake(buckets[key := filled], key);
    assert buckets[key := filled] - {key} == buckets - {key};
    if key in buckets { HeldTake(buckets, key); } else { assert buckets - {key} == buckets; }
  }

  lemma TakeAccounts(n: nat, cap: Option<nat>, t: Trace, m: Message)
    requires Shaped(n, t.st) && Fillable(n, t.st.buckets) && m.input < n
    ensures var u := Take(n, cap, t, m);
      && u.evicted == t.evicted
      && u.capped + u.overwritten + n * |u.completed| + Held(u.st.buckets)
         == t.capped + t.overwritten + n * |t.completed| + Held(t.st.buckets) + 1
  {
    hide Held, Filled, KeyOf, Fillable, BucketFor, Refused;
    HeldFilled(n, t.st.buckets, m);
    assert n * (|t.completed| + 1) == n * |t.completed| + n;
  }

  /** The records add up: refused at the cap, replaced by a later value of their input, in completed buckets, evicted,
      or still held. */
  lemma {:induction false} EveryRecordAccounted(n: nat, cap: Option<nat>, ms: seq<Message>)
    requires Tagged(n, ms)
    ensures var t := Feed(n, cap, ms);
      |ms| == t.capped + t.overwritten + n * |t.completed| + HeldEvicted(t.evicted) + Held(t.st.buckets)
  {
    hide Take, Evict;
    if ms != [] {
      var before := Feed(n, cap, ms[..|ms| - 1]);
      var m := ms[|ms| - 1];
      EveryRecordAccounted(n, cap, ms[..|ms| - 1]);
      LoopInvariant(n, cap, ms[..|ms| - 1]);
      TakeKeepsShape(n, cap, before, m);
      TakeAccounts(n, cap, before, m);
      EvictAccounts(Take(n, cap, before, m));
    }
  }

  lemma EvictAccounts(t: Trace)
    ensures var u := Evict(t);
      && HeldEvicted(u.evicted) + Held(u.st.buckets) == HeldEvicted(t.evicted) + Held(t.st.buckets)
      && u.completed == t.completed && u.capped == t.capped && u.overwritten == t.overwritten
  {
    hide Held;
    var stale := StaleIn(t.st.buckets, Least(t.st.maxEnd));
    HeldSplit(t.st.buckets, stale.Keys);
    assert (map k | k in stale.Keys :: t.st.buckets[k]) == stale;
    assert Evict(t).evicted[..|t.evicted|] == t.evicted;
  }
}
