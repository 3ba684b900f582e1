/** Which aligned groups the join completes: an exact condition, over every interleaving. */
module JoinCompletes {
  import opened Wrappers
  import opened Numbers
  import opened Records
  import opened Keys
  import opened JoinModel
  import opened JoinTheory

  ghost predicate Sent(ms: seq<Message>, i: nat, k: Bytes) {
    exists j :: 0 <= j < |ms| && ms[j].input == i && KeyOf(ms[j].rec) == k
  }

  /** The newest value input `i` has sent for group `k`. */
  function LastValue(ms: seq<Message>, i: nat, k: Bytes): Option<real> {
    if ms == [] then None
    else
      var m := ms[|ms| - 1];
      if m.input == i && KeyOf(m.rec) == k then Some(m.rec.value) else LastValue(ms[..|ms| - 1], i, k)
  }

  /** The newest window end input `i` has sent. */
  function NewestEnd(ms: seq<Message>, i: nat): nat {
    if ms == [] then 0
    else
      var m := ms[|ms| - 1];
      var before := NewestEnd(ms[..|ms| - 1], i);
      if m.input == i then Later(before, m.rec.ts) else before
  }

  /** No input sends two records for one window and label set. */
  ghost predicate NoRepeats(ms: seq<Message>) {
    forall a, b :: 0 <= a < b < |ms| && ms[a].input == ms[b].input ==> KeyOf(ms[a].rec) != KeyOf(ms[b].rec)
  }

  /** Message `q` is the last its group waits for, and it is its input's first to reach that window's end. */
  ghost predicate Completes(n: nat, ms: seq<Message>, q: nat)
    requires q < |ms|
  {
    && (forall j :: 0 <= j < n && j != ms[q].input ==> Sent(ms[..q], j, KeyOf(ms[q].rec)))
    && NewestEnd(ms[..q], ms[q].input) < ms[q].rec.ts
  }

  lemma SameKey(a: Record, b: Record)
    requires KeyOf(a) == KeyOf(b)
    ensures StartOf(a) == StartOf(b) && a.ts == b.ts && a.attrs == b.attrs
  {
    BucketKeyInjective(StartOf(a), a.ts, a.attrs, StartOf(b), b.ts, b.attrs);
  }

  lemma SentSnoc(ms: seq<Message>, m: Message, i: nat, k: Bytes)
    ensures Sent(ms + [m], i, k) <==> Sent(ms, i, k) || (m.input == i && KeyOf(m.rec) == k)
  {
    hide KeyOf;
    assert (ms + [m])[|ms|] == m;
    if Sent(ms, i, k) {
      var j :| 0 <= j < |ms| && ms[j].input == i && KeyOf(ms[j].rec) == k;
      assert (ms + [m])[j] == ms[j];
    }
  }

  lemma LastValueSnoc(ms: seq<Message>, m: Message, i: nat, k: Bytes)
    ensures LastValue(ms + [m], i, k)
         == if m.input == i && KeyOf(m.rec) == k then Some(m.rec.value) else LastValue(ms, i, k)
  {
    hide KeyOf;
    assert (ms + [m])[..|ms|] == ms;
  }

  lemma {:induction false} SentIffValue(ms: seq<Message>, i: nat, k: Bytes)
    ensures Sent(ms, i, k) <==> LastValue(ms, i, k).Some?
  {
    hide KeyOf, Sent, LastValue;
    if ms == [] {
      NothingSent(i, k);
    } else {
      var n := |ms| - 1;
      assert ms == ms[..n] + [ms[n]];
      SentIffValue(ms[..n], i, k);
      SentSnoc(ms[..n], ms[n], i, k);
      LastValueSnoc(ms[..n], ms[n], i, k);
    }
  }

  /** The message that brought the newest value an input has sent for a group. */
  lemma {:induction false} LastValueFrom(ms: seq<Message>, i: nat, k: Bytes) returns (j: nat)
    requires LastValue(ms, i, k).Some?
    ensures j < |ms| && ms[j].input == i && KeyOf(ms[j].rec) == k && LastValue(ms, i, k) == Some(ms[j].rec.value)
  {
    hide KeyOf;
    j := |ms| - 1;
    if ms[j].input != i || KeyOf(ms[j].rec) != k {
      j := LastValueFrom(ms[..j], i, k);
    }
  }

  lemma NothingSent(i: nat, k: Bytes)
    ensures !Sent([], i, k) && LastValue([], i, k) == None
  {
  }

  lemma {:induction false} NewestEndReached(ms: seq<Message>, j: nat)
    requires j < |ms|
    ensures ms[j].rec.ts <= NewestEnd(ms, ms[j].input)
  {
    if j < |ms| - 1 { NewestEndReached(ms[..|ms| - 1], j); }
  }

  // ---- What the open buckets know of the messages so far ----

  /** A group is open exactly while some input has sent it and the watermark has not reached its end; its bucket
      holds the newest values sent for it. */
  ghost predicate Tracks(n: nat, ms: seq<Message>, buckets: Buckets, watermark: nat) {
    && (forall k :: k in buckets ==> HoldsSent(n, ms, k, buckets[k]))
    && (forall j :: 0 <= j < |ms| ==> (KeyOf(ms[j].rec) in buckets <==> watermark < ms[j].rec.ts))
  }

  /** The bucket of group `k` holds the newest value each input has sent for it, at least one. */
  ghost predicate HoldsSent(n: nat, ms: seq<Message>, k: Bytes, b: Bucket) {
    && |b.values| == n
    && Counted(n, k, b)
    && AnySent(n, ms, k)
    && (forall i :: 0 <= i < n ==> b.values[i] == LastValue(ms, i, k))
  }

  /** What a step without a cap does to the buckets. */
  lemma StepBuckets(n: nat, t: Trace, m: Message)
    requires Shaped(n, t.st) && m.input < n
    ensures var (u, key, f) := (Evict(Take(n, None, t, m)), KeyOf(m.rec), Filled(n, t.st.buckets, m));
      var wm := Least(u.st.maxEnd);
      && u.st.maxEnd == t.st.maxEnd[m.input := Later(t.st.maxEnd[m.input], m.rec.ts)]
      && (forall k :: k in u.st.buckets <==>
            if k == key then f.filled != n && wm < f.end else k in t.st.buckets && wm < t.st.buckets[k].end)
      && (forall k :: k in u.st.buckets ==> u.st.buckets[k] == if k == key then f else t.st.buckets[k])
      && u.completed == t.completed + (if f.filled == n then [f] else [])
  {
    hide KeyOf, Filled, Least;
  }

  /** What the state knows of the messages so far. */
  ghost predicate Knows(n: nat, ms: seq<Message>, st: State) {
    && |st.maxEnd| == n
    && (forall i :: 0 <= i < n ==> st.maxEnd[i] == NewestEnd(ms, i))
    && Tracks(n, ms, st.buckets, Least(st.maxEnd))
  }

  ghost predicate AnySent(n: nat, ms: seq<Message>, k: Bytes) {
    exists i :: 0 <= i < n && Sent(ms, i, k)
  }

  ghost predicate AllSent(n: nat, ms: seq<Message>, k: Bytes) {
    forall i :: 0 <= i < n ==> Sent(ms, i, k)
  }

  /** When every input has sent a group, every input has reached its end. */
  lemma AllSentReached(n: nat, ms: seq<Message>, maxEnd: seq<nat>, rec: Record)
    requires n > 0 && |maxEnd| == n && forall i :: 0 <= i < n ==> maxEnd[i] == NewestEnd(ms, i)
    requires AllSent(n, ms, KeyOf(rec))
    ensures rec.ts <= Least(maxEnd)
  {
    LeastBound(maxEnd);
    var i :| 0 <= i < n && maxEnd[i] == Least(maxEnd);
    assert Sent(ms, i, KeyOf(rec));
    var j :| 0 <= j < |ms| && ms[j].input == i && KeyOf(ms[j].rec) == KeyOf(rec);
    SameKey(ms[j].rec, rec);
    NewestEndReached(ms, j);
  }

  /** A group some input has sent is open, unless the watermark has reached its end. */
  lemma SentIsOpen(n: nat, ms: seq<Message>, buckets: Buckets, watermark: nat, rec: Record)
    requires Tracks(n, ms, buckets, watermark) && AnySent(n, ms, KeyOf(rec))
    ensures KeyOf(rec) in buckets <==> watermark < rec.ts
  {
    var i :| 0 <= i < n && Sent(ms, i, KeyOf(rec));
    var j :| 0 <= j < |ms| && ms[j].input == i && KeyOf(ms[j].rec) == KeyOf(rec);
    SameKey(ms[j].rec, rec);
  }

  lemma OpenEnds(n: nat, ms: seq<Message>, buckets: Buckets, watermark: nat, rec: Record)
    requires Tracks(n, ms, buckets, watermark) && KeyOf(rec) in buckets
    ensures var b := buckets[KeyOf(rec)]; b.start == StartOf(rec) && b.end == rec.ts && b.labels == rec.attrs
  {
    var b := buckets[KeyOf(rec)];
    BucketKeyInjective(StartOf(rec), rec.ts, rec.attrs, b.start, b.end, b.labels);
  }

  /** The bucket a message lands in: its own value and, if the group was open or new, every value sent before. */
  lemma FilledTracks(n: nat, ms: seq<Message>, buckets: Buckets, watermark: nat, m: Message)
    requires Tracks(n, ms, buckets, watermark) && m.input < n
    requires forall k :: k in buckets ==> |buckets[k].values| == n
    ensures var (key, f) := (KeyOf(m.rec), Filled(n, buckets, m));
      && Counted(n, key, f) && f.start == StartOf(m.rec) && f.end == m.rec.ts && f.labels == m.rec.attrs
      && (key !in buckets ==> f.filled == 1)
      && (key in buckets || !AnySent(n, ms, key) ==> HoldsSent(n, ms + [m], key, f))
  {
    hide Counted, KeyOf;
    var key, f := KeyOf(m.rec), Filled(n, buckets, m);
    FilledCountedAny(n, buckets, m);
    if key in buckets { OpenEnds(n, ms, buckets, watermark, m.rec); }
    if key in buckets || !AnySent(n, ms, key) {
      forall i | 0 <= i < n ensures f.values[i] == LastValue(ms + [m], i, key) {
        LastValueSnoc(ms, m, i, key);
        SentIffValue(ms, i, key);
      }
      SentSnoc(ms, m, m.input, key);
    }
  }

  lemma FilledCountedAny(n: nat, buckets: Buckets, m: Message)
    requires m.input < n && forall k :: k in buckets ==> |buckets[k].values| == n && Counted(n, k, buckets[k])
    ensures Counted(n, KeyOf(m.rec), Filled(n, buckets, m))
    ensures KeyOf(m.rec) !in buckets ==> Filled(n, buckets, m).filled == 1
  {
    CountBound(NoValues(n));
    var b := BucketFor(n, buckets, m.rec);
    CountFill(b.values, m.input, m.rec.value);
  }

  /** Whether the message completes its group, with two inputs or more. */
  lemma CompletesNow(n: nat, ms: seq<Message>, st: State, m: Message)
    requires n >= 2 && Knows(n, ms, st) && m.input < n
    requires forall k :: k in st.buckets ==> |st.buckets[k].values| == n
    ensures Filled(n, st.buckets, m).filled == n <==> Completes(n, ms + [m], |ms|)
    ensures Filled(n, st.buckets, m).filled == n ==> AllSent(n, ms + [m], KeyOf(m.rec))
  {
    hide KeyOf, Counted, Least;
    var key, f := KeyOf(m.rec), Filled(n, st.buckets, m);
    FilledTracks(n, ms, st.buckets, Least(st.maxEnd), m);
    assert (ms + [m])[..|ms|] == ms;
    FullIffAllSome(n, key, f);
    forall i | 0 <= i < n
      ensures Sent(ms + [m], i, key) <==> Sent(ms, i, key) || i == m.input
      ensures Sent(ms + [m], i, key) <==> LastValue(ms + [m], i, key).Some?
    {
      SentSnoc(ms, m, i, key);
      SentIffValue(ms + [m], i, key);
    }
    var other := if m.input == 0 then 1 else 0;
    if forall j :: 0 <= j < n && j != m.input ==> Sent(ms, j, key) {
      assert AnySent(n, ms, key) by { assert Sent(ms, other, key); }
      SentIsOpen(n, ms, st.buckets, Least(st.maxEnd), m.rec);
      OthersReached(n, ms, st.maxEnd, m);
    } else if key !in st.buckets {
      assert f.filled == 1;
    }
  }

  lemma FullIffAllSome(n: nat, k: Bytes, f: Bucket)
    requires Counted(n, k, f)
    ensures f.filled == n <==> forall i :: 0 <= i < n ==> f.values[i].Some?
  {
    CountBound(f.values);
  }

  /** When every other input has sent the group, the watermark waits for this input alone. */
  lemma OthersReached(n: nat, ms: seq<Message>, maxEnd: seq<nat>, m: Message)
    requires m.input < n && |maxEnd| == n && forall i :: 0 <= i < n ==> maxEnd[i] == NewestEnd(ms, i)
    requires forall j :: 0 <= j < n && j != m.input ==> Sent(ms, j, KeyOf(m.rec))
    ensures Least(maxEnd) < m.rec.ts <==> NewestEnd(ms, m.input) < m.rec.ts
  {
    hide KeyOf, Least;
    LeastBound(maxEnd);
    forall i | 0 <= i < n && i != m.input ensures m.rec.ts <= maxEnd[i] {
      assert Sent(ms, i, KeyOf(m.rec));
      var j :| 0 <= j < |ms| && ms[j].input == i && KeyOf(ms[j].rec) == KeyOf(m.rec);
      SameKey(ms[j].rec, m.rec);
      NewestEndReached(ms, j);
    }
  }

  /** A bucket another message leaves alone still holds what was sent. */
  lemma HoldsSentSnoc(n: nat, ms: seq<Message>, m: Message, k: Bytes, b: Bucket)
    requires HoldsSent(n, ms, k, b) && KeyOf(m.rec) != k
    ensures HoldsSent(n, ms + [m], k, b)
  {
    hide Counted, KeyOf;
    forall i | 0 <= i < n ensures LastValue(ms + [m], i, k) == LastValue(ms, i, k) {
      LastValueSnoc(ms, m, i, k);
    }
    var i :| 0 <= i < n && Sent(ms, i, k);
    SentSnoc(ms, m, i, k);
  }

  lemma NewestEndSnoc(ms: seq<Message>, m: Message, i: nat)
    ensures NewestEnd(ms + [m], i) == if m.input == i then Later(NewestEnd(ms, i), m.rec.ts) else NewestEnd(ms, i)
  {
    assert (ms + [m])[..|ms|] == ms;
  }

  /** One message keeps the state's knowledge, and completes its group exactly when `Completes` says so. */
  lemma KnowsStep(n: nat, ms: seq<Message>, t: Trace, m: Message)
    requires n >= 2 && Shaped(n, t.st) && Knows(n, ms, t.st) && m.input < n
    ensures var u := Evict(Take(n, None, t, m));
      && Knows(n, ms + [m], u.st)
      && u.completed == t.completed + (if Completes(n, ms + [m], |ms|) then [Filled(n, t.st.buckets, m)] else [])
  {
    hide Take, Evict, KeyOf, Filled, Counted, Completes, Tracks, HoldsSent, Least;
    StepBuckets(n, t, m);
    CompletesNow(n, ms, t.st, m);
    var u := Evict(Take(n, None, t, m));
    forall i | 0 <= i < n ensures u.st.maxEnd[i] == NewestEnd(ms + [m], i) {
      NewestEndSnoc(ms, m, i);
    }
    TracksStep(n, ms, t, m);
  }

  lemma TracksStep(n: nat, ms: seq<Message>, t: Trace, m: Message)
    requires n >= 2 && Shaped(n, t.st) && Knows(n, ms, t.st) && m.input < n
    ensures var u := Evict(Take(n, None, t, m)); Tracks(n, ms + [m], u.st.buckets, Least(u.st.maxEnd))
  {
    hide Take, Evict, KeyOf, Filled, Counted, Completes, HoldsSent, Least, AllSent;
    var u, key, f := Evict(Take(n, None, t, m)), KeyOf(m.rec), Filled(n, t.st.buckets, m);
    var wm, after := Least(t.st.maxEnd), Least(u.st.maxEnd);
    StepBuckets(n, t, m);
    LeastGrows(t.st.maxEnd, m.input, Later(t.st.maxEnd[m.input], m.rec.ts));
    FilledTracks(n, ms, t.st.buckets, wm, m);
    FullIsReached(n, ms, t, m);
    if AnySent(n, ms, key) { SentIsOpen(n, ms, t.st.buckets, wm, m.rec); }
    forall k | k in u.st.buckets ensures HoldsSent(n, ms + [m], k, u.st.buckets[k]) {
      if k != key { HoldsSentSnoc(n, ms, m, k, t.st.buckets[k]); }
    }
    var all := ms + [m];
    forall j | 0 <= j < |all| ensures KeyOf(all[j].rec) in u.st.buckets <==> after < all[j].rec.ts {
      var k := KeyOf(all[j].rec);
      if k == key {
        SameKey(all[j].rec, m.rec);
      } else {
        assert all[j] == ms[j];
        if k in t.st.buckets { OpenEnds(n, ms, t.st.buckets, wm, ms[j].rec); }
      }
    }
  }

  lemma FullIsReached(n: nat, ms: seq<Message>, t: Trace, m: Message)
    requires n >= 2 && Shaped(n, t.st) && Knows(n, ms, t.st) && m.input < n
    ensures Filled(n, t.st.buckets, m).filled == n ==> m.rec.ts <= Least(Evict(Take(n, None, t, m)).st.maxEnd)
  {
    hide Take, Evict, KeyOf, Filled, Completes, Tracks, Least;
    StepBuckets(n, t, m);
    CompletesNow(n, ms, t.st, m);
    var u := Evict(Take(n, None, t, m));
    forall i | 0 <= i < n ensures u.st.maxEnd[i] == NewestEnd(ms + [m], i) {
      NewestEndSnoc(ms, m, i);
    }
    if Filled(n, t.st.buckets, m).filled == n { AllSentReached(n, ms + [m], u.st.maxEnd, m.rec); }
  }

  // ---- The exact condition ----

  lemma PrefixFacts(n: nat, ms: seq<Message>)
    requires ms != [] && Tagged(n, ms)
    ensures var (before, m) := (ms[..|ms| - 1], ms[|ms| - 1]); ms == before + [m] && Tagged(n, before)
  {
    hide KeyOf;
  }

  lemma {:induction false} FeedKnows(n: nat, ms: seq<Message>)
    requires n >= 2 && Tagged(n, ms)
    ensures Knows(n, ms, Feed(n, None, ms).st)
  {
    hide Take, Evict, KeyOf;
    if ms == [] {
      LeastBound(seq(n, _ => 0));
    } else {
      PrefixFacts(n, ms);
      var before := ms[..|ms| - 1];
      FeedKnows(n, before);
      KnowsStep(n, before, Feed(n, None, before), ms[|ms| - 1]);
    }
  }

  /** The messages that complete their group, in order. */
  ghost function CompletingSteps(n: nat, ms: seq<Message>, upto: nat): seq<nat>
    requires upto <= |ms|
  {
    if upto == 0 then []
    else CompletingSteps(n, ms, upto - 1) + (if Completes(n, ms, upto - 1) then [upto - 1] else [])
  }

  lemma {:induction false} CompletingStepsPrefix(n: nat, ms: seq<Message>, m: Message, upto: nat)
    requires upto <= |ms|
    ensures CompletingSteps(n, ms + [m], upto) == CompletingSteps(n, ms, upto)
  {
    if upto > 0 {
      CompletingStepsPrefix(n, ms, m, upto - 1);
      assert (ms + [m])[..upto - 1] == ms[..upto - 1];
    }
  }

  /** `b` is the group of message `q`, complete: for each input the newest value it had sent for it by then. */
  ghost predicate IsCompletion(n: nat, ms: seq<Message>, q: nat, b: Bucket)
    requires q < |ms|
  {
    var rec := ms[q].rec;
    && b.start == StartOf(rec) && b.end == rec.ts && b.labels == rec.attrs
    && |b.values| == n
    && forall i :: 0 <= i < n ==> b.values[i].Some? && b.values[i] == LastValue(ms[..q + 1], i, KeyOf(rec))
  }

  lemma CompletionIs(n: nat, ms: seq<Message>, t: Trace, m: Message)
    requires n >= 2 && Shaped(n, t.st) && Knows(n, ms, t.st) && m.input < n
    requires Completes(n, ms + [m], |ms|)
    ensures IsCompletion(n, ms + [m], |ms|, Filled(n, t.st.buckets, m))
  {
    hide KeyOf, Filled, Counted, Tracks, Least, Completes;
    CompletesNow(n, ms, t.st, m);
    FilledTracks(n, ms, t.st.buckets, Least(t.st.maxEnd), m);
    FullIffAllSome(n, KeyOf(m.rec), Filled(n, t.st.buckets, m));
    assert (ms + [m])[..|ms| + 1] == ms + [m];
  }

  /** With two inputs or more and no cap, over any interleaving and with any repeats: the completed buckets are, in
      order, those of the messages that `Completes` picks out, each with every input's newest value. */
  lemma {:induction false} CompletedExactly(n: nat, ms: seq<Message>)
    requires n >= 2 && Tagged(n, ms)
    ensures var (done, steps) := (Feed(n, None, ms).completed, CompletingSteps(n, ms, |ms|));
      |done| == |steps| && forall x :: 0 <= x < |steps| ==> steps[x] < |ms| && IsCompletion(n, ms, steps[x], done[x])
  {
    hide Take, Evict, KeyOf, Completes, Filled, IsCompletion, Knows;
    if ms != [] {
      PrefixFacts(n, ms);
      var before, m := ms[..|ms| - 1], ms[|ms| - 1];
      var t := Feed(n, None, before);
      CompletedExactly(n, before);
      FeedKnows(n, before);
      KnowsStep(n, before, t, m);
      CompletingStepsPrefix(n, before, m, |before|);
      forall q, b | 0 <= q < |before| && IsCompletion(n, before, q, b) ensures IsCompletion(n, ms, q, b) {
        CompletionStays(n, before, m, q, b);
      }
      if Completes(n, ms, |before|) { CompletionIs(n, before, t, m); }
    }
  }

  lemma CompletionStays(n: nat, ms: seq<Message>, m: Message, q: nat, b: Bucket)
    requires q < |ms| && IsCompletion(n, ms, q, b)
    ensures IsCompletion(n, ms + [m], q, b)
  {
    hide KeyOf;
    assert (ms + [m])[..q + 1] == ms[..q + 1];
  }

  lemma {:induction false} StepsComplete(n: nat, ms: seq<Message>, upto: nat)
    requires upto <= |ms|
    ensures var steps := CompletingSteps(n, ms, upto);
      && (forall x :: 0 <= x < |steps| ==> steps[x] < upto && Completes(n, ms, steps[x]))
      && (forall x, y :: 0 <= x < y < |steps| ==> steps[x] < steps[y])
      && (forall q :: 0 <= q < upto && Completes(n, ms, q) ==> q in steps)
  {
    hide Completes;
    if upto > 0 { StepsComplete(n, ms, upto - 1); }
  }

  lemma CompletionSent(n: nat, ms: seq<Message>, q: nat, i: nat) returns (j: nat)
    requires q < |ms| && i < n && Completes(n, ms, q)
    ensures j <= q && ms[j].input == i && KeyOf(ms[j].rec) == KeyOf(ms[q].rec)
  {
    hide KeyOf;
    j := q;
    if i != ms[q].input {
      assert Sent(ms[..q], i, KeyOf(ms[q].rec));
      j :| 0 <= j < q && ms[..q][j].input == i && KeyOf(ms[..q][j].rec) == KeyOf(ms[q].rec);
    }
  }

  /** The bucket is the record's: it ends at the record's time and starts where the record says, or, for a record that
      says nothing, at that time too. */
  predicate IsGroup(b: Bucket, rec: Record) {
    && b.start == (match rec.startTs case Some(start) => start case None => rec.ts)
    && b.end == rec.ts && b.labels == rec.attrs
  }

  lemma SameGroup(b: Bucket, r: Record, q: Record)
    requires IsGroup(b, r)
    ensures IsGroup(b, q) <==> KeyOf(r) == KeyOf(q)
  {
    hide BucketKeyBytes;
    if KeyOf(r) == KeyOf(q) { SameKey(r, q); }
  }

  /** The join completes the group of `rec`. */
  ghost predicate GroupCompletes(n: nat, ms: seq<Message>, rec: Record)
    requires Tagged(n, ms)
  {
    var done := Feed(n, None, ms).completed;
    exists x :: 0 <= x < |done| && IsGroup(done[x], rec)
  }

  /** The message with which the join completed its bucket number `x`. */
  lemma CompletedBy(n: nat, ms: seq<Message>, x: nat) returns (q: nat)
    requires n >= 2 && Tagged(n, ms) && x < |Feed(n, None, ms).completed|
    ensures |CompletingSteps(n, ms, |ms|)| == |Feed(n, None, ms).completed| && q == CompletingSteps(n, ms, |ms|)[x]
    ensures q < |ms| && Completes(n, ms, q) && IsGroup(Feed(n, None, ms).completed[x], ms[q].rec)
    ensures GroupCompletes(n, ms, ms[q].rec)
  {
    hide Completes, Feed, CompletingSteps, KeyOf;
    CompletedExactly(n, ms);
    StepsComplete(n, ms, |ms|);
    q := CompletingSteps(n, ms, |ms|)[x];
  }

  lemma CompletesAt(n: nat, ms: seq<Message>, rec: Record)
    requires n >= 2 && Tagged(n, ms)
    ensures GroupCompletes(n, ms, rec)
      <==> exists q :: 0 <= q < |ms| && KeyOf(ms[q].rec) == KeyOf(rec) && Completes(n, ms, q)
  {
    hide Completes, Feed, KeyOf;
    var done, steps := Feed(n, None, ms).completed, CompletingSteps(n, ms, |ms|);
    CompletedExactly(n, ms);
    StepsComplete(n, ms, |ms|);
    if x :| 0 <= x < |done| && IsGroup(done[x], rec) {
      var q := CompletedBy(n, ms, x);
      SameGroup(done[x], ms[q].rec, rec);
    }
    if q :| 0 <= q < |ms| && KeyOf(ms[q].rec) == KeyOf(rec) && Completes(n, ms, q) {
      var x :| 0 <= x < |steps| && steps[x] == q;
      SameGroup(done[x], ms[q].rec, rec);
    }
  }

  lemma SentLonger(ms: seq<Message>, p: nat, q: nat, i: nat, k: Bytes)
    requires p <= q <= |ms| && Sent(ms[..p], i, k)
    ensures Sent(ms[..q], i, k)
  {
    hide KeyOf;
    var j :| 0 <= j < p && ms[..p][j].input == i && KeyOf(ms[..p][j].rec) == k;
    assert ms[..q][j] == ms[..p][j];
  }

  /** An input that has not reached a window's end has not sent any of its groups. */
  lemma NotReachedNotSent(ms: seq<Message>, rec: Record, i: nat)
    requires NewestEnd(ms, i) < rec.ts
    ensures !Sent(ms, i, KeyOf(rec))
  {
    hide KeyOf;
    if Sent(ms, i, KeyOf(rec)) {
      var j :| 0 <= j < |ms| && ms[j].input == i && KeyOf(ms[j].rec) == KeyOf(rec);
      SameKey(ms[j].rec, rec);
      NewestEndReached(ms, j);
    }
  }

  /** A message completes its group exactly if with it, and not before, all inputs have sent the group, and its own
      input had not reached that end. */
  lemma CompletesIffFills(n: nat, ms: seq<Message>, q: nat)
    requires Tagged(n, ms) && q < |ms|
    ensures Completes(n, ms, q) <==>
      && AllSent(n, ms[..q + 1], KeyOf(ms[q].rec)) && !AllSent(n, ms[..q], KeyOf(ms[q].rec))
      && NewestEnd(ms[..q], ms[q].input) < ms[q].rec.ts
  {
    hide KeyOf;
    var m, k := ms[q], KeyOf(ms[q].rec);
    var before, after := ms[..q], ms[..q + 1];
    assert after == before + [m] && 0 <= m.input < n;
    forall i | 0 <= i < n ensures Sent(after, i, k) <==> Sent(before, i, k) || i == m.input {
      SentSnoc(before, m, i, k);
    }
    if NewestEnd(before, m.input) < m.rec.ts {
      NotReachedNotSent(before, m.rec, m.input);
      if Completes(n, ms, q) {
        forall i | 0 <= i < n ensures Sent(after, i, k) {
          assert i != m.input ==> Sent(ms[..q], i, KeyOf(ms[q].rec));
        }
      }
      if AllSent(n, after, k) {
        forall j | 0 <= j < n && j != m.input ensures Sent(before, j, k) {
          assert Sent(after, j, k);
        }
      }
    }
  }

  /** At most one message completes a group. */
  lemma OneCompletes(n: nat, ms: seq<Message>, a: nat, b: nat)
    requires Tagged(n, ms) && a < |ms| && b < |ms| && KeyOf(ms[a].rec) == KeyOf(ms[b].rec)
    requires Completes(n, ms, a) && Completes(n, ms, b)
    ensures a == b
  {
    hide KeyOf, Completes;
    CompletesIffFills(n, ms, a);
    CompletesIffFills(n, ms, b);
    var first, last := if a < b then a else b, if a < b then b else a;
    if first < last {
      forall i | 0 <= i < n ensures Sent(ms[..last], i, KeyOf(ms[a].rec)) {
        SentLonger(ms, first + 1, last, i, KeyOf(ms[a].rec));
      }
    }
  }

  /** The join never completes a group twice. */
  lemma CompletesOnce(n: nat, ms: seq<Message>, x: nat, y: nat)
    requires n >= 2 && Tagged(n, ms)
    requires x < |Feed(n, None, ms).completed| && y < |Feed(n, None, ms).completed|
    requires var (b, c) := (Feed(n, None, ms).completed[x], Feed(n, None, ms).completed[y]);
      b.start == c.start && b.end == c.end && b.labels == c.labels
    ensures x == y
  {
    hide Completes, Feed, CompletingSteps, KeyOf;
    var p := CompletedBy(n, ms, x);
    var q := CompletedBy(n, ms, y);
    SameGroup(Feed(n, None, ms).completed[x], ms[p].rec, ms[q].rec);
    OneCompletes(n, ms, p, q);
    StepsDiffer(n, ms, x, y);
  }

  lemma StepsDiffer(n: nat, ms: seq<Message>, x: nat, y: nat)
    requires x < |CompletingSteps(n, ms, |ms|)| && y < |CompletingSteps(n, ms, |ms|)|
    ensures CompletingSteps(n, ms, |ms|)[x] == CompletingSteps(n, ms, |ms|)[y] ==> x == y
  {
    hide CompletingSteps;
    StepsComplete(n, ms, |ms|);
  }

  /** The first message with which all inputs have sent group `k`. */
  ghost function FirstFull(n: nat, ms: seq<Message>, k: Bytes): (f: nat)
    requires n > 0 && AllSent(n, ms, k)
    ensures f < |ms| && AllSent(n, ms[..f + 1], k) && !AllSent(n, ms[..f], k)
  {
    assert Sent(ms, 0, k);
    var p := |ms| - 1;
    assert ms[..p + 1] == ms;
    if AllSent(n, ms[..p], k) then
      var f := FirstFull(n, ms[..p], k);
      assert ms[..p][..f + 1] == ms[..f + 1] && ms[..p][..f] == ms[..f];
      f
    else p
  }

  lemma FillsLast(n: nat, ms: seq<Message>, f: nat, k: Bytes)
    requires f < |ms| && AllSent(n, ms[..f + 1], k) && !AllSent(n, ms[..f], k)
    ensures KeyOf(ms[f].rec) == k
  {
    hide KeyOf;
    var before, m := ms[..f], ms[f];
    assert ms[..f + 1] == before + [m];
    forall i | 0 <= i < n ensures Sent(before + [m], i, k) ==> Sent(before, i, k) || KeyOf(m.rec) == k {
      SentSnoc(before, m, i, k);
    }
  }

  lemma FullOnce(n: nat, ms: seq<Message>, f: nat, q: nat, k: Bytes)
    requires f < |ms| && AllSent(n, ms[..f + 1], k) && !AllSent(n, ms[..f], k)
    requires q < |ms| && AllSent(n, ms[..q + 1], k) && !AllSent(n, ms[..q], k)
    ensures f == q
  {
    hide KeyOf, Sent;
    if f < q { forall i | 0 <= i < n ensures Sent(ms[..q], i, k) { SentLonger(ms, f + 1, q, i, k); } }
    if q < f { forall i | 0 <= i < n ensures Sent(ms[..f], i, k) { SentLonger(ms, q + 1, f, i, k); } }
  }

  /** The join completes a group exactly when all inputs supply it and the input that is the last to, when it first
      does, has not yet reached that window's end. */
  lemma GroupCompletesIff(n: nat, ms: seq<Message>, rec: Record)
    requires n >= 2 && Tagged(n, ms)
    ensures GroupCompletes(n, ms, rec) <==>
      && AllSent(n, ms, KeyOf(rec))
      && var f := FirstFull(n, ms, KeyOf(rec)); NewestEnd(ms[..f], ms[f].input) < rec.ts
  {
    hide KeyOf, Completes, GroupCompletes, FirstFull, NewestEnd, AllSent;
    var k := KeyOf(rec);
    CompletesAt(n, ms, rec);
    if q :| 0 <= q < |ms| && KeyOf(ms[q].rec) == k && Completes(n, ms, q) {
      CompletesIffFills(n, ms, q);
      AllSentLonger(n, ms, q + 1, k);
      FullOnce(n, ms, FirstFull(n, ms, k), q, k);
      SameKey(ms[q].rec, rec);
    }
    if AllSent(n, ms, k) {
      var f := FirstFull(n, ms, k);
      FillsLast(n, ms, f, k);
      CompletesIffFills(n, ms, f);
      SameKey(ms[f].rec, rec);
    }
  }

  lemma AllSentLonger(n: nat, ms: seq<Message>, q: nat, k: Bytes)
    requires q <= |ms| && AllSent(n, ms[..q], k)
    ensures AllSent(n, ms, k)
  {
    hide KeyOf, Sent;
    assert ms[..|ms|] == ms;
    forall i | 0 <= i < n ensures Sent(ms, i, k) { SentLonger(ms, q, |ms|, i, k); }
  }

  // ---- Inputs that send one record per window ----

  /** Every input's window ends strictly increase, from above zero. */
  ghost predicate StrictEnds(ms: seq<Message>) {
    && (forall j :: 0 <= j < |ms| ==> 0 < ms[j].rec.ts)
    && (forall a, b :: 0 <= a < b < |ms| && ms[a].input == ms[b].input ==> ms[a].rec.ts < ms[b].rec.ts)
  }

  lemma {:induction false} StrictNewest(ms: seq<Message>, i: nat, e: nat)
    requires 0 < e && forall a :: 0 <= a < |ms| && ms[a].input == i ==> ms[a].rec.ts < e
    ensures NewestEnd(ms, i) < e
  {
    if ms != [] { StrictNewest(ms[..|ms| - 1], i, e); }
  }

  lemma StrictNeverRepeats(ms: seq<Message>)
    requires StrictEnds(ms)
    ensures NoRepeats(ms)
  {
    hide KeyOf;
    forall a, b | 0 <= a < b < |ms| && ms[a].input == ms[b].input ensures KeyOf(ms[a].rec) != KeyOf(ms[b].rec) {
      if KeyOf(ms[a].rec) == KeyOf(ms[b].rec) { SameKey(ms[a].rec, ms[b].rec); }
    }
  }

  /** With one record per window end and input, the groups the join completes are exactly those all inputs supply. */
  lemma StrictCompletesIff(n: nat, ms: seq<Message>, rec: Record)
    requires n >= 2 && Tagged(n, ms) && StrictEnds(ms)
    ensures NoRepeats(ms)
    ensures GroupCompletes(n, ms, rec) <==> AllSent(n, ms, KeyOf(rec))
  {
    hide KeyOf, Completes, GroupCompletes, FirstFull, AllSent;
    StrictNeverRepeats(ms);
    GroupCompletesIff(n, ms, rec);
    if AllSent(n, ms, KeyOf(rec)) {
      var f := FirstFull(n, ms, KeyOf(rec));
      FillsLast(n, ms, f, KeyOf(rec));
      SameKey(ms[f].rec, rec);
      StrictNewest(ms[..f], ms[f].input, rec.ts);
    }
  }

  lemma {:induction false} EvictedPerStep(n: nat, ms: seq<Message>)
    requires Tagged(n, ms)
    ensures |Feed(n, None, ms).evicted| == |ms|
  {
    hide KeyOf, Filled, Least;
    if ms != [] { EvictedPerStep(n, ms[..|ms| - 1]); }
  }

  /** What a step evicts has reached the new watermark and still waits for some input. */
  lemma EvictedIncomplete(n: nat, ms: seq<Message>, t: Trace, m: Message, k: Bytes)
    requires n >= 2 && Shaped(n, t.st) && Knows(n, ms, t.st) && m.input < n
    requires NewestEnd(ms, m.input) < m.rec.ts
    requires k in StaleIn(Take(n, None, t, m).st.buckets, Least(Take(n, None, t, m).st.maxEnd))
    ensures var b := Take(n, None, t, m).st.buckets[k];
      && HoldsSent(n, ms + [m], k, b) && b.filled != n && b.end <= Least(Take(n, None, t, m).st.maxEnd)
  {
    hide KeyOf, Counted, Filled, Least, HoldsSent;
    FilledTracks(n, ms, t.st.buckets, Least(t.st.maxEnd), m);
    if AnySent(n, ms, KeyOf(m.rec)) {
      SentIsOpen(n, ms, t.st.buckets, Least(t.st.maxEnd), m.rec);
      LeastBound(t.st.maxEnd);
    }
    if k != KeyOf(m.rec) {
      HoldsSentSnoc(n, ms, m, k, t.st.buckets[k]);
      StillFilling(n, ms, t.st, k);
    }
  }

  lemma StillFilling(n: nat, ms: seq<Message>, st: State, k: Bytes)
    requires n >= 2 && Knows(n, ms, st) && k in st.buckets
    ensures st.buckets[k].filled != n
  {
    hide KeyOf, Least;
    var b := st.buckets[k];
    FullIffAllSome(n, k, b);
    forall i ensures Sent(ms, i, k) <==> LastValue(ms, i, k).Some? { SentIffValue(ms, i, k); }
    if b.filled == n {
      var i :| 0 <= i < n && Sent(ms, i, k);
      var j :| 0 <= j < |ms| && ms[j].input == i && KeyOf(ms[j].rec) == k;
      AllSentReached(n, ms, st.maxEnd, ms[j].rec);
    }
  }

  /** With one record per window end and input, an evicted bucket is one that some input never fills. */
  lemma EvictedNeverFills(n: nat, ms: seq<Message>, p: nat, k: Bytes)
    requires n >= 2 && Tagged(n, ms) && StrictEnds(ms) && p < |ms|
    requires p < |Feed(n, None, ms[..p + 1]).evicted| && k in Feed(n, None, ms[..p + 1]).evicted[p]
    ensures !AllSent(n, ms, k)
  {
    hide KeyOf, Counted, Filled, Least, Knows, Take;
    var before, m := ms[..p], ms[p];
    var upto := ms[..p + 1];
    assert upto == before + [m] && upto[..|upto| - 1] == before;
    StrictNeverRepeats(upto);
    PrefixFacts(n, upto);
    StrictNewest(before, m.input, m.rec.ts);
    FeedKnows(n, before);
    EvictedPerStep(n, before);
    var t := Feed(n, None, before);
    TakeKeepsShape(n, None, t, m);
    var taken := Take(n, None, t, m);
    TakeEvicts(n, t, m);
    EvictedIncomplete(n, before, t, m, k);
    SomeInputMissing(n, upto, k, taken.st.buckets[k]);
    var i :| 0 <= i < n && !Sent(upto, i, k);
    if Sent(ms, i, k) {
      var j := SentAfter(ms, p + 1, i, k);
      ReachedByWatermark(n, before, t, m, i, ms[j].rec, k);
      StrictNewest(upto, i, ms[j].rec.ts);
    }
  }

  lemma SentAfter(ms: seq<Message>, p: nat, i: nat, k: Bytes) returns (j: nat)
    requires p <= |ms| && Sent(ms, i, k) && !Sent(ms[..p], i, k)
    ensures p <= j < |ms| && ms[j].input == i && KeyOf(ms[j].rec) == k
  {
    hide KeyOf;
    j :| 0 <= j < |ms| && ms[j].input == i && KeyOf(ms[j].rec) == k;
    assert forall x :: 0 <= x < p ==> ms[..p][x] == ms[x];
  }

  lemma TakeEvicts(n: nat, t: Trace, m: Message)
    requires Shaped(n, t.st) && m.input < n
    ensures Take(n, None, t, m).evicted == t.evicted
    ensures Take(n, None, t, m).st.maxEnd == t.st.maxEnd[m.input := Later(t.st.maxEnd[m.input], m.rec.ts)]
  {
    hide KeyOf, Filled;
  }

  lemma SomeInputMissing(n: nat, ms: seq<Message>, k: Bytes, b: Bucket)
    requires HoldsSent(n, ms, k, b) && b.filled != n
    ensures exists i :: 0 <= i < n && !Sent(ms, i, k)
  {
    hide KeyOf;
    FullIffAllSome(n, k, b);
    forall i ensures Sent(ms, i, k) <==> LastValue(ms, i, k).Some? { SentIffValue(ms, i, k); }
  }

  /** Every input has reached an evicted bucket's end. */
  lemma ReachedByWatermark(n: nat, ms: seq<Message>, t: Trace, m: Message, i: nat, rec: Record, k: Bytes)
    requires Shaped(n, t.st) && Knows(n, ms, t.st) && m.input < n && i < n && KeyOf(rec) == k
    requires k in Take(n, None, t, m).st.buckets
    requires var b := Take(n, None, t, m).st.buckets[k];
      Counted(n, k, b) && b.end <= Least(Take(n, None, t, m).st.maxEnd)
    ensures rec.ts <= NewestEnd(ms + [m], i)
  {
    hide Counted, Filled, Tracks, Least, KeyOf, Take;
    var taken := Take(n, None, t, m);
    EndOfKey(n, k, taken.st.buckets[k], rec);
    TakeEvicts(n, t, m);
    NewestEndSnoc(ms, m, i);
    LeastBound(taken.st.maxEnd);
    assert taken.st.maxEnd[i] == NewestEnd(ms + [m], i);
  }

  lemma EndOfKey(n: nat, k: Bytes, b: Bucket, rec: Record)
    requires Counted(n, k, b) && KeyOf(rec) == k
    ensures b.end == rec.ts
  {
    BucketKeyInjective(StartOf(rec), rec.ts, rec.attrs, b.start, b.end, b.labels);
  }

  // ---- Two groups in one window: the watermark can outrun a group every input supplies ----

  /** Two inputs each send two groups of the window [0, 60); no input repeats a group and ends never decrease, yet
      neither group ever completes. */
  lemma AlignedGroupsLost() returns (ms: seq<Message>)
    ensures Tagged(2, ms) && NoRepeats(ms)
    ensures forall a, b :: 0 <= a < b < |ms| && ms[a].input == ms[b].input ==> ms[a].rec.ts <= ms[b].rec.ts
    ensures forall j :: 0 <= j < |ms| ==> AllSent(2, ms, KeyOf(ms[j].rec))
    ensures ms != [] && Feed(2, None, ms).completed == []
  {
    hide KeyOf, Feed, AllSent, NoRepeats, Completes, CompletingSteps;
    var one := Record(60, Some(0), map[], None, [], 0.0, map[[107] := Int(1)]);
    var two := Record(60, Some(0), map[], None, [], 0.0, map[[107] := Int(2)]);
    ms := [Message(0, two), Message(1, one), Message(0, one), Message(1, two)];
    LabelsDiffer(one, two);
    LostTrace(ms, one, two);
    CompletedExactly(2, ms);
    NoSteps(2, ms, 4);
  }

  lemma LabelsDiffer(a: Record, b: Record)
    requires [107] in a.attrs && [107] in b.attrs && a.attrs[[107]] != b.attrs[[107]]
    ensures KeyOf(a) != KeyOf(b)
  {
    hide KeyOf;
    if KeyOf(a) == KeyOf(b) { SameKey(a, b); }
  }

  lemma {:induction false} NoSteps(n: nat, ms: seq<Message>, upto: nat)
    requires upto <= |ms| && forall q :: 0 <= q < |ms| ==> !Completes(n, ms, q)
    ensures CompletingSteps(n, ms, upto) == []
  {
    if upto > 0 { NoSteps(n, ms, upto - 1); }
  }

  lemma LostTrace(ms: seq<Message>, one: Record, two: Record)
    requires one.ts == two.ts && KeyOf(one) != KeyOf(two)
    requires ms == [Message(0, two), Message(1, one), Message(0, one), Message(1, two)]
    ensures NoRepeats(ms)
    ensures forall j :: 0 <= j < |ms| ==> AllSent(2, ms, KeyOf(ms[j].rec))
    ensures forall q :: 0 <= q < |ms| ==> !Completes(2, ms, q)
  {
    hide KeyOf;
    assert ms[0].rec == two && ms[1].rec == one && ms[2].rec == one && ms[3].rec == two;
    assert Sent(ms, 0, KeyOf(one)) && Sent(ms, 1, KeyOf(one)) && Sent(ms, 0, KeyOf(two)) && Sent(ms, 1, KeyOf(two));
    NewestEndReached(ms[..2], 0);
    NewestEndReached(ms[..3], 1);
    assert !Sent(ms[..0], 1, KeyOf(two)) && !Sent(ms[..1], 0, KeyOf(one));
  }
}
