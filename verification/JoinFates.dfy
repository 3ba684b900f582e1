/** What becomes of each single record that enters the join. */
module JoinFates {
  import opened Wrappers
  import opened Records
  import opened Keys
  import opened JoinModel
  import opened JoinTheory

  /** Numbers are positions in the merged stream. */
  datatype Fate = Refused | Replaced(later: nat) | Completed(at: nat) | Evicted(at: nat) | Open

  /** Where a message under key `k` is after step `p` has taken its own message but before it evicts. */
  ghost function Settled(taken: Trace, p: nat, k: Bytes): Fate {
    if k !in taken.st.buckets then Completed(p)
    else if taken.st.buckets[k].end <= Least(taken.st.maxEnd) then Evicted(p)
    else Open
  }

  predicate SameSlot(a: Message, b: Message) {
    a.input == b.input && KeyOf(a.rec) == KeyOf(b.rec)
  }

  ghost function FateOf(n: nat, cap: Option<nat>, ms: seq<Message>, j: nat): Fate
    requires Tagged(n, ms) && j < |ms|
  {
    var p := |ms| - 1;
    var before := Feed(n, cap, ms[..p]);
    var taken := Take(n, cap, before, ms[p]);
    var k := KeyOf(ms[j].rec);
    if j == p then
      if JoinModel.Refused(cap, before.st.buckets, k) then Fate.Refused else Settled(taken, p, k)
    else
      var fate := FateOf(n, cap, ms[..p], j);
      if !fate.Open? then fate else if SameSlot(ms[p], ms[j]) then Replaced(p) else Settled(taken, p, k)
  }

  /** The bucket is the message's, and its value is the message's own in the slot of its input. */
  ghost predicate Holds(b: Bucket, m: Message) {
    && b.start == (match m.rec.startTs case Some(start) => start case None => m.rec.ts)
    && b.end == m.rec.ts && b.labels == m.rec.attrs
    && m.input < |b.values| && b.values[m.input] == Some(m.rec.value)
  }

  ghost predicate HeldIn(buckets: Buckets, m: Message) {
    KeyOf(m.rec) in buckets && Holds(buckets[KeyOf(m.rec)], m)
  }

  ghost predicate CompletedAt(before: Trace, after: Trace, m: Message) {
    exists b :: after.completed == before.completed + [b] && Holds(b, m)
  }

  ghost predicate EvictedAt(before: Trace, after: Trace, m: Message) {
    exists gone :: after.evicted == before.evicted + [gone] && HeldIn(gone, m)
  }

  /** As many buckets are open as may be, and none is the key's. */
  predicate AtCap(cap: Option<nat>, buckets: Buckets, key: Bytes) {
    cap == Some(|buckets|) && key !in buckets
  }

  /** The run bears the fate out. */
  ghost predicate Told(n: nat, cap: Option<nat>, ms: seq<Message>, j: nat, fate: Fate)
    requires Tagged(n, ms) && j < |ms|
  {
    match fate
    case Refused =>
      AtCap(cap, Feed(n, cap, ms[..j]).st.buckets, KeyOf(ms[j].rec))
      && Feed(n, cap, ms[..j + 1]).capped == Feed(n, cap, ms[..j]).capped + 1
    case Replaced(p) =>
      j < p < |ms| && SameSlot(ms[p], ms[j]) && HeldIn(Feed(n, cap, ms[..p]).st.buckets, ms[j])
      && Feed(n, cap, ms[..p + 1]).overwritten == Feed(n, cap, ms[..p]).overwritten + 1
    case Completed(p) =>
      j <= p < |ms| && CompletedAt(Feed(n, cap, ms[..p]), Feed(n, cap, ms[..p + 1]), ms[j])
    case Evicted(p) =>
      j <= p < |ms| && EvictedAt(Feed(n, cap, ms[..p]), Feed(n, cap, ms[..p + 1]), ms[j])
    case Open =>
      HeldIn(Feed(n, cap, ms).st.buckets, ms[j])
  }

  lemma ToldStays(n: nat, cap: Option<nat>, ms: seq<Message>, j: nat, fate: Fate)
    requires Tagged(n, ms) && j < |ms| - 1 && !fate.Open? && Told(n, cap, ms[..|ms| - 1], j, fate)
    ensures Told(n, cap, ms, j, fate)
  {
    hide Feed, CompletedAt, EvictedAt, HeldIn, SameSlot;
    var before := ms[..|ms| - 1];
    assert forall i :: 0 <= i <= |before| ==> before[..i] == ms[..i];
  }

  /** A message held before the step, or taken by it, is held after it, or was in the bucket the step completed. */
  lemma TakeHolds(n: nat, cap: Option<nat>, t: Trace, m: Message, x: Message)
    requires Shaped(n, t.st) && m.input < n && x.input < n && Fillable(n, t.st.buckets)
    requires if x == m then !JoinModel.Refused(cap, t.st.buckets, KeyOf(m.rec))
      else HeldIn(t.st.buckets, x) && !SameSlot(m, x)
    ensures var u := Take(n, cap, t, m);
      && u.evicted == t.evicted
      && (if KeyOf(x.rec) in u.st.buckets then HeldIn(u.st.buckets, x) else CompletedAt(t, u, x))
  {
    hide KeyOf, Counted, Filled;
    FilledHolds(n, t.st.buckets, m, x);
  }

  lemma FilledHolds(n: nat, buckets: Buckets, m: Message, x: Message)
    requires m.input < n && x.input < n && Fillable(n, buckets)
    requires x == m || (HeldIn(buckets, x) && !SameSlot(m, x))
    ensures KeyOf(m.rec) == KeyOf(x.rec) ==> Holds(Filled(n, buckets, m), x)
  {
    hide KeyOf;
    if KeyOf(m.rec) in buckets {
      var b := buckets[KeyOf(m.rec)];
      SameBucket(b, m.rec, KeyOf(m.rec));
    }
  }

  lemma SameBucket(b: Bucket, rec: Record, k: Bytes)
    requires k == KeyOf(rec) && k == BucketKeyBytes(b.start, b.end, b.labels)
    ensures b.start == StartOf(rec) && b.end == rec.ts && b.labels == rec.attrs
  {
    hide BucketKeyBytes;
    BucketKeyInjective(b.start, b.end, b.labels, StartOf(rec), rec.ts, rec.attrs);
  }

  /** What eviction makes of a message that is held. */
  lemma EvictHolds(t: Trace, x: Message)
    requires HeldIn(t.st.buckets, x)
    ensures var u := Evict(t);
      if t.st.buckets[KeyOf(x.rec)].end <= Least(t.st.maxEnd) then EvictedAt(t, u, x) else HeldIn(u.st.buckets, x)
  {
    hide KeyOf, Least, Holds;
    var gone := StaleIn(t.st.buckets, Least(t.st.maxEnd));
    assert Evict(t).evicted == t.evicted + [gone];
  }

  lemma SettledTold(n: nat, cap: Option<nat>, t: Trace, m: Message, x: Message, p: nat)
    requires Shaped(n, t.st) && m.input < n && x.input < n && Fillable(n, t.st.buckets)
    requires if x == m then !JoinModel.Refused(cap, t.st.buckets, KeyOf(m.rec))
      else HeldIn(t.st.buckets, x) && !SameSlot(m, x)
    ensures var (u, v) := (Take(n, cap, t, m), Evict(Take(n, cap, t, m)));
      match Settled(u, p, KeyOf(x.rec))
      case Completed(at) => at == p && CompletedAt(t, v, x)
      case Evicted(at) => at == p && EvictedAt(t, v, x)
      case Open => HeldIn(v.st.buckets, x)
      case _ => false
  {
    hide KeyOf, Least, Take, HeldIn, JoinModel.Refused, SameSlot;
    TakeHolds(n, cap, t, m, x);
    var u := Take(n, cap, t, m);
    EvictKeeps(u);
    if KeyOf(x.rec) in u.st.buckets { EvictHolds(u, x); }
  }

  lemma EvictKeeps(t: Trace)
    ensures Evict(t).completed == t.completed && Evict(t).capped == t.capped && Evict(t).overwritten == t.overwritten
  {
  }

  lemma TakeCounts(n: nat, cap: Option<nat>, t: Trace, m: Message, x: Message)
    requires Shaped(n, t.st) && m.input < n && x.input < n && Fillable(n, t.st.buckets)
    ensures JoinModel.Refused(cap, t.st.buckets, KeyOf(m.rec)) ==> Evict(Take(n, cap, t, m)).capped == t.capped + 1
    ensures HeldIn(t.st.buckets, x) && SameSlot(m, x) ==>
      Evict(Take(n, cap, t, m)).overwritten == t.overwritten + 1
  {
    hide KeyOf, Filled, Least;
    EvictKeeps(Take(n, cap, t, m));
  }

  /** Every record of every run has one fate, and the run bears it out: refused at the cap, replaced by a later value of
      its input for the same group, part of the bucket a step completed, part of one a step evicted, or still held. */
  lemma {:induction false} EveryRecordHasItsFate(n: nat, cap: Option<nat>, ms: seq<Message>, j: nat)
    requires Tagged(n, ms) && j < |ms|
    ensures Told(n, cap, ms, j, FateOf(n, cap, ms, j))
  {
    hide KeyOf, Take, Evict, Settled, HeldIn, JoinModel.Refused, SameSlot, CompletedAt, EvictedAt, Told, Feed,
      FateOf, Fillable;
    var p := |ms| - 1;
    FedFillable(n, cap, ms[..p]);
    if j == p {
      NewFate(n, cap, ms);
    } else {
      EveryRecordHasItsFate(n, cap, ms[..p], j);
      OpenIsHeld(n, cap, ms[..p], j);
      if FateOf(n, cap, ms[..p], j).Open? { NextFate(n, cap, ms, j); }
      else { OldFate(n, cap, ms, j); }
    }
  }

  lemma LastStep(n: nat, cap: Option<nat>, ms: seq<Message>)
    requires Tagged(n, ms) && ms != []
    ensures var p := |ms| - 1;
      ms[..p + 1] == ms && Feed(n, cap, ms) == Evict(Take(n, cap, Feed(n, cap, ms[..p]), ms[p]))
  {
    hide Take, Evict;
  }

  /** The fate a message meets in its own step. */
  lemma NewFate(n: nat, cap: Option<nat>, ms: seq<Message>)
    requires Tagged(n, ms) && ms != [] && Fillable(n, Feed(n, cap, ms[..|ms| - 1]).st.buckets)
    ensures Told(n, cap, ms, |ms| - 1, FateOf(n, cap, ms, |ms| - 1))
  {
    hide KeyOf, Take, Evict, Settled, HeldIn, JoinModel.Refused, SameSlot, CompletedAt, EvictedAt, Feed, FateOf;
    var p := |ms| - 1;
    var before, m := Feed(n, cap, ms[..p]), ms[p];
    LastStep(n, cap, ms);
    NewFateIs(n, cap, ms);
    RefusedAtCap(n, cap, ms[..p], KeyOf(m.rec));
    TakeCounts(n, cap, before, m, m);
    if !JoinModel.Refused(cap, before.st.buckets, KeyOf(m.rec)) { SettledTold(n, cap, before, m, m, p); }
  }

  lemma NewFateIs(n: nat, cap: Option<nat>, ms: seq<Message>)
    requires Tagged(n, ms) && ms != []
    ensures var (p, before) := (|ms| - 1, Feed(n, cap, ms[..|ms| - 1]));
      FateOf(n, cap, ms, p) ==
        if JoinModel.Refused(cap, before.st.buckets, KeyOf(ms[p].rec)) then Fate.Refused
        else Settled(Take(n, cap, before, ms[p]), p, KeyOf(ms[p].rec))
  {
    hide KeyOf, Take, Settled, JoinModel.Refused, Feed;
  }

  /** The fate of a message held until now in the step of a later one. */
  lemma NextFate(n: nat, cap: Option<nat>, ms: seq<Message>, j: nat)
    requires Tagged(n, ms) && j < |ms| - 1 && Fillable(n, Feed(n, cap, ms[..|ms| - 1]).st.buckets)
    requires FateOf(n, cap, ms[..|ms| - 1], j).Open? && HeldIn(Feed(n, cap, ms[..|ms| - 1]).st.buckets, ms[j])
    ensures Told(n, cap, ms, j, FateOf(n, cap, ms, j))
  {
    hide KeyOf, Take, Evict, Settled, HeldIn, SameSlot, CompletedAt, EvictedAt, Feed, FateOf, JoinModel.Refused;
    var p := |ms| - 1;
    var before, m := Feed(n, cap, ms[..p]), ms[p];
    LastStep(n, cap, ms);
    NextFateIs(n, cap, ms, j);
    TakeCounts(n, cap, before, m, ms[j]);
    if !SameSlot(m, ms[j]) { HeldSettles(n, cap, before, m, ms[j], p); }
  }

  lemma NextFateIs(n: nat, cap: Option<nat>, ms: seq<Message>, j: nat)
    requires Tagged(n, ms) && j < |ms| - 1 && FateOf(n, cap, ms[..|ms| - 1], j).Open?
    ensures var (p, before) := (|ms| - 1, Feed(n, cap, ms[..|ms| - 1]));
      FateOf(n, cap, ms, j) ==
        if SameSlot(ms[p], ms[j]) then Replaced(p) else Settled(Take(n, cap, before, ms[p]), p, KeyOf(ms[j].rec))
  {
    hide KeyOf, Take, Settled, JoinModel.Refused, Feed, SameSlot;
  }

  /** A fate once met is kept. */
  lemma OldFate(n: nat, cap: Option<nat>, ms: seq<Message>, j: nat)
    requires Tagged(n, ms) && j < |ms| - 1 && !FateOf(n, cap, ms[..|ms| - 1], j).Open?
    requires Told(n, cap, ms[..|ms| - 1], j, FateOf(n, cap, ms[..|ms| - 1], j))
    ensures Told(n, cap, ms, j, FateOf(n, cap, ms, j))
  {
    hide KeyOf, Take, Settled, JoinModel.Refused, Feed, SameSlot, Told;
    ToldStays(n, cap, ms, j, FateOf(n, cap, ms[..|ms| - 1], j));
  }

  lemma OpenIsHeld(n: nat, cap: Option<nat>, ms: seq<Message>, j: nat)
    requires Tagged(n, ms) && j < |ms| && Told(n, cap, ms, j, FateOf(n, cap, ms, j))
    ensures FateOf(n, cap, ms, j).Open? ==> HeldIn(Feed(n, cap, ms).st.buckets, ms[j])
  {
    hide KeyOf, Take, Evict, HeldIn, Feed, FateOf, SameSlot, CompletedAt, EvictedAt, JoinModel.Refused;
  }

  lemma FedFillable(n: nat, cap: Option<nat>, ms: seq<Message>)
    requires Tagged(n, ms)
    ensures Fillable(n, Feed(n, cap, ms).st.buckets)
  {
    hide Feed, Fillable, Sound;
    LoopInvariant(n, cap, ms);
    FillableWhenSound(n, cap, Feed(n, cap, ms).st);
  }

  /** A message is refused exactly when the cap is reached and its group is not open. */
  lemma RefusedAtCap(n: nat, cap: Option<nat>, ms: seq<Message>, key: Bytes)
    requires Tagged(n, ms)
    ensures JoinModel.Refused(cap, Feed(n, cap, ms).st.buckets, key) <==> AtCap(cap, Feed(n, cap, ms).st.buckets, key)
  {
    hide Feed, BucketSound;
    LoopInvariant(n, cap, ms);
  }

  /** So the cap sheds nothing more than it must. */
  lemma {:induction false} RefusedIff(n: nat, cap: Option<nat>, ms: seq<Message>, j: nat)
    requires Tagged(n, ms) && j < |ms|
    ensures FateOf(n, cap, ms, j).Refused? <==> AtCap(cap, Feed(n, cap, ms[..j]).st.buckets, KeyOf(ms[j].rec))
  {
    hide KeyOf, Take, Feed, AtCap, JoinModel.Refused, SameSlot;
    var p := |ms| - 1;
    if j == p {
      RefusedAtCap(n, cap, ms[..p], KeyOf(ms[p].rec));
    } else {
      RefusedIff(n, cap, ms[..p], j);
      assert ms[..p][..j] == ms[..j];
    }
  }

  lemma FillableWhenSound(n: nat, cap: Option<nat>, st: State)
    requires Sound(n, cap, st)
    ensures Shaped(n, st) && Fillable(n, st.buckets)
  {
    hide Least;
  }

  /** A message that was held stays so, or is completed or evicted, when another slot is filled. */
  lemma HeldSettles(n: nat, cap: Option<nat>, t: Trace, m: Message, x: Message, p: nat)
    requires Shaped(n, t.st) && m.input < n && x.input < n && Fillable(n, t.st.buckets)
    requires HeldIn(t.st.buckets, x) && !SameSlot(m, x)
    ensures var (u, v) := (Take(n, cap, t, m), Evict(Take(n, cap, t, m)));
      match Settled(u, p, KeyOf(x.rec))
      case Completed(at) => at == p && CompletedAt(t, v, x)
      case Evicted(at) => at == p && EvictedAt(t, v, x)
      case Open => HeldIn(v.st.buckets, x)
      case _ => false
  {
    hide Take, Evict, Settled, HeldIn, CompletedAt, EvictedAt, KeyOf;
    assert x != m;
    SettledTold(n, cap, t, m, x, p);
  }
}
