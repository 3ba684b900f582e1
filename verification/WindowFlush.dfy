/** Idle flushes and the group cap: what they change in a run's output, and what they cannot. */
module WindowFlush {
  import opened Wrappers
  import opened Records
  import opened Tallies
  import opened WindowModel
  import opened WindowTheory
  import opened WindowRuns

  /** Idle flushes cut a window into fragments but lose nothing: the fragments of every group merge to what the run
      without flushes emits for it once, and the same records are metered as dropped. */
  lemma IdleFlushLosesNothing(c: Config, flushed: seq<Event>, plain: seq<Event>)
    requires c.Valid() && c.maxGroups.None? && Clean(c, flushed) && Clean(c, plain)
    requires NoIdle(plain) && Arrivals(flushed) == Arrivals(plain)
    ensures forall s, k :: Emitted(Stream(c, flushed), s, k) == Emitted(Stream(c, plain), s, k)
    ensures forall i, k :: 0 <= i < |Stream(c, plain)| && k in Stream(c, plain)[i].groups ==>
      Emitted(Stream(c, flushed), Stream(c, plain)[i].start, k) == Stream(c, plain)[i].groups[k].tally
    ensures Feed(c, flushed).drops == Feed(c, plain).drops
  {
    StreamAscends(c, plain);
    DropsMatchBatch(c, flushed);
    DropsMatchBatch(c, plain);
    hide Stream, Emitted, Tally.Merge, Feed;
    forall s, k ensures Emitted(Stream(c, flushed), s, k) == Emitted(Stream(c, plain), s, k) {
      FragmentsMergeToBatch(c, flushed, s, k);
      FragmentsMergeToBatch(c, plain, s, k);
    }
    forall i, k | 0 <= i < |Stream(c, plain)| && k in Stream(c, plain)[i].groups
      ensures Emitted(Stream(c, flushed), Stream(c, plain)[i].start, k) == Stream(c, plain)[i].groups[k].tally
    {
      EmittedOnce(Stream(c, plain), i, k);
    }
  }

  // ---- The cap ----

  /** `a` is what a window capped at `cap` keeps of `b`: everything, until it is full. */
  ghost predicate Kept(cap: nat, a: Groups, b: Groups) {
    && (forall k :: k in a ==> k in b && a[k] == b[k])
    && (|a| < cap ==> a == b)
  }

  ghost predicate KeptTrace(cap: nat, t: Trace, u: Trace) {
    && t.failed == u.failed
    && t.st.maxEvent == u.st.maxEvent
    && t.st.windows.Keys == u.st.windows.Keys
    && (forall s :: s in t.st.windows ==> Kept(cap, t.st.windows[s], u.st.windows[s]))
    && KeptFirings(cap, t.out, u.out)
    && t.drops.late == u.drops.late && t.drops.skipped == u.drops.skipped
    && t.st == Metered(t.st) && u.st == Metered(u.st)
  }

  ghost predicate KeptFirings(cap: nat, a: seq<Firing>, b: seq<Firing>) {
    && |a| == |b|
    && forall i :: 0 <= i < |a| ==> a[i].start == b[i].start && Kept(cap, a[i].groups, b[i].groups)
  }

  function Uncapped(c: Config): Config {
    c.(maxGroups := None)
  }

  lemma FoldKeeps(cap: nat, a: Groups, b: Groups, key: GroupKey, agg: Agg, v: real)
    requires cap >= 1 && Kept(cap, a, b)
    ensures Kept(cap, FoldInto(Some(cap), a, key, agg, v), FoldInto(None, b, key, agg, v))
  {
    hide Tally.Add;
  }

  lemma OnRecordKeptWindows(c: Config, cap: nat, st: State, su: State, rec: Record)
    requires c.Valid() && c.maxGroups == Some(cap) && cap >= 1 && !Rejected(c, rec)
    requires st.maxEvent == su.maxEvent && st.windows.Keys == su.windows.Keys
    requires forall s :: s in st.windows ==> Kept(cap, st.windows[s], su.windows[s])
    ensures var (a, b) := (OnRecord(c, st, rec).windows, OnRecord(Uncapped(c), su, rec).windows);
      a.Keys == b.Keys && forall s :: s in a ==> Kept(cap, a[s], b[s])
  {
    var open := OpenStarts(c, rec.ts, Watermark(c, st.maxEvent));
    assert open == OpenStarts(Uncapped(c), rec.ts, Watermark(c, su.maxEvent));
    OnRecordWindows(c, st, rec);
    OnRecordWindows(Uncapped(c), su, rec);
    hide Kept, OpenStarts, OnRecord, FoldAll;
    var v := Numeric(rec, c.aggregate.field);
    if v.Ok? { FoldAllKept(c, cap, st.windows, su.windows, open, rec, v.value); }
  }

  lemma FoldAllKept(c: Config, cap: nat, w: map<nat, Groups>, wu: map<nat, Groups>, open: set<nat>, rec: Record,
      v: real)
    requires c.maxGroups == Some(cap) && cap >= 1 && w.Keys == wu.Keys
    requires forall s :: s in w ==> Kept(cap, w[s], wu[s])
    ensures var (a, b) := (FoldAll(c, w, open, rec, v), FoldAll(Uncapped(c), wu, open, rec, v));
      a.Keys == b.Keys && forall s :: s in a ==> Kept(cap, a[s], b[s])
  {
    hide Kept, FoldInto, NewAgg, GroupKeyOf;
    NothingKept(cap);
    forall s | s in open
      ensures Kept(cap, FoldInto(Some(cap), GroupsAt(w, s), GroupKeyOf(rec, c.groupBy), NewAgg(rec, c.groupBy), v),
                   FoldInto(None, GroupsAt(wu, s), GroupKeyOf(rec, c.groupBy), NewAgg(rec, c.groupBy), v))
    {
      FoldKeeps(cap, GroupsAt(w, s), GroupsAt(wu, s), GroupKeyOf(rec, c.groupBy), NewAgg(rec, c.groupBy), v);
    }
  }

  lemma OnRecordKeptCounts(c: Config, cap: nat, st: State, su: State, rec: Record)
    requires c.Valid() && c.maxGroups == Some(cap) && cap >= 1 && !Rejected(c, rec) && st.maxEvent == su.maxEvent
    ensures var (a, b) := (OnRecord(c, st, rec), OnRecord(Uncapped(c), su, rec));
      && a.maxEvent == b.maxEvent
      && a.late - st.late == b.late - su.late
      && a.skipped - st.skipped == b.skipped - su.skipped
  {
    OnRecordAdvances(c, st, rec);
    OnRecordAdvances(Uncapped(c), su, rec);
    var open := OpenStarts(c, rec.ts, Watermark(c, st.maxEvent));
    assert open == OpenStarts(Uncapped(c), rec.ts, Watermark(c, su.maxEvent));
    if open != {} { EveryoneAdmitted(c, su, rec, open); }
    hide OpenStarts, FoldAll;
  }

  lemma NothingKept(cap: nat)
    ensures Kept(cap, map[], map[])
  {
  }

  lemma EveryoneAdmitted(c: Config, su: State, rec: Record, open: set<nat>)
    requires open != {}
    ensures SomeAdmits(Uncapped(c), su.windows, open, GroupKeyOf(rec, c.groupBy))
  {
    var s :| s in open;
    assert Admits(None, GroupsAt(su.windows, s), GroupKeyOf(rec, c.groupBy));
  }

  lemma FireKept(cap: nat, a: seq<Firing>, b: seq<Firing>, st: State, su: State, ready: set<nat>)
    requires KeptFirings(cap, a, b) && st.windows.Keys == su.windows.Keys && ready <= st.windows.Keys
    requires forall s :: s in st.windows ==> Kept(cap, st.windows[s], su.windows[s])
    ensures KeptFirings(cap, a + Fired(st, ready), b + Fired(su, ready))
  {
    hide Kept;
    FiredElements(st, ready);
    FiredElements(su, ready);
    assert |Fired(st, ready)| == |Fired(su, ready)| == |StartsAscending(ready)|;
    assert forall i :: 0 <= i < |Fired(st, ready)| ==> Fired(st, ready)[i].start == Fired(su, ready)[i].start;
  }

  lemma StepKept(c: Config, cap: nat, t: Trace, u: Trace, e: Event)
    requires c.Valid() && c.maxGroups == Some(cap) && cap >= 1
    requires KeptTrace(cap, t, u)
    ensures KeptTrace(cap, Step(c, t, e), Step(Uncapped(c), u, e))
  {
    hide Kept, OnRecord, Fired, KeptFirings;
    if t.failed {
    } else if e.IdleTimeout? {
      FireKept(cap, t.out, u.out, t.st, u.st, t.st.windows.Keys);
    } else if !Rejected(c, e.rec) {
      OnRecordKeptWindows(c, cap, t.st, u.st, e.rec);
      OnRecordKeptCounts(c, cap, t.st, u.st, e.rec);
      var (st, su) := (OnRecord(c, t.st, e.rec), OnRecord(Uncapped(c), u.st, e.rec));
      assert ReadyStarts(c, st) == ReadyStarts(Uncapped(c), su);
      FireKept(cap, t.out, u.out, st, su, ReadyStarts(c, st));
    }
  }

  lemma {:induction false} FeedKept(c: Config, cap: nat, events: seq<Event>)
    requires c.Valid() && c.maxGroups == Some(cap) && cap >= 1
    ensures KeptTrace(cap, Feed(c, events), Feed(Uncapped(c), events))
  {
    hide KeptTrace, Step;
    if events == [] {
      NothingFedYet(cap);
    } else {
      FeedKept(c, cap, events[..|events| - 1]);
      var n := |events| - 1;
      StepKept(c, cap, Feed(c, events[..n]), Feed(Uncapped(c), events[..n]), events[n]);
    }
  }

  lemma NothingFedYet(cap: nat)
    ensures KeptTrace(cap, START, START)
  {
  }

  /** A run capped at `cap` groups fires the same windows at the same steps as the uncapped run of the same events and
      meters the same late and skipped records. Each fired window keeps between one and `cap` of the groups, every
      one of them exactly as the uncapped run has it, and all of them when it is not full. */
  lemma CapOnlySheds(c: Config, cap: nat, events: seq<Event>)
    requires c.Valid() && c.maxGroups == Some(cap) && cap >= 1
    ensures KeptTrace(cap, Feed(c, events), Feed(Uncapped(c), events))
    ensures KeptFirings(cap, Stream(c, events), Stream(Uncapped(c), events))
    ensures forall i :: 0 <= i < |Stream(c, events)| ==> 1 <= |Stream(c, events)[i].groups| <= cap
  {
    FeedKept(c, cap, events);
    StreamSound(c, events);
    var (t, u) := (Feed(c, events), Feed(Uncapped(c), events));
    hide Kept, Feed, Fired;
    FireKept(cap, t.out, u.out, t.st, u.st, t.st.windows.Keys);
  }

  lemma {:induction false} GroupRecordsKept(c: Config, start: nat, a: Groups, b: Groups)
    requires start + c.size < U64_LIMIT
    requires forall k :: k in a ==> k in b && a[k] == b[k]
    ensures GroupRecords(c, start, a) <= GroupRecords(c, start, b)
    decreases |a|
  {
    hide RecordsOf;
    if a != map[] {
      var k := AnyKey(a);
      assert a.Keys == (a - {k}).Keys + {k};
      GroupRecordsKept(c, start, a - {k}, b - {k});
      GroupRecordsAnyOrder(c, start, b, k);
    }
  }

  lemma {:induction false} FiringRecordsKept(c: Config, cap: nat, a: seq<Firing>, b: seq<Firing>)
    requires KeptFirings(cap, a, b)
    requires InRange(c, b)
    ensures InRange(c, a)
    ensures FiringRecords(c, a) <= FiringRecords(c, b)
  {
    if a != [] {
      var n := |a| - 1;
      FiringRecordsKept(c, cap, a[..n], b[..n]);
      GroupRecordsKept(c, a[n].start, a[n].groups, b[n].groups);
    }
  }

  lemma {:induction false} GroupRecordsIgnoreCap(c: Config, start: nat, groups: Groups)
    requires start + c.size < U64_LIMIT
    ensures GroupRecords(c, start, groups) == GroupRecords(Uncapped(c), start, groups)
    decreases |groups|
  {
    if groups != map[] {
      var key := AnyKey(groups);
      assert groups.Keys == (groups - {key}).Keys + {key};
      GroupRecordsIgnoreCap(c, start, groups - {key});
    }
  }

  lemma {:induction false} FiringRecordsIgnoreCap(c: Config, out: seq<Firing>)
    requires InRange(c, out)
    ensures InRange(Uncapped(c), out) && FiringRecords(c, out) == FiringRecords(Uncapped(c), out)
  {
    hide GroupRecords;
    if out != [] {
      var n := |out| - 1;
      FiringRecordsIgnoreCap(c, out[..n]);
      GroupRecordsIgnoreCap(c, out[n].start, out[n].groups);
    }
  }

  /** For the same events a capped window emits a sub-multiset of what an uncapped one emits. */
  lemma CapEmitsLess(c: Config, cap: nat, events: seq<Event>)
    requires c.Valid() && c.maxGroups == Some(cap) && cap >= 1
    requires InRange(Uncapped(c), Stream(Uncapped(c), events))
    ensures InRange(c, Stream(c, events))
    ensures FiringRecords(c, Stream(c, events)) <= FiringRecords(Uncapped(c), Stream(Uncapped(c), events))
  {
    hide Stream, KeptFirings, FiringRecords;
    CapOnlySheds(c, cap, events);
    var all := Stream(Uncapped(c), events);
    assert InRange(c, all);
    FiringRecordsKept(c, cap, Stream(c, events), all);
    FiringRecordsIgnoreCap(c, all);
  }

  lemma {:induction false} SameSamples(c: Config, rs: seq<Record>, s: nat, k: GroupKey)
    requires c.Valid()
    ensures Samples(c, rs, s, k) == Samples(Uncapped(c), rs, s, k)
  {
    if rs != [] { SameSamples(c, rs[..|rs| - 1], s, k); }
  }

  /** A fired group is fired by the uncapped window too, in the same place and with the same contents. */
  lemma FiredUncapped(c: Config, events: seq<Event>, i: nat, k: GroupKey)
    requires c.Valid() && i < |Stream(c, events)| && k in Stream(c, events)[i].groups
    ensures i < |Stream(Uncapped(c), events)|
    ensures var (f, g) := (Stream(c, events)[i], Stream(Uncapped(c), events)[i]);
      f.start == g.start && k in g.groups && f.groups[k] == g.groups[k]
  {
    hide Stream;
    match c.maxGroups
    case None => assert Uncapped(c) == c;
    case Some(cap) =>
      if cap == 0 { NoneAdmitted(c, events, i); } else { CapOnlySheds(c, cap, events); }
  }

  lemma NoneAdmitted(c: Config, events: seq<Event>, i: nat)
    requires c.Valid() && c.maxGroups == Some(0) && i < |Stream(c, events)|
    ensures Stream(c, events)[i].groups == map[]
  {
    hide Stream;
    StreamSound(c, events);
    assert GroupsSound(c, Stream(c, events)[i].groups);
  }

  /** What leaves the node for a fired group, capped or not: the window's bounds, the group's labels, and the aggregate
      of all the group's in-time samples. */
  lemma EmittedRecord(c: Config, events: seq<Event>, i: nat, k: GroupKey)
    requires c.Valid() && Clean(c, events) && NoIdle(events)
    requires i < |Stream(c, events)| && k in Stream(c, events)[i].groups
    requires Stream(c, events)[i].start + c.size < U64_LIMIT
    ensures var f := Stream(c, events)[i];
      var r := OutputOf(c, f.start, f.groups[k]);
      && r.Some?
      && r.value.startTs == Some(f.start) && r.value.ts == f.start + c.size
      && |k| == |c.groupBy| && r.value.attrs == KeyLabels(c.groupBy, k)
      && r.value.resource == map[] && r.value.scope == None
      && Samples(c, Arrivals(events), f.start, k) != []
      && IsAggregate(c.aggregate.op, Samples(c, Arrivals(events), f.start, k), Some(r.value.value))
  {
    hide Stream, Samples, IsAggregate, KeyLabels;
    FiredUncapped(c, events, i, k);
    SameSamples(c, Arrivals(events), Stream(c, events)[i].start, k);
    UncappedRecord(Uncapped(c), events, i, k);
  }
}
