/** What a window run emits, compared with grouping the same records in one batch. */
module WindowTheory {
  import opened Numbers
  import opened Records
  import opened Tallies
  import opened WindowModel

  // ---- The batch reference ----

  function Arrivals(events: seq<Event>): seq<Record> {
    if events == [] then []
    else
      var n := |events| - 1;
      Arrivals(events[..n]) + (if events[n].Arrival? then [events[n].rec] else [])
  }

  function MaxTs(rs: seq<Record>): nat {
    if rs == [] then 0 else Later(MaxTs(rs[..|rs| - 1]), rs[|rs| - 1].ts)
  }

  /** Record `r` belongs in group `k` of the window at `s`, and that window is open when `maxEvent` is the
      newest event time seen before it. */
  ghost predicate Contributes(c: Config, maxEvent: nat, r: Record, s: nat, k: GroupKey)
    requires c.Valid()
  {
    && Numeric(r, c.aggregate.field).Ok?
    && GroupKeyOf(r, c.groupBy) == k
    && s in OpenStarts(c, r.ts, Watermark(c, maxEvent))
  }

  /** The samples of group `k` in the window at `s`: those of its records that were in time. */
  ghost function Samples(c: Config, rs: seq<Record>, s: nat, k: GroupKey): seq<real>
    requires c.Valid()
  {
    if rs == [] then []
    else
      var n := |rs| - 1;
      Samples(c, rs[..n], s, k) +
      (if Contributes(c, MaxTs(rs[..n]), rs[n], s, k) then [Numeric(rs[n], c.aggregate.field).value] else [])
  }

  function Newest(c: Config, t: nat): nat
    requires c.Valid()
  {
    t / c.slide * c.slide
  }

  ghost predicate Clean(c: Config, events: seq<Event>) {
    forall i :: 0 <= i < |events| && events[i].Arrival? ==> !Rejected(c, events[i].rec)
  }

  // ---- Which windows a record falls in ----

  lemma NewestIsStart(c: Config, t: nat)
    requires c.Valid()
    ensures Newest(c, t) in StartsOf(c, t)
    ensures forall s :: s in StartsOf(c, t) ==> s <= Newest(c, t)
  {
    var q := t / c.slide;
    assert t == q * c.slide + t % c.slide;
    DivideUnique(q * c.slide, c.slide, q, 0);
    forall s | s in StartsOf(c, t) ensures s <= Newest(c, t) {
      var p := s / c.slide;
      assert s == p * c.slide;
      assert q < p ==> q * c.slide + c.slide <= p * c.slide by { if q < p { TimesStrict(q, p, c.slide); } }
      assert p <= q ==> p * c.slide <= q * c.slide by { if p <= q { TimesMonotone(p, q, c.slide); } }
    }
  }

  /** A record finds no open window exactly when its newest window has closed. */
  lemma LateIffNewestClosed(c: Config, t: nat, wm: nat)
    requires c.Valid()
    ensures OpenStarts(c, t, wm) == {} <==> Newest(c, t) + c.size <= wm
  {
    NewestIsStart(c, t);
    if Newest(c, t) + c.size > wm { assert Newest(c, t) in OpenStarts(c, t, wm); }
  }

  // ---- Event time ----

  lemma {:induction false} FeedClean(c: Config, events: seq<Event>)
    requires c.Valid() && Clean(c, events)
    ensures !Feed(c, events).failed
  {
    if events != [] {
      FeedClean(c, events[..|events| - 1]);
    }
  }

  /** A record handled without error advances event time to the newest timestamp seen, even when the code
      leaves the clock alone because the record was late. */
  lemma OnRecordAdvances(c: Config, st: State, rec: Record)
    requires c.Valid() && !Rejected(c, rec)
    ensures OnRecord(c, st, rec).maxEvent == Later(st.maxEvent, rec.ts)
  {
    LateIffNewestClosed(c, rec.ts, Watermark(c, st.maxEvent));
    NewestIsStart(c, rec.ts);
  }

  /** Event time is the newest timestamp of all handled records, with or without a cap or idle flushes. */
  lemma {:induction false} EventTimeIsMax(c: Config, events: seq<Event>)
    requires c.Valid() && Clean(c, events)
    ensures Feed(c, events).st.maxEvent == MaxTs(Arrivals(events))
  {
    hide OnRecord;
    if events != [] {
      var n := |events| - 1;
      EventTimeIsMax(c, events[..n]);
      FeedClean(c, events[..n]);
      if events[n].Arrival? {
        OnRecordAdvances(c, Feed(c, events[..n]).st, events[n].rec);
        assert Arrivals(events)[..|Arrivals(events)| - 1] == Arrivals(events[..n]);
      } else {
        assert Arrivals(events) == Arrivals(events[..n]);
      }
    }
  }

  // ---- Conservation: what was emitted and what is still open add up to the batch ----

  function OpenTally(windows: map<nat, Groups>, s: nat, k: GroupKey): Tally {
    if s in windows && k in windows[s] then windows[s][k].tally else NoSamples()
  }

  function FiringTally(f: Firing, s: nat, k: GroupKey): Tally {
    if f.start == s && k in f.groups then f.groups[k].tally else NoSamples()
  }

  /** All fragments emitted for a group of a window, merged. */
  function Emitted(out: seq<Firing>, s: nat, k: GroupKey): Tally {
    if out == [] then NoSamples()
    else Emitted(out[..|out| - 1], s, k).Merge(FiringTally(out[|out| - 1], s, k))
  }

  lemma {:induction false} EmittedConcat(a: seq<Firing>, b: seq<Firing>, s: nat, k: GroupKey)
    ensures Emitted(a + b, s, k) == Emitted(a, s, k).Merge(Emitted(b, s, k))
  {
    hide Tally.Merge;
    if b == [] {
      assert a + b == a;
      MergeEmpty(Emitted(a, s, k));
    } else {
      var n := |b| - 1;
      EmittedConcat(a, b[..n], s, k);
      assert (a + b)[..|a + b| - 1] == a + b[..n];
      MergeAssoc(Emitted(a, s, k), Emitted(b[..n], s, k), FiringTally(b[n], s, k));
    }
  }

  lemma {:induction false} FireAllTally(windows: map<nat, Groups>, starts: seq<nat>, s: nat, k: GroupKey)
    requires forall x :: x in starts ==> x in windows
    requires forall i, j :: 0 <= i < j < |starts| ==> starts[i] < starts[j]
    ensures Emitted(FireAll(windows, starts), s, k) == if s in starts then OpenTally(windows, s, k) else NoSamples()
  {
    hide Tally.Merge;
    if starts != [] {
      var n := |starts| - 1;
      var out := FireAll(windows, starts);
      FireAllTally(windows, starts[..n], s, k);
      assert out[..n] == FireAll(windows, starts[..n]);
      assert starts == starts[..n] + [starts[n]];
      assert out[n] == Firing(starts[n], windows[starts[n]]);
      assert FiringTally(out[n], s, k) == if s == starts[n] then OpenTally(windows, s, k) else NoSamples();
      MergeEmpty(FiringTally(out[n], s, k));
      MergeEmpty(Emitted(out[..n], s, k));
      assert Emitted(out, s, k) == Emitted(out[..n], s, k).Merge(FiringTally(out[n], s, k));
    }
  }

  /** Firing windows moves their tallies from the open side to the emitted side. */
  lemma FireKeepsTotal(st: State, out: seq<Firing>, ready: set<nat>, s: nat, k: GroupKey)
    requires ready <= st.windows.Keys
    ensures Emitted(out + Fired(st, ready), s, k).Merge(OpenTally(Without(st, ready).windows, s, k))
         == Emitted(out, s, k).Merge(OpenTally(st.windows, s, k))
  {
    hide Tally.Merge;
    var starts := StartsAscending(ready);
    var open := OpenTally(Without(st, ready).windows, s, k);
    EmittedConcat(out, Fired(st, ready), s, k);
    FireAllTally(st.windows, starts, s, k);
    MergeAssoc(Emitted(out, s, k), Emitted(Fired(st, ready), s, k), open);
    MergeEmpty(OpenTally(st.windows, s, k));
    assert s in starts <==> s in ready;
    assert Emitted(Fired(st, ready), s, k).Merge(open) == OpenTally(st.windows, s, k);
  }

  lemma OnRecordTally(c: Config, st: State, rec: Record, s: nat, k: GroupKey)
    requires c.Valid() && c.maxGroups.None? && !Rejected(c, rec)
    ensures OpenTally(OnRecord(c, st, rec).windows, s, k) ==
      if Contributes(c, st.maxEvent, rec, s, k)
      then OpenTally(st.windows, s, k).Add(Numeric(rec, c.aggregate.field).value)
      else OpenTally(st.windows, s, k)
  {
    hide Tally.Add;
  }

  /** What a run has emitted for a group of a window, merged with what it still holds. */
  function Total(t: Trace, s: nat, k: GroupKey): Tally {
    Emitted(t.out, s, k).Merge(OpenTally(t.st.windows, s, k))
  }

  lemma NothingYet(s: nat, k: GroupKey)
    ensures Total(START, s, k) == NoSamples()
  {
    hide Tally.Merge;
    MergeEmpty(NoSamples());
  }

  lemma ArrivalTotal(c: Config, t: Trace, rec: Record, s: nat, k: GroupKey)
    requires c.Valid() && c.maxGroups.None? && !t.failed && !Rejected(c, rec)
    ensures Total(Step(c, t, Arrival(rec)), s, k) ==
      if Contributes(c, t.st.maxEvent, rec, s, k)
      then Total(t, s, k).Add(Numeric(rec, c.aggregate.field).value)
      else Total(t, s, k)
  {
    hide Tally.Merge, Tally.Add;
    var st := OnRecord(c, t.st, rec);
    OnRecordTally(c, t.st, rec, s, k);
    FireKeepsTotal(st, t.out, ReadyStarts(c, st), s, k);
    if Contributes(c, t.st.maxEvent, rec, s, k) {
      MergeAdd(Emitted(t.out, s, k), OpenTally(t.st.windows, s, k), Numeric(rec, c.aggregate.field).value);
    }
  }

  lemma IdleTotal(c: Config, t: Trace, s: nat, k: GroupKey)
    requires c.Valid() && !t.failed
    ensures Total(Step(c, t, IdleTimeout), s, k) == Total(t, s, k)
  {
    hide Tally.Merge;
    FireKeepsTotal(t.st, t.out, t.st.windows.Keys, s, k);
  }

  /** For every group of every window: the fragments emitted so far merged with what is still open are the
      aggregate of exactly the group's in-time records, whatever the idle flushes. */
  lemma {:induction false} Conservation(c: Config, events: seq<Event>, s: nat, k: GroupKey)
    requires c.Valid() && c.maxGroups.None? && Clean(c, events)
    ensures Total(Feed(c, events), s, k) == TallyOf(Samples(c, Arrivals(events), s, k))
  {
    hide Tally.Merge, Tally.Add;
    if events == [] {
      NothingYet(s, k);
    } else {
      var n := |events| - 1;
      var t := Feed(c, events[..n]);
      Conservation(c, events[..n], s, k);
      FeedClean(c, events[..n]);
      if events[n].IdleTimeout? {
        IdleTotal(c, t, s, k);
        assert Arrivals(events) == Arrivals(events[..n]);
      } else {
        EventTimeIsMax(c, events[..n]);
        ArrivalTotal(c, t, events[n].rec, s, k);
        SamplesSnoc(c, Arrivals(events[..n]), events[n].rec, s, k);
      }
    }
  }

  lemma SamplesSnoc(c: Config, rs: seq<Record>, r: Record, s: nat, k: GroupKey)
    requires c.Valid()
    ensures TallyOf(Samples(c, rs + [r], s, k)) ==
      if Contributes(c, MaxTs(rs), r, s, k)
      then TallyOf(Samples(c, rs, s, k)).Add(Numeric(r, c.aggregate.field).value)
      else TallyOf(Samples(c, rs, s, k))
  {
    hide Tally.Add;
    assert (rs + [r])[..|rs|] == rs;
    if Contributes(c, MaxTs(rs), r, s, k) {
      TallySnoc(Samples(c, rs, s, k), Numeric(r, c.aggregate.field).value);
    } else {
      assert Samples(c, rs + [r], s, k) == Samples(c, rs, s, k);
    }
  }

  /** Over a whole run the fragments of every group merge to its batch aggregate. */
  lemma FragmentsMergeToBatch(c: Config, events: seq<Event>, s: nat, k: GroupKey)
    requires c.Valid() && c.maxGroups.None? && Clean(c, events)
    ensures Emitted(Stream(c, events), s, k) == TallyOf(Samples(c, Arrivals(events), s, k))
  {
    hide Tally.Merge, Tally.Add;
    var t := Feed(c, events);
    FeedClean(c, events);
    Conservation(c, events, s, k);
    FireKeepsTotal(t.st, t.out, t.st.windows.Keys, s, k);
    MergeEmpty(Emitted(Stream(c, events), s, k));
    assert Without(t.st, t.st.windows.Keys).windows == map[];
  }

  // ---- Accounting ----

  ghost predicate IsLate(c: Config, maxEvent: nat, rec: Record)
    requires c.Valid()
  {
    Numeric(rec, c.aggregate.field).Ok? && Newest(c, rec.ts) + c.size <= Watermark(c, maxEvent)
  }

  /** Records whose newest window had closed when they arrived. */
  ghost function LateCount(c: Config, rs: seq<Record>): nat
    requires c.Valid()
  {
    if rs == [] then 0
    else
      var n := |rs| - 1;
      LateCount(c, rs[..n]) + (if IsLate(c, MaxTs(rs[..n]), rs[n]) then 1 else 0)
  }

  ghost function FaultCount(c: Config, rs: seq<Record>): nat {
    if rs == [] then 0
    else
      var n := |rs| - 1;
      FaultCount(c, rs[..n]) + (if Numeric(rs[n], c.aggregate.field).Err? then 1 else 0)
  }

  lemma OnRecordDrops(c: Config, st: State, rec: Record)
    requires c.Valid() && c.maxGroups.None? && !Rejected(c, rec)
    ensures var after := OnRecord(c, st, rec);
      && after.skipped == st.skipped + (if Numeric(rec, c.aggregate.field).Err? then 1 else 0)
      && after.late == st.late + (if IsLate(c, st.maxEvent, rec) then 1 else 0)
      && after.capped == st.capped
  {
    var open := OpenStarts(c, rec.ts, Watermark(c, st.maxEvent));
    LateIffNewestClosed(c, rec.ts, Watermark(c, st.maxEvent));
    if open != {} {
      var s :| s in open;
      assert Admits(c.maxGroups, GroupsAt(st.windows, s), GroupKeyOf(rec, c.groupBy));
    }
  }

  /** Every arrival is metered as the batch says: skipped on a fault, late when its newest window has closed,
      never capped without a cap. Idle flushes change none of it. */
  lemma {:induction false} DropsMatchBatch(c: Config, events: seq<Event>)
    requires c.Valid() && c.maxGroups.None? && Clean(c, events)
    ensures Metered(Feed(c, events).st) == Feed(c, events).st
    ensures Feed(c, events).drops == Drops(FaultCount(c, Arrivals(events)), LateCount(c, Arrivals(events)), 0)
  {
    hide IsLate, OnRecord;
    if events != [] {
      var n := |events| - 1;
      DropsMatchBatch(c, events[..n]);
      FeedClean(c, events[..n]);
      if events[n].IdleTimeout? {
        assert Arrivals(events) == Arrivals(events[..n]);
      } else {
        EventTimeIsMax(c, events[..n]);
        OnRecordDrops(c, Feed(c, events[..n]).st, events[n].rec);
        assert Arrivals(events)[..|Arrivals(events)| - 1] == Arrivals(events[..n]);
      }
    }
  }
}
