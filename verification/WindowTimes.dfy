/** When windows fire and what becomes of each record, said by timestamps, fields and the configuration alone. */
module WindowTimes {
  import opened Wrappers
  import opened Numbers
  import opened Records
  import opened Tallies
  import opened WindowModel
  import opened WindowTheory
  import opened WindowRuns
  import opened WindowFlush

  // ---- Event time ----

  /** Event time is a timestamp of the records so far, and none is newer; before any it is zero. */
  lemma {:induction false} MaxTsIsNewest(rs: seq<Record>)
    ensures forall r :: r in rs ==> r.ts <= MaxTs(rs)
    ensures if rs == [] then MaxTs(rs) == 0 else exists r :: r in rs && r.ts == MaxTs(rs)
  {
    if rs != [] {
      var n := |rs| - 1;
      MaxTsIsNewest(rs[..n]);
      assert rs == rs[..n] + [rs[n]];
      assert rs[n] in rs;
      if n > 0 {
        var r :| r in rs[..n] && r.ts == MaxTs(rs[..n]);
        assert r in rs;
      }
    }
  }

  /** A window is past once event time has reached its end and the lateness after it. */
  predicate Past(c: Config, newest: nat, s: nat) {
    s + c.size + c.lateness <= newest
  }

  lemma PastIffReached(c: Config, newest: nat, s: nat)
    requires c.Valid()
    ensures Past(c, newest, s) <==> s + c.size <= Watermark(c, newest)
  {
  }

  // ---- Which samples a group takes ----

  /** The values of the group's records that lie in the window and came before it was past. */
  ghost function TimelySamples(c: Config, rs: seq<Record>, s: nat, k: GroupKey): seq<real>
    requires c.Valid()
  {
    if rs == [] then []
    else
      var n := |rs| - 1;
      var r := rs[n];
      var takes :=
        && Numeric(r, c.aggregate.field).Ok? && GroupKeyOf(r, c.groupBy) == k
        && s % c.slide == 0 && s <= r.ts < s + c.size
        && !Past(c, MaxTs(rs[..n]), s);
      TimelySamples(c, rs[..n], s, k) + (if takes then [Numeric(r, c.aggregate.field).value] else [])
  }

  lemma {:induction false} SamplesByTime(c: Config, rs: seq<Record>, s: nat, k: GroupKey)
    requires c.Valid()
    ensures Samples(c, rs, s, k) == TimelySamples(c, rs, s, k)
  {
    hide Watermark, Past, Numeric, GroupKeyOf;
    if rs != [] {
      var n := |rs| - 1;
      SamplesByTime(c, rs[..n], s, k);
      PastIffReached(c, MaxTs(rs[..n]), s);
    }
  }

  // ---- When a window fires ----

  ghost predicate FiredIn(out: seq<Firing>, s: nat) {
    exists i :: 0 <= i < |out| && out[i].start == s
  }

  lemma SampledIsThere(c: Config, events: seq<Event>, s: nat, k: GroupKey)
    requires c.Valid() && c.maxGroups.None? && Clean(c, events) && NoIdle(events)
    requires Samples(c, Arrivals(events), s, k) != []
    ensures FiredIn(Feed(c, events).out, s) || s in Feed(c, events).st.windows
  {
    hide Feed, Samples, TallyOf, Tally.Merge;
    Conservation(c, events, s, k);
    TallySum(Samples(c, Arrivals(events), s, k));
    var t := Feed(c, events);
    if !FiredIn(t.out, s) {
      EmittedNever(t.out, s, k);
      MergeEmpty(OpenTally(t.st.windows, s, k));
    }
  }

  lemma UncappedFiredIff(c: Config, events: seq<Event>, s: nat, k: GroupKey)
    requires c.Valid() && c.maxGroups.None? && Clean(c, events) && NoIdle(events)
    requires TimelySamples(c, Arrivals(events), s, k) != []
    ensures FiredIn(Feed(c, events).out, s) <==> Past(c, MaxTs(Arrivals(events)), s)
    ensures s in Feed(c, events).st.windows <==> !Past(c, MaxTs(Arrivals(events)), s)
  {
    hide Feed, Samples, TimelySamples, Watermark, Past;
    SamplesByTime(c, Arrivals(events), s, k);
    SampledIsThere(c, events, s, k);
    FeedSplit(c, events);
    EventTimeIsMax(c, events);
    PastIffReached(c, MaxTs(Arrivals(events)), s);
  }

  lemma {:induction false} SameTimely(c: Config, rs: seq<Record>, s: nat, k: GroupKey)
    requires c.Valid()
    ensures TimelySamples(c, rs, s, k) == TimelySamples(Uncapped(c), rs, s, k)
  {
    if rs != [] { SameTimely(c, rs[..|rs| - 1], s, k); }
  }

  /** At every point of a run without idle flushes, a window some record has reached in time has fired exactly if the
      newest timestamp so far is at or after its end plus the lateness, and is open otherwise; a cap makes no
      difference. */
  lemma FiredIff(c: Config, events: seq<Event>, s: nat, k: GroupKey)
    requires c.Valid() && c.maxGroups != Some(0) && Clean(c, events) && NoIdle(events)
    requires TimelySamples(c, Arrivals(events), s, k) != []
    ensures FiredIn(Feed(c, events).out, s) <==> s + c.size + c.lateness <= MaxTs(Arrivals(events))
    ensures s in Feed(c, events).st.windows <==> MaxTs(Arrivals(events)) < s + c.size + c.lateness
  {
    hide Feed, TimelySamples, Stream;
    if c.maxGroups.None? {
      UncappedFiredIff(c, events, s, k);
    } else {
      var u := Uncapped(c);
      SameTimely(c, Arrivals(events), s, k);
      UncappedFiredIff(u, events, s, k);
      CapOnlySheds(c, c.maxGroups.value, events);
      SameFirings(c.maxGroups.value, Feed(c, events), Feed(u, events), s);
    }
  }

  lemma SameFirings(cap: nat, t: Trace, u: Trace, s: nat)
    requires KeptTrace(cap, t, u)
    ensures FiredIn(t.out, s) <==> FiredIn(u.out, s)
    ensures s in t.st.windows <==> s in u.st.windows
  {
    hide Kept;
    if i :| 0 <= i < |t.out| && t.out[i].start == s { assert u.out[i].start == s; }
    if i :| 0 <= i < |u.out| && u.out[i].start == s { assert t.out[i].start == s; }
  }

  // ---- Which records are late ----

  /** The record has a number, and the newest window it lies in is past. */
  predicate TooLate(c: Config, newest: nat, r: Record)
    requires c.Valid()
  {
    Numeric(r, c.aggregate.field).Ok? && Newest(c, r.ts) + c.size + c.lateness <= newest
  }

  lemma TooLateIff(c: Config, newest: nat, r: Record)
    requires c.Valid()
    ensures TooLate(c, newest, r) <==> IsLate(c, newest, r)
  {
    hide Watermark, Numeric, Newest;
    PastIffReached(c, newest, Newest(c, r.ts));
  }

  /** How many records were too late when they came. */
  ghost function LateRecords(c: Config, rs: seq<Record>): nat
    requires c.Valid()
  {
    if rs == [] then 0
    else
      var n := |rs| - 1;
      LateRecords(c, rs[..n]) + (if TooLate(c, MaxTs(rs[..n]), rs[n]) then 1 else 0)
  }

  lemma {:induction false} LateByTime(c: Config, rs: seq<Record>)
    requires c.Valid()
    ensures LateCount(c, rs) == LateRecords(c, rs)
  {
    hide TooLate, IsLate;
    if rs != [] {
      var n := |rs| - 1;
      LateByTime(c, rs[..n]);
      TooLateIff(c, MaxTs(rs[..n]), rs[n]);
    }
  }

  /** The metered late drops of any clean run, with idle flushes and a cap or without, are exactly those records. */
  lemma LateExactly(c: Config, events: seq<Event>)
    requires c.Valid() && c.maxGroups != Some(0) && Clean(c, events)
    ensures Feed(c, events).drops.late == LateRecords(c, Arrivals(events))
  {
    hide Feed, LateRecords, LateCount, Stream, KeptFirings;
    DropsMatchBatch(Uncapped(c), events);
    LateByTime(Uncapped(c), Arrivals(events));
    SameLate(c, Arrivals(events));
    if c.maxGroups.None? {
      assert Uncapped(c) == c;
    } else {
      CapOnlySheds(c, c.maxGroups.value, events);
    }
  }

  lemma {:induction false} SameLate(c: Config, rs: seq<Record>)
    requires c.Valid()
    ensures LateRecords(c, rs) == LateRecords(Uncapped(c), rs)
  {
    if rs != [] { SameLate(c, rs[..|rs| - 1]); }
  }

  // ---- What becomes of one record ----

  /** A window has room for group `k`: it holds the group, or fewer groups than the cap. */
  predicate Room(c: Config, windows: map<nat, Groups>, s: nat, k: GroupKey) {
    var groups := if s in windows then windows[s] else map[];
    k in groups || c.maxGroups.None? || |groups| < c.maxGroups.value
  }

  function SampleCount(windows: map<nat, Groups>, s: nat, k: GroupKey): nat {
    if s in windows && k in windows[s] then windows[s][k].tally.count else 0
  }

  /** The windows a record lies in that are not past. */
  ghost predicate Reaches(c: Config, newest: nat, r: Record, s: nat)
    requires c.Valid()
  {
    s % c.slide == 0 && s <= r.ts < s + c.size && !Past(c, newest, s)
  }

  /** How a record is counted, or taken. */
  datatype Fate = Skipped | Late | Capped | Taken

  ghost function FateOf(c: Config, st: State, r: Record): Fate
    requires c.Valid()
  {
    if Numeric(r, c.aggregate.field).Err? then Skipped
    else if forall s :: !Reaches(c, st.maxEvent, r, s) then Late
    else if forall s :: Reaches(c, st.maxEvent, r, s) ==> !Room(c, st.windows, s, GroupKeyOf(r, c.groupBy)) then Capped
    else Taken
  }

  lemma ReachesIffOpen(c: Config, newest: nat, r: Record)
    requires c.Valid()
    ensures forall s :: Reaches(c, newest, r, s) <==> s in OpenStarts(c, r.ts, Watermark(c, newest))
  {
    hide Past, Watermark;
    forall s: nat ensures Past(c, newest, s) <==> s + c.size <= Watermark(c, newest) { PastIffReached(c, newest, s); }
  }

  lemma RoomIffAdmits(c: Config, windows: map<nat, Groups>, s: nat, k: GroupKey)
    ensures Room(c, windows, s, k) <==> Admits(c.maxGroups, GroupsAt(windows, s), k)
  {
  }

  /** Exactly one of the counters moves, or none and the record is taken. */
  lemma OneFate(c: Config, st: State, r: Record)
    requires c.Valid() && !Rejected(c, r)
    ensures var (after, fate) := (OnRecord(c, st, r), FateOf(c, st, r));
      && after.skipped == st.skipped + (if fate.Skipped? then 1 else 0)
      && after.late == st.late + (if fate.Late? then 1 else 0)
      && after.capped == st.capped + (if fate.Capped? then 1 else 0)
  {
    hide FoldAll, OpenStarts, Watermark, Numeric, GroupKeyOf, Reaches, Room, Admits;
    ReachesIffOpen(c, st.maxEvent, r);
    forall s ensures Room(c, st.windows, s, GroupKeyOf(r, c.groupBy))
                <==> Admits(c.maxGroups, GroupsAt(st.windows, s), GroupKeyOf(r, c.groupBy)) {
      RoomIffAdmits(c, st.windows, s, GroupKeyOf(r, c.groupBy));
    }
  }

  /** The record's group gains one sample in each window it reaches that has room, and nothing else gains or loses. */
  lemma TakenWhere(c: Config, st: State, r: Record, s: nat, k: GroupKey)
    requires c.Valid() && !Rejected(c, r)
    ensures SampleCount(OnRecord(c, st, r).windows, s, k) == SampleCount(st.windows, s, k) +
      (if Numeric(r, c.aggregate.field).Ok? && k == GroupKeyOf(r, c.groupBy)
          && Reaches(c, st.maxEvent, r, s) && Room(c, st.windows, s, k) then 1 else 0)
  {
    hide OpenStarts, Watermark, Numeric, GroupKeyOf, Reaches, LabelsOf;
    ReachesIffOpen(c, st.maxEvent, r);
    OnRecordWindows(c, st, r);
    hide OnRecord;
  }

  ghost function TakenCount(c: Config, events: seq<Event>): nat
    requires c.Valid()
  {
    if events == [] then 0
    else
      var n := |events| - 1;
      TakenCount(c, events[..n]) +
      (if events[n].Arrival? && FateOf(c, Feed(c, events[..n]).st, events[n].rec).Taken? then 1 else 0)
  }

  ghost function CappedCount(c: Config, events: seq<Event>): nat
    requires c.Valid()
  {
    if events == [] then 0
    else
      var n := |events| - 1;
      CappedCount(c, events[..n]) +
      (if events[n].Arrival? && FateOf(c, Feed(c, events[..n]).st, events[n].rec).Capped? then 1 else 0)
  }

  /** Over a clean run every record is taken or counted once, and the capped drops are exactly the records that found
      every window they reached full. */
  lemma {:induction false} EveryArrivalCounted(c: Config, events: seq<Event>)
    requires c.Valid() && Clean(c, events)
    ensures var d := Feed(c, events).drops;
      && |Arrivals(events)| == TakenCount(c, events) + d.skipped + d.late + d.capped
      && d.capped == CappedCount(c, events)
    ensures Metered(Feed(c, events).st) == Feed(c, events).st && !Feed(c, events).failed
  {
    hide OnRecord, FateOf, Fired, ReadyStarts;
    if events != [] {
      var n := |events| - 1;
      EveryArrivalCounted(c, events[..n]);
      if events[n].Arrival? { OneFate(c, Feed(c, events[..n]).st, events[n].rec); }
    }
  }

  // ---- Faults ----

  /** The aggregated field is one the record lacks. */
  predicate Lacks(c: Config, r: Record) {
    c.aggregate.field.Some? && c.aggregate.field.value != VALUE
    && c.aggregate.field.value !in r.attrs && c.aggregate.field.value !in r.resource
  }

  /** The record has the aggregated field, as a boolean or a text. */
  predicate Misfits(c: Config, r: Record) {
    && c.aggregate.field.Some? && c.aggregate.field.value != VALUE
    && var f := c.aggregate.field.value;
    if f in r.attrs then r.attrs[f].Bool? || r.attrs[f].Text?
    else f in r.resource && (r.resource[f].Bool? || r.resource[f].Text?)
  }

  /** The record lacks the field and a missing field is an error, or misfits and an invalid one is. */
  predicate Fatal(c: Config, r: Record) {
    (Lacks(c, r) && c.aggregate.onMissing.Error?) || (Misfits(c, r) && c.aggregate.onInvalid.Error?)
  }

  /** A run fails exactly at such a record. */
  lemma {:induction false} FailsIff(c: Config, events: seq<Event>)
    requires c.Valid()
    ensures Feed(c, events).failed <==> exists i :: 0 <= i < |events| && events[i].Arrival? && Fatal(c, events[i].rec)
  {
    hide OnRecord, Fired, ReadyStarts, Rejected, Fatal;
    if events != [] {
      var n := |events| - 1;
      FailsIff(c, events[..n]);
      if events[n].Arrival? { RejectedIff(c, events[n].rec); }
      assert events == events[..n] + [events[n]];
    }
  }

  lemma RejectedIff(c: Config, r: Record)
    ensures Rejected(c, r) <==> Fatal(c, r)
  {
  }

  /** A failed run emits what had fired before the record it failed at, and nothing of what was open. */
  lemma {:induction false} FailedStops(c: Config, events: seq<Event>, i: nat)
    requires c.Valid() && i < |events| && events[i].Arrival? && Rejected(c, events[i].rec)
    requires !Feed(c, events[..i]).failed
    ensures Stream(c, events) == Feed(c, events[..i]).out && Feed(c, events).drops == Feed(c, events[..i]).drops
  {
    hide Fired, ReadyStarts, OnRecord;
    FailedStays(c, events, i, |events|);
    assert events[..|events|] == events;
  }

  lemma {:induction false} FailedStays(c: Config, events: seq<Event>, i: nat, j: nat)
    requires c.Valid() && i < j <= |events| && events[i].Arrival? && Rejected(c, events[i].rec)
    requires !Feed(c, events[..i]).failed
    ensures Feed(c, events[..j]) == Feed(c, events[..i]).(failed := true)
  {
    hide Fired, ReadyStarts, OnRecord;
    assert events[..j][..j - 1] == events[..j - 1];
    if j > i + 1 { FailedStays(c, events, i, j - 1); }
  }

  // ---- Idle timeouts ----

  /** An idle timeout fires every open window just as it is, earliest first, and leaves none; event time and the drops
      stay as they were. */
  lemma IdleFiresAll(c: Config, events: seq<Event>)
    requires c.Valid() && !Feed(c, events).failed
    ensures var (t, u) := (Feed(c, events), Feed(c, events + [IdleTimeout]));
      && u.st.windows == map[] && u.st.maxEvent == t.st.maxEvent && u.drops == t.drops && !u.failed
      && |u.out| == |t.out| + |t.st.windows| && u.out[..|t.out|] == t.out
      && (forall i :: |t.out| <= i < |u.out| ==>
            u.out[i].start in t.st.windows && u.out[i].groups == t.st.windows[u.out[i].start])
      && (forall i, j :: |t.out| <= i < j < |u.out| ==> u.out[i].start < u.out[j].start)
  {
    hide Fired, Feed;
    var t := Feed(c, events);
    FlushFeed(c, events);
    FiredElements(t.st, t.st.windows.Keys);
    FiredLength(t.st, t.st.windows.Keys);
    Appended(t.out, Fired(t.st, t.st.windows.Keys));
  }

  lemma FlushFeed(c: Config, events: seq<Event>)
    requires c.Valid() && !Feed(c, events).failed
    ensures var (t, u) := (Feed(c, events), Feed(c, events + [IdleTimeout]));
      && u.st.windows == map[] && u.st.maxEvent == t.st.maxEvent && u.drops == t.drops && !u.failed
      && u.out == t.out + Fired(t.st, t.st.windows.Keys)
  {
    hide Fired, OnRecord;
    var t := Feed(c, events);
    assert (events + [IdleTimeout])[..|events|] == events;
    assert t.st.windows - t.st.windows.Keys == map[];
  }

  lemma Appended(a: seq<Firing>, b: seq<Firing>)
    ensures (a + b)[..|a|] == a && forall i :: |a| <= i < |a + b| ==> (a + b)[i] == b[i - |a|]
  {
  }

  lemma FiredLength(st: State, ready: set<nat>)
    requires ready <= st.windows.Keys
    ensures |Fired(st, ready)| == |ready|
  {
    hide StartsAscending;
    var r := StartsAscending(ready);
    DistinctCount(r, ready);
  }

  lemma {:induction false} DistinctCount(r: seq<nat>, xs: set<nat>)
    requires (forall i, j :: 0 <= i < j < |r| ==> r[i] < r[j]) && forall x :: x in r <==> x in xs
    ensures |xs| == |r|
  {
    if r == [] {
      assert xs == {};
    } else {
      var n := |r| - 1;
      assert r == r[..n] + [r[n]];
      assert r[n] in r;
      DistinctCount(r[..n], xs - {r[n]});
    }
  }
}
