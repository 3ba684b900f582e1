/** The window's promises over whole runs: streaming equals batch, in any order, under a cap, across idle flushes. */
module WindowRuns {
  import opened Wrappers
  import opened Ordered
  import opened Records
  import opened Tallies
  import opened WindowModel
  import opened WindowTheory

  // ---- Labels are determined by the key ----

  function AttrOf(p: KeyPart): Option<AttrValue> {
    match p
    case BoolPart(b) => Some(Bool(b))
    case IntPart(i) => Some(Int(i))
    case DoublePart(bits) => Some(Double(bits))
    case TextPart(s) => Some(Text(s))
    case Absent => None
  }

  function KeyLabels(groupBy: seq<Str>, key: GroupKey): Attrs
    requires |key| == |groupBy|
  {
    if groupBy == [] then map[]
    else
      var n := |groupBy| - 1;
      var labels := KeyLabels(groupBy[..n], key[..n]);
      match AttrOf(key[n])
      case None => labels
      case Some(v) => labels[groupBy[n] := v]
  }

  lemma {:induction false} LabelsAreKeyLabels(rec: Record, groupBy: seq<Str>)
    ensures LabelsOf(rec, groupBy) == KeyLabels(groupBy, GroupKeyOf(rec, groupBy))
  {
    if groupBy != [] {
      var n := |groupBy| - 1;
      LabelsAreKeyLabels(rec, groupBy[..n]);
      assert GroupKeyOf(rec, groupBy[..n]) == GroupKeyOf(rec, groupBy)[..n];
    }
  }

  lemma {:induction false} LabelsHoldFields(rec: Record, groupBy: seq<Str>)
    ensures forall f :: f in LabelsOf(rec, groupBy) ==> Lookup(rec, f) == Some(LabelsOf(rec, groupBy)[f])
    ensures forall i :: 0 <= i < |groupBy| && Lookup(rec, groupBy[i]).Some? ==> groupBy[i] in LabelsOf(rec, groupBy)
  {
    if groupBy != [] {
      LabelsHoldFields(rec, groupBy[..|groupBy| - 1]);
    }
  }

  /** The group that labels belong to: labels lose nothing of the key. */
  function LabelKey(labels: Attrs, groupBy: seq<Str>): GroupKey {
    seq(|groupBy|, i requires 0 <= i < |groupBy| =>
      PartOf(if groupBy[i] in labels then Some(labels[groupBy[i]]) else None))
  }

  lemma LabelsNameGroup(rec: Record, groupBy: seq<Str>)
    ensures LabelKey(LabelsOf(rec, groupBy), groupBy) == GroupKeyOf(rec, groupBy)
  {
    LabelsHoldFields(rec, groupBy);
    var labels := LabelsOf(rec, groupBy);
    forall i | 0 <= i < |groupBy| ensures LabelKey(labels, groupBy)[i] == GroupKeyOf(rec, groupBy)[i] {
      assert groupBy[i] in labels <==> Lookup(rec, groupBy[i]).Some?;
    }
  }

  // ---- What every held or fired group satisfies ----

  /** A group carries its key's labels and at least one sample; a window has a group, and no more than the cap. */
  ghost predicate GroupsSound(c: Config, groups: Groups) {
    && (forall k :: k in groups ==> AggSound(c, k, groups[k]))
    && SizeSound(c, groups)
  }

  ghost predicate AggSound(c: Config, k: GroupKey, agg: Agg) {
    && |k| == |c.groupBy| && agg.attrs == KeyLabels(c.groupBy, k) && LabelKey(agg.attrs, c.groupBy) == k
    && agg.tally.count >= 1
  }

  ghost predicate SizeSound(c: Config, groups: Groups) {
    && (c.maxGroups == Some(0) || groups != map[])
    && (c.maxGroups.Some? ==> |groups| <= c.maxGroups.value)
  }

  ghost predicate TraceSound(c: Config, t: Trace) {
    && (forall s :: s in t.st.windows ==> GroupsSound(c, t.st.windows[s]))
    && (forall i :: 0 <= i < |t.out| ==> GroupsSound(c, t.out[i].groups))
  }

  lemma FoldKeepsSound(c: Config, groups: Groups, rec: Record, v: real)
    requires groups == map[] || GroupsSound(c, groups)
    ensures GroupsSound(c, FoldInto(c.maxGroups, groups, GroupKeyOf(rec, c.groupBy), NewAgg(rec, c.groupBy), v))
  {
    LabelsAreKeyLabels(rec, c.groupBy);
    LabelsNameGroup(rec, c.groupBy);
    FoldKeepsSoundGroup(c, groups, GroupKeyOf(rec, c.groupBy), NewAgg(rec, c.groupBy), v);
  }

  lemma FoldKeepsSoundGroup(c: Config, groups: Groups, key: GroupKey, agg: Agg, v: real)
    requires groups == map[] || GroupsSound(c, groups)
    requires |key| == |c.groupBy| && agg.attrs == KeyLabels(c.groupBy, key) && LabelKey(agg.attrs, c.groupBy) == key
    ensures GroupsSound(c, FoldInto(c.maxGroups, groups, key, agg, v))
  {
    if Admits(c.maxGroups, groups, key) {
      var was := if key in groups then groups[key] else agg;
      AddCounts(was.tally, v);
      UpdateKeepsSound(c, groups, key, was.(tally := was.tally.Add(v)));
    }
  }

  lemma UpdateKeepsSound(c: Config, groups: Groups, key: GroupKey, agg: Agg)
    requires groups == map[] || GroupsSound(c, groups)
    requires AggSound(c, key, agg) && Admits(c.maxGroups, groups, key)
    ensures GroupsSound(c, groups[key := agg])
  {
    hide AggSound;
    SizeAfter(c, groups, key, agg);
    hide SizeSound;
  }

  lemma SizeAfter(c: Config, groups: Groups, key: GroupKey, agg: Agg)
    requires groups == map[] || SizeSound(c, groups)
    requires Admits(c.maxGroups, groups, key)
    ensures SizeSound(c, groups[key := agg])
  {
    assert key in groups[key := agg];
  }

  lemma AddCounts(t: Tally, v: real)
    ensures t.Add(v).count == t.count + 1
  {
  }

  lemma OnRecordKeepsSound(c: Config, st: State, rec: Record)
    requires c.Valid() && !Rejected(c, rec)
    requires forall s :: s in st.windows ==> GroupsSound(c, st.windows[s])
    ensures forall s :: s in OnRecord(c, st, rec).windows ==> GroupsSound(c, OnRecord(c, st, rec).windows[s])
  {
    hide GroupsSound, FoldInto;
    var after := OnRecord(c, st, rec);
    forall s | s in after.windows ensures GroupsSound(c, after.windows[s]) {
      var v := Numeric(rec, c.aggregate.field);
      if v.Ok? { FoldKeepsSound(c, GroupsAt(st.windows, s), rec, v.value); }
    }
  }

  lemma FiredElements(st: State, ready: set<nat>)
    requires ready <= st.windows.Keys
    ensures forall i :: 0 <= i < |Fired(st, ready)| ==>
      var f := Fired(st, ready)[i]; f.start in ready && f.groups == st.windows[f.start]
    ensures forall i, j :: 0 <= i < j < |Fired(st, ready)| ==> Fired(st, ready)[i].start < Fired(st, ready)[j].start
  {
    var starts := StartsAscending(ready);
    assert forall i :: 0 <= i < |starts| ==> starts[i] in starts;
  }

  lemma {:induction false} FeedSound(c: Config, events: seq<Event>)
    requires c.Valid()
    ensures TraceSound(c, Feed(c, events))
  {
    hide OnRecord, GroupsSound, Fired;
    if events != [] {
      var n := |events| - 1;
      FeedSound(c, events[..n]);
      var t := Feed(c, events[..n]);
      if !t.failed && events[n].IdleTimeout? {
        FiredElements(t.st, t.st.windows.Keys);
      } else if !t.failed && !Rejected(c, events[n].rec) {
        OnRecordKeepsSound(c, t.st, events[n].rec);
        var st := OnRecord(c, t.st, events[n].rec);
        FiredElements(st, ReadyStarts(c, st));
      }
    }
  }

  lemma StreamSound(c: Config, events: seq<Event>)
    requires c.Valid()
    ensures forall i :: 0 <= i < |Stream(c, events)| ==> GroupsSound(c, Stream(c, events)[i].groups)
  {
    hide GroupsSound, Fired;
    FeedSound(c, events);
    FiredElements(Feed(c, events).st, Feed(c, events).st.windows.Keys);
  }

  // ---- Without idle flushes every window fires once, in order ----

  ghost predicate NoIdle(events: seq<Event>) {
    forall i :: 0 <= i < |events| ==> events[i].Arrival?
  }

  ghost predicate Ascends(out: seq<Firing>) {
    forall i, j :: 0 <= i < j < |out| ==> out[i].start < out[j].start
  }

  /** Fired windows end by the watermark, open ones end after it. */
  ghost predicate Split(c: Config, t: Trace) {
    && Ascends(t.out)
    && (forall i :: 0 <= i < |t.out| ==> t.out[i].start + c.size <= Watermark(c, t.st.maxEvent))
    && (forall s :: s in t.st.windows ==> Watermark(c, t.st.maxEvent) < s + c.size)
  }

  lemma OnRecordOpens(c: Config, st: State, rec: Record)
    requires c.Valid() && !Rejected(c, rec)
    requires forall s :: s in st.windows ==> Watermark(c, st.maxEvent) < s + c.size
    ensures forall s :: s in OnRecord(c, st, rec).windows ==> Watermark(c, st.maxEvent) < s + c.size
    ensures Watermark(c, st.maxEvent) <= Watermark(c, OnRecord(c, st, rec).maxEvent)
  {
    hide OnRecord, FoldInto, StartsOf, Numeric, GroupKeyOf, NewAgg;
    OnRecordWindows(c, st, rec);
    OnRecordAdvances(c, st, rec);
  }

  lemma FireKeepsSplit(c: Config, out: seq<Firing>, st: State, before: nat)
    requires Ascends(out)
    requires forall i :: 0 <= i < |out| ==> out[i].start + c.size <= before
    requires forall s :: s in st.windows ==> before < s + c.size
    requires before <= Watermark(c, st.maxEvent)
    ensures var ready := ReadyStarts(c, st);
      Split(c, Trace(Metered(Without(st, ready)), out + Fired(st, ready), Drops(0, 0, 0), false))
  {
    hide Fired;
    FiredElements(st, ReadyStarts(c, st));
  }

  lemma {:induction false} FeedSplit(c: Config, events: seq<Event>)
    requires c.Valid() && NoIdle(events)
    ensures Split(c, Feed(c, events))
  {
    hide OnRecord, Fired, ReadyStarts;
    if events != [] {
      var n := |events| - 1;
      FeedSplit(c, events[..n]);
      var t := Feed(c, events[..n]);
      if !t.failed && !Rejected(c, events[n].rec) {
        OnRecordOpens(c, t.st, events[n].rec);
        FireKeepsSplit(c, t.out, OnRecord(c, t.st, events[n].rec), Watermark(c, t.st.maxEvent));
      }
    }
  }

  lemma StreamAscends(c: Config, events: seq<Event>)
    requires c.Valid() && NoIdle(events)
    ensures Ascends(Stream(c, events))
  {
    hide Fired;
    var t := Feed(c, events);
    FeedSplit(c, events);
    FiredElements(t.st, t.st.windows.Keys);
  }

  // ---- Streaming refines batch ----

  lemma {:induction false} EmittedOnce(out: seq<Firing>, i: nat, k: GroupKey)
    requires Ascends(out) && i < |out| && k in out[i].groups
    ensures Emitted(out, out[i].start, k) == out[i].groups[k].tally
  {
    hide Tally.Merge;
    var n := |out| - 1;
    if i == n {
      EmittedNever(out[..n], out[i].start, k);
      MergeEmpty(FiringTally(out[n], out[i].start, k));
    } else {
      EmittedOnce(out[..n], i, k);
      MergeEmpty(out[i].groups[k].tally);
    }
  }

  lemma {:induction false} EmittedNever(out: seq<Firing>, s: nat, k: GroupKey)
    requires forall i :: 0 <= i < |out| && k in out[i].groups ==> out[i].start != s
    ensures Emitted(out, s, k) == NoSamples()
  {
    hide Tally.Merge;
    if out != [] {
      EmittedNever(out[..|out| - 1], s, k);
      MergeEmpty(NoSamples());
    }
  }

  /** `out` is the batch group-by of `rs`: one firing per window, earliest first, holding exactly the groups that
      have samples, each with the tally of all its samples. */
  ghost predicate IsBatch(c: Config, rs: seq<Record>, out: seq<Firing>)
    requires c.Valid()
  {
    && Ascends(out)
    && (forall i :: 0 <= i < |out| ==> out[i].groups != map[])
    && (forall i, k :: 0 <= i < |out| && k in out[i].groups ==>
          && Samples(c, rs, out[i].start, k) != []
          && out[i].groups[k].tally == TallyOf(Samples(c, rs, out[i].start, k)))
    && (forall s, k :: Samples(c, rs, s, k) != [] ==> Fires(out, s, k))
  }

  ghost predicate Fires(out: seq<Firing>, s: nat, k: GroupKey) {
    exists i :: 0 <= i < |out| && out[i].start == s && k in out[i].groups
  }

  /** The windows of an uncapped run without idle flushes are exactly the batch group-by of its records. */
  lemma StreamIsBatch(c: Config, events: seq<Event>)
    requires c.Valid() && c.maxGroups.None? && Clean(c, events) && NoIdle(events)
    ensures IsBatch(c, Arrivals(events), Stream(c, events))
  {
    var out, rs := Stream(c, events), Arrivals(events);
    StreamAscends(c, events);
    StreamSound(c, events);
    hide Stream, Samples, TallyOf, Emitted;
    forall i, k | 0 <= i < |out| && k in out[i].groups
      ensures Samples(c, rs, out[i].start, k) != []
      ensures out[i].groups[k].tally == TallyOf(Samples(c, rs, out[i].start, k))
    {
      EmittedOnce(out, i, k);
      FragmentsMergeToBatch(c, events, out[i].start, k);
      TallySum(Samples(c, rs, out[i].start, k));
    }
    forall s, k | Samples(c, rs, s, k) != [] ensures Fires(out, s, k) {
      FragmentsMergeToBatch(c, events, s, k);
      TallySum(Samples(c, rs, s, k));
      if forall i :: 0 <= i < |out| && k in out[i].groups ==> out[i].start != s {
        EmittedNever(out, s, k);
      }
    }
  }

  /** What leaves an uncapped node for a fired group: the window's bounds, the group's labels, and the aggregate of the
      group's in-time samples, whichever of the five it is. */
  lemma UncappedRecord(c: Config, events: seq<Event>, i: nat, k: GroupKey)
    requires c.Valid() && c.maxGroups.None? && Clean(c, events) && NoIdle(events)
    requires i < |Stream(c, events)| && k in Stream(c, events)[i].groups
    requires Stream(c, events)[i].start + c.size < U64_LIMIT
    ensures var f := Stream(c, events)[i];
      var r := OutputOf(c, f.start, f.groups[k]);
      && r.Some?
      && r.value.startTs == Some(f.start) && r.value.ts == f.start + c.size
      && |k| == |c.groupBy| && r.value.attrs == KeyLabels(c.groupBy, k)
      && r.value.resource == map[] && r.value.scope == None
      && Samples(c, Arrivals(events), f.start, k) != []
      && IsAggregate(c.aggregate.op, Samples(c, Arrivals(events), f.start, k), Some(r.value.value))
  {
    var f := Stream(c, events)[i];
    StreamIsBatch(c, events);
    StreamSound(c, events);
    assert GroupsSound(c, f.groups);
    TallyMeaning(c.aggregate.op, Samples(c, Arrivals(events), f.start, k));
    hide Stream, Samples, TallyOf, SumOf;
  }

  // ---- Order independence ----

  /** No record arrives further behind the newest event than the allowed lateness. */
  predicate InLateness(c: Config, rs: seq<Record>) {
    forall i :: 0 <= i < |rs| ==> MaxTs(rs[..i]) <= rs[i].ts + c.lateness
  }

  /** Record `r` belongs in group `k` of the window at `s`, however late it comes. */
  ghost predicate Belongs(c: Config, r: Record, s: nat, k: GroupKey)
    requires c.Valid()
  {
    Numeric(r, c.aggregate.field).Ok? && GroupKeyOf(r, c.groupBy) == k && s in StartsOf(c, r.ts)
  }

  ghost function Members(c: Config, rs: seq<Record>, s: nat, k: GroupKey): seq<real>
    requires c.Valid()
  {
    if rs == [] then []
    else
      var n := |rs| - 1;
      Members(c, rs[..n], s, k) +
      (if Belongs(c, rs[n], s, k) then [Numeric(rs[n], c.aggregate.field).value] else [])
  }

  lemma {:induction false} SamplesInTime(c: Config, rs: seq<Record>, s: nat, k: GroupKey)
    requires c.Valid() && InLateness(c, rs)
    ensures Samples(c, rs, s, k) == Members(c, rs, s, k)
  {
    if rs != [] {
      var n := |rs| - 1;
      forall i | 0 <= i < n ensures MaxTs(rs[..n][..i]) <= rs[..n][i].ts + c.lateness {
        assert rs[..n][..i] == rs[..i];
      }
      SamplesInTime(c, rs[..n], s, k);
      InTimeContributes(c, MaxTs(rs[..n]), rs[n], s, k);
    }
  }

  lemma InTimeContributes(c: Config, maxEvent: nat, r: Record, s: nat, k: GroupKey)
    requires c.Valid() && maxEvent <= r.ts + c.lateness
    ensures Contributes(c, maxEvent, r, s, k) <==> Belongs(c, r, s, k)
    ensures !IsLate(c, maxEvent, r)
  {
    NewestIsStart(c, r.ts);
  }

  /** Within the lateness nothing is counted late. */
  lemma {:induction false} NothingLate(c: Config, rs: seq<Record>)
    requires c.Valid() && InLateness(c, rs)
    ensures LateCount(c, rs) == 0
  {
    hide IsLate;
    if rs != [] {
      var n := |rs| - 1;
      forall i | 0 <= i < n ensures MaxTs(rs[..n][..i]) <= rs[..n][i].ts + c.lateness {
        assert rs[..n][..i] == rs[..i];
      }
      NothingLate(c, rs[..n]);
      InTimeContributes(c, MaxTs(rs[..n]), rs[n], 0, []);
    }
  }

  lemma {:induction false} MembersConcat(c: Config, a: seq<Record>, b: seq<Record>, s: nat, k: GroupKey)
    requires c.Valid()
    ensures Members(c, a + b, s, k) == Members(c, a, s, k) + Members(c, b, s, k)
  {
    hide Belongs;
    if b == [] {
      assert a + b == a;
    } else {
      var n := |b| - 1;
      MembersConcat(c, a, b[..n], s, k);
      assert (a + b)[..|a + b| - 1] == a + b[..n];
    }
  }

  lemma {:induction false} MembersPermutation(c: Config, a: seq<Record>, b: seq<Record>, s: nat, k: GroupKey)
    requires c.Valid() && multiset(a) == multiset(b)
    ensures multiset(Members(c, a, s, k)) == multiset(Members(c, b, s, k))
    decreases |a|
  {
    hide Members;
    if a == [] {
      assert |b| == |multiset(b)| == 0;
    } else {
      var n := |a| - 1;
      var i := TakeOut(a, b);
      var x := [b[i]];
      MembersPermutation(c, a[..n], b[..i] + b[i + 1..], s, k);
      assert a == a[..n] + x;
      MembersConcat(c, a[..n], x, s, k);
      MembersConcat(c, b[..i] + x, b[i + 1..], s, k);
      MembersConcat(c, b[..i], x, s, k);
      MembersConcat(c, b[..i], b[i + 1..], s, k);
    }
  }

  /** Two arrival orders of the same records, both within the lateness, give every group the same tally. */
  lemma SamplesPermutation(c: Config, a: seq<Record>, b: seq<Record>, s: nat, k: GroupKey)
    requires c.Valid() && InLateness(c, a) && InLateness(c, b) && multiset(a) == multiset(b)
    ensures TallyOf(Samples(c, a, s, k)) == TallyOf(Samples(c, b, s, k))
    ensures Samples(c, a, s, k) == [] <==> Samples(c, b, s, k) == []
  {
    SamplesInTime(c, a, s, k);
    SamplesInTime(c, b, s, k);
    MembersPermutation(c, a, b, s, k);
    TallyOfPermutation(Members(c, a, s, k), Members(c, b, s, k));
    assert |multiset(Members(c, a, s, k))| == |multiset(Members(c, b, s, k))|;
  }

  /** The same windows in the same order with the same groups and tallies; only source names may differ. */
  ghost predicate SameTallies(a: seq<Firing>, b: seq<Firing>) {
    && |a| == |b|
    && forall i :: 0 <= i < |a| ==>
      && a[i].start == b[i].start
      && a[i].groups.Keys == b[i].groups.Keys
      && forall k :: k in a[i].groups ==> a[i].groups[k].tally == b[i].groups[k].tally
  }

  /** A batch group-by is determined by its samples. */
  lemma BatchUnique(c: Config, ra: seq<Record>, a: seq<Firing>, rb: seq<Record>, b: seq<Firing>)
    requires c.Valid() && IsBatch(c, ra, a) && IsBatch(c, rb, b)
    requires forall s, k :: TallyOf(Samples(c, ra, s, k)) == TallyOf(Samples(c, rb, s, k))
    requires forall s, k :: Samples(c, ra, s, k) == [] <==> Samples(c, rb, s, k) == []
    ensures SameTallies(a, b)
  {
    SameStarts(c, ra, a, rb, b);
    forall i, k | 0 <= i < |a|
      ensures k in a[i].groups <==> k in b[i].groups
      ensures k in a[i].groups ==> a[i].groups[k].tally == b[i].groups[k].tally
    {
      if k in a[i].groups { GroupShared(c, ra, a, rb, b, i, k); }
      if k in b[i].groups { GroupShared(c, rb, b, ra, a, i, k); }
    }
  }

  lemma GroupShared(c: Config, ra: seq<Record>, a: seq<Firing>, rb: seq<Record>, b: seq<Firing>, i: nat, k: GroupKey)
    requires c.Valid() && IsBatch(c, ra, a) && IsBatch(c, rb, b)
    requires forall s, k :: TallyOf(Samples(c, ra, s, k)) == TallyOf(Samples(c, rb, s, k))
    requires forall s, k :: Samples(c, ra, s, k) == [] <==> Samples(c, rb, s, k) == []
    requires i < |a| && i < |b| && a[i].start == b[i].start && k in a[i].groups
    ensures k in b[i].groups && a[i].groups[k].tally == b[i].groups[k].tally
  {
    hide Samples, TallyOf, Fires;
    assert Samples(c, rb, a[i].start, k) != [];
    FiresAt(b, i, k);
  }

  lemma FiresAt(out: seq<Firing>, i: nat, k: GroupKey)
    requires Ascends(out) && i < |out| && Fires(out, out[i].start, k)
    ensures k in out[i].groups
  {
  }

  function Starts(out: seq<Firing>): seq<nat> {
    seq(|out|, i requires 0 <= i < |out| => out[i].start)
  }

  lemma SameStarts(c: Config, ra: seq<Record>, a: seq<Firing>, rb: seq<Record>, b: seq<Firing>)
    requires c.Valid() && IsBatch(c, ra, a) && IsBatch(c, rb, b)
    requires forall s, k :: Samples(c, ra, s, k) == [] <==> Samples(c, rb, s, k) == []
    ensures |a| == |b| && forall i :: 0 <= i < |a| ==> a[i].start == b[i].start
  {
    hide IsBatch, Samples;
    forall x ensures x in Starts(a) <==> x in Starts(b) {
      if x in Starts(a) { StartShared(c, ra, a, rb, b, x); }
      if x in Starts(b) { StartShared(c, rb, b, ra, a, x); }
    }
    BatchAscends(c, ra, a);
    BatchAscends(c, rb, b);
    StartsUnique(Starts(a), Starts(b));
    assert forall i :: 0 <= i < |a| ==> Starts(a)[i] == a[i].start && Starts(b)[i] == b[i].start;
  }

  lemma BatchAscends(c: Config, rs: seq<Record>, out: seq<Firing>)
    requires c.Valid() && IsBatch(c, rs, out)
    ensures forall i, j :: 0 <= i < j < |out| ==> out[i].start < out[j].start
  {
  }

  lemma StartsUnique(a: seq<nat>, b: seq<nat>)
    requires forall i, j :: 0 <= i < j < |a| ==> a[i] < a[j]
    requires forall i, j :: 0 <= i < j < |b| ==> b[i] < b[j]
    requires forall x :: x in a <==> x in b
    ensures a == b
  {
    NatOrderIsTotal();
    AscendingUnique(a, b, NAT_ORDER);
  }

  lemma StartShared(c: Config, ra: seq<Record>, a: seq<Firing>, rb: seq<Record>, b: seq<Firing>, x: nat)
    requires c.Valid() && IsBatch(c, ra, a) && IsBatch(c, rb, b)
    requires forall s, k :: Samples(c, ra, s, k) == [] <==> Samples(c, rb, s, k) == []
    requires x in Starts(a)
    ensures x in Starts(b)
  {
    hide Samples, TallyOf, Fires;
    var i :| 0 <= i < |a| && Starts(a)[i] == x;
    var k := AnyKey(a[i].groups);
    assert Samples(c, rb, x, k) != [];
    FiresInStarts(b, x, k);
  }

  lemma FiresInStarts(out: seq<Firing>, s: nat, k: GroupKey)
    requires Fires(out, s, k)
    ensures s in Starts(out)
  {
    var i :| 0 <= i < |out| && out[i].start == s && k in out[i].groups;
    assert Starts(out)[i] == s;
  }

  /** Any two arrival orders of the same records that stay within the lateness drop nothing as late and fire the
      same windows, in the same order, with the same tally in every group. */
  lemma OrderIndependence(c: Config, x: seq<Event>, y: seq<Event>)
    requires c.Valid() && c.maxGroups.None?
    requires NoIdle(x) && NoIdle(y) && Clean(c, x) && Clean(c, y)
    requires multiset(Arrivals(x)) == multiset(Arrivals(y))
    requires InLateness(c, Arrivals(x)) && InLateness(c, Arrivals(y))
    ensures SameTallies(Stream(c, x), Stream(c, y))
    ensures Feed(c, x).drops.late == Feed(c, y).drops.late == 0
  {
    StreamIsBatch(c, x);
    StreamIsBatch(c, y);
    DropsMatchBatch(c, x);
    DropsMatchBatch(c, y);
    NothingLate(c, Arrivals(x));
    NothingLate(c, Arrivals(y));
    hide *;
    forall s, k ensures
      && TallyOf(Samples(c, Arrivals(x), s, k)) == TallyOf(Samples(c, Arrivals(y), s, k))
      && (Samples(c, Arrivals(x), s, k) == [] <==> Samples(c, Arrivals(y), s, k) == [])
    {
      SamplesPermutation(c, Arrivals(x), Arrivals(y), s, k);
    }
    BatchUnique(c, Arrivals(x), Stream(c, x), Arrivals(y), Stream(c, y));
  }

  // ---- The records that leave the node ----

  /** Which group is listed first does not matter. */
  lemma {:induction false} GroupRecordsAnyOrder(c: Config, start: nat, groups: Groups, k: GroupKey)
    requires start + c.size < U64_LIMIT && k in groups
    ensures GroupRecords(c, start, groups) == GroupRecords(c, start, groups - {k}) + RecordsOf(c, start, groups[k])
    decreases |groups|
  {
    hide RecordsOf;
    var key := AnyKey(groups);
    if key != k {
      var rest := groups - {key};
      assert groups.Keys == rest.Keys + {key};
      GroupRecordsAnyOrder(c, start, rest, k);
      assert (groups - {k}).Keys == (rest - {k}).Keys + {key};
      assert (groups - {k}) - {key} == rest - {k};
      GroupRecordsAnyOrder(c, start, groups - {k}, key);
    }
  }

  lemma {:induction false} GroupRecordsSame(c: Config, start: nat, a: Groups, b: Groups)
    requires start + c.size < U64_LIMIT && a.Keys == b.Keys
    requires forall k :: k in a ==> RecordsOf(c, start, a[k]) == RecordsOf(c, start, b[k])
    ensures GroupRecords(c, start, a) == GroupRecords(c, start, b)
    decreases |a|
  {
    hide RecordsOf;
    if a == map[] {
      assert b == map[];
    } else {
      var k := AnyKey(a);
      assert a.Keys == (a - {k}).Keys + {k};
      GroupRecordsSame(c, start, a - {k}, b - {k});
      GroupRecordsAnyOrder(c, start, b, k);
    }
  }

  lemma {:induction false} FiringRecordsSame(c: Config, a: seq<Firing>, b: seq<Firing>)
    requires c.name.Some? && SameTallies(a, b)
    requires forall i :: 0 <= i < |a| ==> GroupsSound(c, a[i].groups) && GroupsSound(c, b[i].groups)
    requires InRange(c, a)
    ensures FiringRecords(c, a) == FiringRecords(c, b)
  {
    if a != [] {
      var n := |a| - 1;
      FiringRecordsSame(c, a[..n], b[..n]);
      forall k | k in a[n].groups
        ensures RecordsOf(c, a[n].start, a[n].groups[k]) == RecordsOf(c, a[n].start, b[n].groups[k])
      {
        assert a[n].groups[k].attrs == b[n].groups[k].attrs;
      }
      GroupRecordsSame(c, a[n].start, a[n].groups, b[n].groups);
    }
  }

  lemma {:induction false} SampleStarts(c: Config, rs: seq<Record>, s: nat, k: GroupKey)
    requires c.Valid() && Samples(c, rs, s, k) != []
    requires forall i :: 0 <= i < |rs| ==> rs[i].ts + c.size < U64_LIMIT
    ensures s + c.size < U64_LIMIT
  {
    var n := |rs| - 1;
    if !Contributes(c, MaxTs(rs[..n]), rs[n], s, k) {
      SampleStarts(c, rs[..n], s, k);
    }
  }

  lemma BatchInRange(c: Config, rs: seq<Record>, out: seq<Firing>)
    requires c.Valid() && IsBatch(c, rs, out)
    requires forall i :: 0 <= i < |rs| ==> rs[i].ts + c.size < U64_LIMIT
    ensures InRange(c, out)
  {
    hide Samples;
    forall i | 0 <= i < |out| ensures out[i].start + c.size < U64_LIMIT {
      var k := AnyKey(out[i].groups);
      SampleStarts(c, rs, out[i].start, k);
    }
  }

  /** With an output name configured, in-lateness arrival orders emit the same records, as a multiset. */
  lemma OrderIndependentRecords(c: Config, x: seq<Event>, y: seq<Event>)
    requires c.Valid() && c.maxGroups.None? && c.name.Some?
    requires NoIdle(x) && NoIdle(y) && Clean(c, x) && Clean(c, y)
    requires multiset(Arrivals(x)) == multiset(Arrivals(y))
    requires InLateness(c, Arrivals(x)) && InLateness(c, Arrivals(y))
    requires forall i :: 0 <= i < |Arrivals(x)| ==> Arrivals(x)[i].ts + c.size < U64_LIMIT
    ensures InRange(c, Stream(c, x))
    ensures InRange(c, Stream(c, y))
    ensures FiringRecords(c, Stream(c, x)) == FiringRecords(c, Stream(c, y))
  {
    OrderIndependence(c, x, y);
    StreamIsBatch(c, x);
    BatchInRange(c, Arrivals(x), Stream(c, x));
    StreamSound(c, x);
    StreamSound(c, y);
    hide Stream, GroupsSound, Arrivals, FiringRecords;
    FiringRecordsSame(c, Stream(c, x), Stream(c, y));
  }
}
