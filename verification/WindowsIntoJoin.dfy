/** Windows feeding a join: what the two nodes promise together. */
module WindowsIntoJoin {
  import opened Wrappers
  import opened Records
  import opened Tallies
  import WM = WindowModel
  import WindowTheory
  import opened WindowRuns
  import WindowFlush
  import opened JoinModel
  import opened JoinCompletes

  /** A window and the events it has handled. */
  datatype Source = Source(c: WM.Config, events: seq<WM.Event>) {
    ghost predicate Sane() {
      c.Valid() && WM.InRange(c, Out())
    }

    ghost function Out(): seq<WM.Firing>
      requires c.Valid()
    {
      WM.Stream(c, events)
    }

    ghost function Emits(): multiset<Record>
      requires Sane()
    {
      WM.FiringRecords(c, Out())
    }
  }

  /** The records among the merged messages that came from input `i`. */
  function InputOf(ms: seq<Message>, i: nat): seq<Record> {
    if ms == [] then []
    else
      var last := ms[|ms| - 1];
      InputOf(ms[..|ms| - 1], i) + (if last.input == i then [last.rec] else [])
  }

  /** Every input of the join is one window's output, in any order and interleaved in any way. */
  ghost predicate FedBy(sources: seq<Source>, ms: seq<Message>) {
    && Tagged(|sources|, ms)
    && forall i :: 0 <= i < |sources| ==> sources[i].Sane() && multiset(InputOf(ms, i)) == sources[i].Emits()
  }

  /** No window of these is ever flushed for being idle. */
  ghost predicate NeverIdle(sources: seq<Source>) {
    forall i :: 0 <= i < |sources| ==> NoIdle(sources[i].events)
  }

  // ---- Without idle flushes a window never emits two records for one join group ----

  /** No two of these records fall in one join group. */
  ghost predicate KeysOnce(rs: multiset<Record>) {
    && (forall r :: r in rs ==> rs[r] == 1)
    && (forall r, q :: r in rs && q in rs && r != q ==> KeyOf(r) != KeyOf(q))
  }

  lemma KeysOnceUnion(a: multiset<Record>, b: multiset<Record>)
    requires KeysOnce(a) && KeysOnce(b)
    requires forall r, q :: r in a && q in b ==> KeyOf(r) != KeyOf(q)
    ensures KeysOnce(a + b)
  {
    hide KeyOf;
  }

  /** `r` is what group `k`, fired at `start`, becomes. */
  ghost predicate IsRow(c: WM.Config, start: nat, groups: WM.Groups, k: WM.GroupKey, r: Record)
    requires start + c.size < U64_LIMIT
  {
    k in groups && WM.OutputOf(c, start, groups[k]) == Some(r)
  }

  lemma RowFacts(c: WM.Config, start: nat, groups: WM.Groups, k: WM.GroupKey, r: Record)
    requires start + c.size < U64_LIMIT && GroupsSound(c, groups) && IsRow(c, start, groups, k, r)
    ensures StartOf(r) == start && r.ts == start + c.size && r.attrs == groups[k].attrs && r.resource == map[]
    ensures LabelKey(r.attrs, c.groupBy) == k
  {
    assert AggSound(c, k, groups[k]);
  }

  lemma {:induction false} GroupRows(c: WM.Config, start: nat, groups: WM.Groups)
    requires start + c.size < U64_LIMIT && forall k :: k in groups ==> AggSound(c, k, groups[k])
    ensures KeysOnce(WM.GroupRecords(c, start, groups))
    ensures forall r :: r in WM.GroupRecords(c, start, groups) <==> exists k :: IsRow(c, start, groups, k, r)
    decreases |groups|
  {
    hide KeyOf, WM.OutputOf, AggSound, LabelKey;
    if groups != map[] {
      var key := WM.AnyKey(groups);
      var rest := groups - {key};
      assert groups.Keys == rest.Keys + {key};
      GroupRows(c, start, rest);
      var one := WM.RecordsOf(c, start, groups[key]);
      forall r, q | r in WM.GroupRecords(c, start, rest) && q in one ensures KeyOf(r) != KeyOf(q) {
        var k :| IsRow(c, start, rest, k, r);
        RowsDiffer(c, start, groups, k, r, key, q);
      }
      KeysOnceUnion(WM.GroupRecords(c, start, rest), one);
      forall r ensures r in WM.GroupRecords(c, start, groups) <==> exists k :: IsRow(c, start, groups, k, r) {
        RowsOfRest(c, start, groups, key, r);
      }
    }
  }

  lemma RowsOfRest(c: WM.Config, start: nat, groups: WM.Groups, key: WM.GroupKey, r: Record)
    requires start + c.size < U64_LIMIT && key in groups
    ensures (exists k :: IsRow(c, start, groups, k, r))
      <==> IsRow(c, start, groups, key, r) || exists k :: IsRow(c, start, groups - {key}, k, r)
  {
    hide WM.OutputOf;
    if k :| IsRow(c, start, groups, k, r) && k != key {
      assert IsRow(c, start, groups - {key}, k, r);
    }
    if k :| IsRow(c, start, groups - {key}, k, r) {
      assert IsRow(c, start, groups, k, r);
    }
  }

  lemma RowsDiffer(c: WM.Config, start: nat, groups: WM.Groups, k: WM.GroupKey, r: Record, l: WM.GroupKey, q: Record)
    requires start + c.size < U64_LIMIT && k in groups && l in groups && k != l
    requires AggSound(c, k, groups[k]) && AggSound(c, l, groups[l])
    requires WM.OutputOf(c, start, groups[k]) == Some(r) && WM.OutputOf(c, start, groups[l]) == Some(q)
    ensures KeyOf(r) != KeyOf(q)
  {
    hide KeyOf, LabelKey;
    if KeyOf(r) == KeyOf(q) { SameKey(r, q); }
  }

  /** Record `r` is what some group of firing `f` becomes. */
  ghost predicate InFiring(c: WM.Config, f: WM.Firing, r: Record)
    requires f.start + c.size < U64_LIMIT
  {
    exists k :: IsRow(c, f.start, f.groups, k, r)
  }

  ghost predicate IsOutput(c: WM.Config, out: seq<WM.Firing>, r: Record)
    requires WM.InRange(c, out)
  {
    exists i :: 0 <= i < |out| && InFiring(c, out[i], r)
  }

  ghost predicate AllSound(c: WM.Config, out: seq<WM.Firing>) {
    forall i :: 0 <= i < |out| ==> GroupsSound(c, out[i].groups)
  }

  lemma {:induction false} FiringRows(c: WM.Config, out: seq<WM.Firing>)
    requires WM.InRange(c, out) && AllSound(c, out)
    ensures forall r :: r in WM.FiringRecords(c, out) <==> IsOutput(c, out, r)
  {
    hide KeyOf, InFiring, IsOutput, GroupsSound, KeysOnce, WM.GroupRecords;
    if out == [] {
      NoOutput(c);
    } else {
      var n := |out| - 1;
      FiringRows(c, out[..n]);
      SoundRows(c, out[n]);
      forall r ensures r in WM.FiringRecords(c, out) <==> IsOutput(c, out, r) {
        OutputSnoc(c, out, r);
      }
    }
  }

  lemma {:induction false} FiringKeys(c: WM.Config, out: seq<WM.Firing>)
    requires WM.InRange(c, out) && Ascends(out) && AllSound(c, out)
    ensures KeysOnce(WM.FiringRecords(c, out))
  {
    hide KeyOf, InFiring, IsOutput, GroupsSound, KeysOnce, WM.GroupRecords;
    if out == [] {
      NoKeys();
    } else {
      var n := |out| - 1;
      FiringKeys(c, out[..n]);
      FiringRows(c, out[..n]);
      SoundRows(c, out[n]);
      var before, last := WM.FiringRecords(c, out[..n]), WM.GroupRecords(c, out[n].start, out[n].groups);
      forall r, q | IsOutput(c, out[..n], r) && InFiring(c, out[n], q) ensures KeyOf(r) != KeyOf(q) {
        EarlierDiffers(c, out, r, q);
      }
      KeysOnceUnion(before, last);
    }
  }

  lemma NoOutput(c: WM.Config)
    ensures forall r :: !IsOutput(c, [], r)
  {
  }

  lemma EarlierDiffers(c: WM.Config, out: seq<WM.Firing>, r: Record, q: Record)
    requires out != [] && WM.InRange(c, out) && Ascends(out) && AllSound(c, out)
    requires IsOutput(c, out[..|out| - 1], r) && InFiring(c, out[|out| - 1], q)
    ensures KeyOf(r) != KeyOf(q)
  {
    hide KeyOf, InFiring, GroupsSound;
    var n := |out| - 1;
    var i :| 0 <= i < n && InFiring(c, out[..n][i], r);
    FiringsDiffer(c, out[i], r, out[n], q);
  }

  lemma NoKeys()
    ensures KeysOnce(multiset{})
  {
  }

  lemma OutputSnoc(c: WM.Config, out: seq<WM.Firing>, r: Record)
    requires out != [] && WM.InRange(c, out)
    ensures IsOutput(c, out, r) <==> IsOutput(c, out[..|out| - 1], r) || InFiring(c, out[|out| - 1], r)
  {
    hide InFiring;
    var n := |out| - 1;
    if i :| 0 <= i < n && InFiring(c, out[..n][i], r) { assert InFiring(c, out[i], r); }
    if i :| 0 <= i < n && InFiring(c, out[i], r) { assert InFiring(c, out[..n][i], r); }
  }

  lemma SoundRows(c: WM.Config, f: WM.Firing)
    requires f.start + c.size < U64_LIMIT && GroupsSound(c, f.groups)
    ensures KeysOnce(WM.GroupRecords(c, f.start, f.groups))
    ensures forall r :: r in WM.GroupRecords(c, f.start, f.groups) <==> InFiring(c, f, r)
  {
    hide KeysOnce, AggSound, IsRow;
    GroupRows(c, f.start, f.groups);
  }

  lemma FiringsDiffer(c: WM.Config, f: WM.Firing, r: Record, g: WM.Firing, q: Record)
    requires f.start + c.size < U64_LIMIT && g.start + c.size < U64_LIMIT && f.start != g.start
    requires GroupsSound(c, f.groups) && GroupsSound(c, g.groups) && InFiring(c, f, r) && InFiring(c, g, q)
    ensures KeyOf(r) != KeyOf(q)
  {
    hide KeyOf, IsRow, GroupsSound;
    var k :| IsRow(c, f.start, f.groups, k, r);
    RowFacts(c, f.start, f.groups, k, r);
    var l :| IsRow(c, g.start, g.groups, l, q);
    RowFacts(c, g.start, g.groups, l, q);
    if KeyOf(r) == KeyOf(q) { SameKey(r, q); }
  }

  /** What a window emits: each record from one group of one firing and, without idle flushes, one per join group. */
  lemma SourceRows(src: Source)
    requires src.Sane()
    ensures NoIdle(src.events) ==> KeysOnce(src.Emits())
    ensures forall r :: r in src.Emits() <==> IsOutput(src.c, src.Out(), r)
    ensures AllSound(src.c, src.Out())
  {
    hide WM.Stream, KeysOnce, GroupsSound;
    StreamSound(src.c, src.events);
    FiringRows(src.c, src.Out());
    if NoIdle(src.events) {
      StreamAscends(src.c, src.events);
      FiringKeys(src.c, src.Out());
    }
  }

  // ---- So the join's inputs never repeat a group ----

  lemma {:induction false} InputHolds(ms: seq<Message>, a: nat)
    requires a < |ms|
    ensures ms[a].rec in InputOf(ms, ms[a].input)
  {
    if a < |ms| - 1 { InputHolds(ms[..|ms| - 1], a); }
  }

  lemma {:induction false} InputFrom(ms: seq<Message>, i: nat, r: Record) returns (a: nat)
    requires r in InputOf(ms, i)
    ensures a < |ms| && ms[a] == Message(i, r)
  {
    var n := |ms| - 1;
    if ms[n] == Message(i, r) {
      a := n;
    } else {
      a := InputFrom(ms[..n], i, r);
    }
  }

  lemma {:induction false} OncePerKey(ms: seq<Message>, i: nat, a: nat, b: nat)
    requires KeysOnce(multiset(InputOf(ms, i))) && a < b < |ms| && ms[a].input == ms[b].input == i
    ensures KeyOf(ms[a].rec) != KeyOf(ms[b].rec)
  {
    hide KeyOf, KeysOnce;
    var n := |ms| - 1;
    var before := InputOf(ms[..n], i);
    if ms[n].input == i { KeysOnceSnoc(before, ms[n].rec); } else { assert InputOf(ms, i) == before; }
    if b < n {
      OncePerKey(ms[..n], i, a, b);
    } else {
      InputHolds(ms[..n], a);
    }
  }

  lemma KeysOnceSnoc(rs: seq<Record>, r: Record)
    requires KeysOnce(multiset(rs + [r]))
    ensures KeysOnce(multiset(rs)) && forall q :: q in rs ==> KeyOf(q) != KeyOf(r)
  {
    hide KeyOf, KeysOnce;
    assert multiset(rs + [r]) == multiset(rs) + multiset{r};
    KeysOnceLess(multiset(rs), multiset{r});
    assert forall q :: q in rs ==> q in multiset(rs);
    assert r in multiset{r};
  }

  lemma KeysOnceLess(a: multiset<Record>, b: multiset<Record>)
    requires KeysOnce(a + b)
    ensures KeysOnce(a)
    ensures forall r, q :: r in a && q in b ==> KeyOf(r) != KeyOf(q)
  {
    hide KeyOf;
    forall r | r in a ensures a[r] == 1 && r !in b {
      assert (a + b)[r] == 1;
    }
    forall r, q | r in a && q in b ensures KeyOf(r) != KeyOf(q) {
      assert r in a + b && q in a + b;
    }
  }

  /** Windows without idle flushes, however interleaved, meet the join's need: no input repeats a group. */
  lemma WindowsNeverRepeat(sources: seq<Source>, ms: seq<Message>)
    requires FedBy(sources, ms) && NeverIdle(sources)
    ensures NoRepeats(ms)
  {
    hide KeyOf, KeysOnce;
    forall a, b | 0 <= a < b < |ms| && ms[a].input == ms[b].input ensures KeyOf(ms[a].rec) != KeyOf(ms[b].rec) {
      SourceRows(sources[ms[a].input]);
      OncePerKey(ms, ms[a].input, a, b);
    }
  }

  // ---- What a completed group holds ----

  /** Slot `i` of a bucket holds the aggregate of window `i`'s in-time samples for the bucket's bounds and labels. */
  ghost predicate HoldsAggregate(src: Source, b: Bucket, v: Option<real>)
    requires src.c.Valid()
  {
    var k := LabelKey(b.labels, src.c.groupBy);
    var samples := WindowTheory.Samples(src.c, WindowTheory.Arrivals(src.events), b.start, k);
    && b.end == b.start + src.c.size
    && b.labels == KeyLabels(src.c.groupBy, k)
    && samples != []
    && IsAggregate(src.c.aggregate.op, samples, v)
  }

  lemma OutputIsAggregate(src: Source, r: Record, b: Bucket)
    requires src.Sane() && NoIdle(src.events) && WindowTheory.Clean(src.c, src.events)
    requires r in src.Emits() && StartOf(r) == b.start && r.ts == b.end && r.attrs == b.labels
    ensures HoldsAggregate(src, b, Some(r.value))
  {
    hide WM.Stream, GroupsSound, IsAggregate, WindowTheory.Samples, LabelKey, KeyLabels, KeysOnce;
    var i, k := RowOf(src, r);
    WindowFlush.EmittedRecord(src.c, src.events, i, k);
  }

  /** Slot `i` of a bucket holds what one group of one firing of window `i` amounts to, under the bucket's bounds and
      labels. */
  ghost predicate HoldsFragment(src: Source, b: Bucket, v: Option<real>)
    requires src.c.Valid()
  {
    exists i, k :: 0 <= i < |src.Out()| && IsFragment(src, b, v, i, k)
  }

  ghost predicate IsFragment(src: Source, b: Bucket, v: Option<real>, i: nat, k: WM.GroupKey)
    requires src.c.Valid() && i < |src.Out()|
  {
    var f := src.Out()[i];
    && b.start == f.start && b.end == f.start + src.c.size
    && k in f.groups && b.labels == f.groups[k].attrs
    && v == f.groups[k].tally.Value(src.c.aggregate.op)
  }

  lemma OutputIsFragment(src: Source, r: Record, b: Bucket)
    requires src.Sane() && r in src.Emits() && StartOf(r) == b.start && r.ts == b.end && r.attrs == b.labels
    ensures HoldsFragment(src, b, Some(r.value))
  {
    hide WM.Stream, LabelKey, Tally.Value;
    var i, k := RowOf(src, r);
    assert IsFragment(src, b, Some(r.value), i, k);
  }

  /** The firing and the group that an emitted record comes from. */
  lemma RowOf(src: Source, r: Record) returns (i: nat, k: WM.GroupKey)
    requires src.Sane() && r in src.Emits()
    ensures i < |src.Out()| && IsRow(src.c, src.Out()[i].start, src.Out()[i].groups, k, r)
    ensures var f := src.Out()[i];
      && StartOf(r) == f.start && r.ts == f.start + src.c.size && r.attrs == f.groups[k].attrs && r.resource == map[]
      && LabelKey(r.attrs, src.c.groupBy) == k
  {
    hide WM.Stream, GroupsSound, LabelKey, KeysOnce;
    SourceRows(src);
    var out := src.Out();
    i :| 0 <= i < |out| && InFiring(src.c, out[i], r);
    k :| IsRow(src.c, out[i].start, out[i].groups, k, r);
    RowFacts(src.c, out[i].start, out[i].groups, k, r);
  }

  /** The record a completed bucket has its slot `i` from. */
  lemma SlotRecord(sources: seq<Source>, ms: seq<Message>, x: nat, i: nat) returns (r: Record)
    requires |sources| >= 2 && FedBy(sources, ms) && i < |sources|
    requires x < |Feed(|sources|, None, ms).completed|
    ensures var b := Feed(|sources|, None, ms).completed[x];
      && |b.values| == |sources| && b.values[i] == Some(r.value)
      && r in sources[i].Emits() && StartOf(r) == b.start && r.ts == b.end && r.attrs == b.labels
  {
    hide KeyOf, Feed, Completes, CompletingSteps, WM.Stream;
    var n := |sources|;
    CompletedExactly(n, ms);
    StepsComplete(n, ms, |ms|);
    var b, q := Feed(n, None, ms).completed[x], CompletingSteps(n, ms, |ms|)[x];
    assert IsCompletion(n, ms, q, b) && b.values[i].Some?;
    var j := LastValueFrom(ms[..q + 1], i, KeyOf(ms[q].rec));
    r := ms[j].rec;
    SameKey(r, ms[q].rec);
    InputHolds(ms, j);
    assert r in multiset(InputOf(ms, i));
  }

  /** With windows of any kind feeding an uncapped join, idle flushes and caps included, every group the join completes
      has in each slot a fragment which that window fired for the same bounds and labels. */
  lemma JoinedFragments(sources: seq<Source>, ms: seq<Message>, x: nat)
    requires |sources| >= 2 && FedBy(sources, ms)
    requires x < |Feed(|sources|, None, ms).completed|
    ensures var b := Feed(|sources|, None, ms).completed[x];
      |b.values| == |sources| && forall i :: 0 <= i < |sources| ==> HoldsFragment(sources[i], b, b.values[i])
  {
    hide KeyOf, HoldsFragment, Feed, WM.Stream;
    CompletedExactly(|sources|, ms);
    var b := Feed(|sources|, None, ms).completed[x];
    forall i | 0 <= i < |sources| ensures |b.values| == |sources| && HoldsFragment(sources[i], b, b.values[i]) {
      var r := SlotRecord(sources, ms, x, i);
      OutputIsFragment(sources[i], r, b);
    }
  }

  /** End to end: with windows feeding an uncapped join without idle flushes, every group the join completes carries,
      for each input, the aggregate of exactly that window's in-time samples for the same bounds and labels. */
  lemma JoinedAggregates(sources: seq<Source>, ms: seq<Message>, x: nat)
    requires |sources| >= 2 && FedBy(sources, ms) && NeverIdle(sources)
    requires forall i :: 0 <= i < |sources| ==> WindowTheory.Clean(sources[i].c, sources[i].events)
    requires x < |Feed(|sources|, None, ms).completed|
    ensures var b := Feed(|sources|, None, ms).completed[x];
      |b.values| == |sources| && forall i :: 0 <= i < |sources| ==> HoldsAggregate(sources[i], b, b.values[i])
  {
    hide KeyOf, HoldsAggregate, Feed, WM.Stream;
    CompletedExactly(|sources|, ms);
    var b := Feed(|sources|, None, ms).completed[x];
    forall i | 0 <= i < |sources| ensures |b.values| == |sources| && HoldsAggregate(sources[i], b, b.values[i]) {
      var r := SlotRecord(sources, ms, x, i);
      OutputIsAggregate(sources[i], r, b);
    }
  }

  // ---- Ungrouped windows delivered in order: the join is exact ----

  /** Ungrouped windows of one size, each delivering its windows in the order it fired them. */
  ghost predicate UngroupedInOrder(sources: seq<Source>, ms: seq<Message>, size: nat) {
    && (forall i :: 0 <= i < |sources| ==>
          && sources[i].c.groupBy == [] && sources[i].c.size == size && sources[i].c.maxGroups != Some(0)
          && NoIdle(sources[i].events) && WindowTheory.Clean(sources[i].c, sources[i].events))
    && (forall a, b :: 0 <= a < b < |ms| && ms[a].input == ms[b].input ==> StartOf(ms[a].rec) <= StartOf(ms[b].rec))
  }

  lemma SourceRecord(src: Source, r: Record)
    requires src.Sane() && src.c.groupBy == [] && r in src.Emits()
    ensures r.ts == StartOf(r) + src.c.size && r.attrs == map[]
    ensures exists i :: 0 <= i < |src.Out()| && src.Out()[i].start == StartOf(r)
  {
    hide WM.Stream, KeysOnce, LabelKey;
    SourceRows(src);
    var i, k := RowOf(src, r);
    assert GroupsSound(src.c, src.Out()[i].groups) && AggSound(src.c, k, src.Out()[i].groups[k]);
  }

  lemma FiringRecord(src: Source, i: nat) returns (r: Record)
    requires src.Sane() && NoIdle(src.events) && src.c.maxGroups != Some(0)
    requires WindowTheory.Clean(src.c, src.events) && i < |src.Out()|
    ensures r in src.Emits() && StartOf(r) == src.Out()[i].start
  {
    hide WM.Stream, KeysOnce, LabelKey;
    SourceRows(src);
    var f := src.Out()[i];
    assert GroupsSound(src.c, f.groups);
    var k := WM.AnyKey(f.groups);
    WindowFlush.EmittedRecord(src.c, src.events, i, k);
    r := WM.OutputOf(src.c, f.start, f.groups[k]).value;
    assert IsRow(src.c, f.start, f.groups, k, r);
    assert InFiring(src.c, f, r);
  }

  lemma UngroupedEnds(sources: seq<Source>, ms: seq<Message>, size: nat)
    requires FedBy(sources, ms) && UngroupedInOrder(sources, ms, size)
    ensures StrictEnds(ms)
    ensures forall a :: 0 <= a < |ms| ==> ms[a].rec.attrs == map[] && ms[a].rec.ts == StartOf(ms[a].rec) + size
  {
    hide KeyOf, KeysOnce;
    WindowsNeverRepeat(sources, ms);
    forall a | 0 <= a < |ms|
      ensures ms[a].rec.attrs == map[] && ms[a].rec.ts == StartOf(ms[a].rec) + size && 0 < ms[a].rec.ts
    {
      var src := sources[ms[a].input];
      InputHolds(ms, a);
      assert ms[a].rec in multiset(InputOf(ms, ms[a].input));
      SourceRecord(src, ms[a].rec);
      assert src.c.Valid();
    }
    forall a, b | 0 <= a < b < |ms| && ms[a].input == ms[b].input ensures ms[a].rec.ts < ms[b].rec.ts {
      if StartOf(ms[a].rec) == StartOf(ms[b].rec) { SameBounds(ms[a].rec, ms[b].rec); }
    }
  }

  lemma SameBounds(a: Record, b: Record)
    requires StartOf(a) == StartOf(b) && a.ts == b.ts && a.attrs == b.attrs
    ensures KeyOf(a) == KeyOf(b)
  {
  }

  ghost predicate FiredAt(src: Source, start: nat)
    requires src.c.Valid()
  {
    exists i :: 0 <= i < |src.Out()| && src.Out()[i].start == start
  }

  lemma SentIffFired(sources: seq<Source>, ms: seq<Message>, size: nat, i: nat, rec: Record)
    requires FedBy(sources, ms) && UngroupedInOrder(sources, ms, size) && i < |sources|
    requires rec.attrs == map[] && rec.ts == StartOf(rec) + size
    ensures Sent(ms, i, KeyOf(rec)) <==> FiredAt(sources[i], StartOf(rec))
  {
    hide KeyOf, KeysOnce, WM.Stream;
    var src := sources[i];
    if Sent(ms, i, KeyOf(rec)) {
      var j :| 0 <= j < |ms| && ms[j].input == i && KeyOf(ms[j].rec) == KeyOf(rec);
      SameKey(ms[j].rec, rec);
      InputHolds(ms, j);
      assert ms[j].rec in multiset(InputOf(ms, i));
      SourceRecord(src, ms[j].rec);
    }
    if FiredAt(src, StartOf(rec)) {
      var f :| 0 <= f < |src.Out()| && src.Out()[f].start == StartOf(rec);
      var r := FiringRecord(src, f);
      assert r in multiset(InputOf(ms, i));
      var a := InputFrom(ms, i, r);
      UngroupedEnds(sources, ms, size);
      SameBounds(ms[a].rec, rec);
    }
  }

  /** The join of ungrouped windows completes exactly the windows that every input fires, however the inputs
      interleave. */
  lemma UngroupedJoinIsExact(sources: seq<Source>, ms: seq<Message>, size: nat, start: nat)
    requires |sources| >= 2 && FedBy(sources, ms) && UngroupedInOrder(sources, ms, size)
    ensures var done := Feed(|sources|, None, ms).completed;
      (exists x :: 0 <= x < |done| && done[x].start == start)
      <==> forall i :: 0 <= i < |sources| ==> FiredAt(sources[i], start)
  {
    hide KeyOf, Feed, FiredAt, FedBy, UngroupedInOrder;
    FedValid(sources, ms);
    var n, done := |sources|, Feed(|sources|, None, ms).completed;
    UngroupedEnds(sources, ms, size);
    StrictNeverRepeats(ms);
    if x :| 0 <= x < |done| && done[x].start == start {
      var q := CompletedBy(n, ms, x);
      assert AllSent(n, ms, KeyOf(ms[q].rec)) by { StrictCompletesIff(n, ms, ms[q].rec); }
      forall i | 0 <= i < n ensures FiredAt(sources[i], start) { SentIffFired(sources, ms, size, i, ms[q].rec); }
    }
    if forall i :: 0 <= i < n ==> FiredAt(sources[i], start) {
      var rec := FiredRecord(sources, ms, size, 0, start);
      forall i | 0 <= i < n ensures Sent(ms, i, KeyOf(rec)) { SentIffFired(sources, ms, size, i, rec); }
      StrictCompletesIff(n, ms, rec);
      var x :| 0 <= x < |done| && IsGroup(done[x], rec);
    }
  }

  lemma FedValid(sources: seq<Source>, ms: seq<Message>)
    requires FedBy(sources, ms)
    ensures Tagged(|sources|, ms) && forall i :: 0 <= i < |sources| ==> sources[i].c.Valid()
  {
  }

  lemma FiredRecord(sources: seq<Source>, ms: seq<Message>, size: nat, i: nat, start: nat) returns (rec: Record)
    requires FedBy(sources, ms) && UngroupedInOrder(sources, ms, size) && i < |sources| && FiredAt(sources[i], start)
    ensures StartOf(rec) == start && rec.attrs == map[] && rec.ts == start + size
    ensures exists j :: 0 <= j < |ms| && ms[j].rec == rec
  {
    hide KeysOnce, WM.Stream;
    var f :| 0 <= f < |sources[i].Out()| && sources[i].Out()[f].start == start;
    rec := FiringRecord(sources[i], f);
    assert rec in multiset(InputOf(ms, i));
    var a := InputFrom(ms, i, rec);
    SourceRecord(sources[i], rec);
  }
}
