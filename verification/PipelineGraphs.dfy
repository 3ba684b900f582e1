/** What an accepted pipeline guarantees to the nodes it runs. */
module PipelineGraphs {
  import opened Wrappers
  import opened Records
  import opened Keys
  import opened Routing
  import opened Pipelines
  import Validator

  ghost predicate Accepted(d: Durations, p: Pipeline) {
    First(AllFaults(d, p)).None?
  }

  // ---- Acceptance, said without an order of checks ----

  ghost predicate IsWindow(p: Pipeline, id: Str, w: Transform) {
    w in p.transforms && w.Window? && w.id == id
  }

  ghost predicate Consumed(outputs: set<Str>, uses: seq<Str>) {
    Distinct(uses) && forall x :: x in uses ==> x in outputs
  }

  /** Every input is a window, and all share their group_by and their size as written. */
  ghost predicate Aligned(p: Pipeline, j: Transform)
    requires j.Join?
  {
    && j.maxGroups != Some(0)
    && (forall a :: a in j.inputs ==> exists w :: IsWindow(p, a, w))
    && (forall a, b, v, w :: a in j.inputs && b in j.inputs && IsWindow(p, a, v) && IsWindow(p, b, w) ==>
          v.groupBy == w.groupBy && v.size == w.size)
  }

  ghost predicate SinkFed(p: Pipeline, s: Sink) {
    forall t :: t in p.transforms && t.id == s.input && t.Join? ==> t.expr.Some?
  }

  ghost predicate Checked(d: Durations, p: Pipeline) {
    && Distinct(p.NodeIds())
    && (forall s :: s in p.sources ==> SourceFault(d, s).None?)
    && (forall t :: t in p.transforms ==> TransformFault(d, t).None?)
    && Consumed(p.Outputs(), p.Uses())
    && (forall t :: t in p.transforms ==> Reachable(p, t.id))
    && (forall t :: t in p.transforms && t.Join? ==> Aligned(p, t))
    && (forall s :: s in p.sinks ==> SinkFed(p, s))
  }

  lemma DistinctIff(ids: seq<Str>)
    ensures First(DuplicateFaults(ids)).None? <==> Distinct(ids)
  {
    Validator.FirstNone(DuplicateFaults(ids));
    forall i | 0 <= i < |ids|
      ensures DuplicateFaults(ids)[i].None? <==> forall j :: 0 <= j < i ==> ids[j] != ids[i]
    {
      assert forall j :: 0 <= j < i ==> ids[..i][j] == ids[j];
    }
  }

  lemma SettingsIff(d: Durations, p: Pipeline)
    ensures First(SourceFaults(d, p)).None? <==> forall s :: s in p.sources ==> SourceFault(d, s).None?
    ensures First(TransformFaults(d, p)).None? <==> forall t :: t in p.transforms ==> TransformFault(d, t).None?
    ensures First(ReachFaults(p)).None? <==> forall t :: t in p.transforms ==> Reachable(p, t.id)
  {
    hide SourceFault, TransformFault, Reachable, First;
    Validator.FirstNone(SourceFaults(d, p));
    Validator.FirstNone(TransformFaults(d, p));
    Validator.FirstNone(ReachFaults(p));
    assert forall i :: 0 <= i < |p.sources| ==> SourceFaults(d, p)[i] == SourceFault(d, p.sources[i]);
    assert forall i :: 0 <= i < |p.transforms| ==> TransformFaults(d, p)[i] == TransformFault(d, p.transforms[i]);
    assert forall i :: 0 <= i < |p.transforms| ==> (ReachFaults(p)[i].None? <==> Reachable(p, p.transforms[i].id));
  }

  lemma UsesIff(outputs: set<Str>, uses: seq<Str>)
    ensures First(UseFaults(outputs, uses)).None? <==> Consumed(outputs, uses)
  {
    Validator.FirstNone(UseFaults(outputs, uses));
    forall i | 0 <= i < |uses|
      ensures UseFaults(outputs, uses)[i].None? <==> uses[i] in outputs && forall j :: 0 <= j < i ==> uses[j] != uses[i]
    {
      assert forall j :: 0 <= j < i ==> uses[..i][j] == uses[j];
    }
  }

  // ---- Ids name one node ----

  lemma SameId(p: Pipeline, t: Transform, u: Transform)
    requires Distinct(p.NodeIds()) && t in p.transforms && u in p.transforms && t.id == u.id
    ensures t == u
  {
    var i :| 0 <= i < |p.transforms| && p.transforms[i] == t;
    var j :| 0 <= j < |p.transforms| && p.transforms[j] == u;
    var ids, n := p.NodeIds(), |p.sources|;
    assert ids[n + i] == t.id && ids[n + j] == u.id;
  }

  lemma SourceIsNoTransform(p: Pipeline, s: Source, t: Transform)
    requires Distinct(p.NodeIds()) && s in p.sources && t in p.transforms
    ensures s.id != t.id
  {
    var i :| 0 <= i < |p.sources| && p.sources[i] == s;
    var j :| 0 <= j < |p.transforms| && p.transforms[j] == t;
    var ids := p.NodeIds();
    assert ids[i] == s.id && ids[|p.sources| + j] == t.id;
  }

  lemma {:induction false} FindIs(ts: seq<Transform>, id: Str)
    ensures FindTransform(ts, id).Some? <==> exists t :: t in ts && t.id == id
    ensures FindTransform(ts, id).Some? ==> FindTransform(ts, id).value in ts && FindTransform(ts, id).value.id == id
  {
    if ts != [] && ts[0].id != id {
      FindIs(ts[1..], id);
      assert forall t :: t in ts <==> t == ts[0] || t in ts[1..];
    } else if ts != [] {
      assert ts[0] in ts;
    }
  }

  lemma {:induction false} ShapesAre(ts: seq<Transform>, id: Str)
    ensures id in WindowShapes(ts) <==> exists w :: w in ts && w.Window? && w.id == id
    ensures id in WindowShapes(ts) ==>
      exists w :: w in ts && w.Window? && w.id == id && WindowShapes(ts)[id] == Shape(w.groupBy, w.size)
  {
    if ts != [] {
      var n := |ts| - 1;
      ShapesAre(ts[..n], id);
      assert ts == ts[..n] + [ts[n]];
      if ts[n].Window? && ts[n].id == id { assert ts[n] in ts; }
    }
  }

  lemma ShapeOf(p: Pipeline, id: Str)
    requires Distinct(p.NodeIds())
    ensures id in WindowShapes(p.transforms) <==> exists w :: IsWindow(p, id, w)
    ensures forall w :: IsWindow(p, id, w) ==>
      id in WindowShapes(p.transforms) && WindowShapes(p.transforms)[id] == Shape(w.groupBy, w.size)
  {
    ShapesAre(p.transforms, id);
    if id in WindowShapes(p.transforms) {
      var shape := WindowShapes(p.transforms)[id];
      var v :| v in p.transforms && v.Window? && v.id == id && shape == Shape(v.groupBy, v.size);
      assert IsWindow(p, id, v);
      forall w | IsWindow(p, id, w) ensures w == v { SameId(p, v, w); }
    }
  }

  /** All inputs of `j` have the shape of the first. */
  ghost predicate Agree(shapes: map<Str, Shape>, j: Transform)
    requires j.Join?
  {
    forall i :: 0 <= i < |j.inputs| ==>
      j.inputs[i] in shapes && j.inputs[0] in shapes && shapes[j.inputs[i]] == shapes[j.inputs[0]]
  }

  lemma AgreeIff(shapes: map<Str, Shape>, j: Transform)
    requires j.Join?
    ensures JoinFault(shapes, j).None? <==> j.maxGroups != Some(0) && Agree(shapes, j)
  {
    hide First;
    var faults := JoinInputFaults(shapes, j);
    Validator.FirstNone(faults);
    assert forall i :: 0 <= i < |j.inputs| ==> faults[i] == JoinInputFault(shapes, j, i);
    if forall i :: 0 <= i < |faults| ==> faults[i].None? {
      forall i | 0 <= i < |j.inputs|
        ensures j.inputs[i] in shapes && j.inputs[0] in shapes && shapes[j.inputs[i]] == shapes[j.inputs[0]]
      {
        assert faults[i].None? && faults[0].None?;
        assert JoinInputFault(shapes, j, i).None? && JoinInputFault(shapes, j, 0).None?;
      }
    }
  }

  lemma AlignedIff(p: Pipeline, j: Transform)
    requires Distinct(p.NodeIds()) && j.Join?
    ensures Aligned(p, j) <==> j.maxGroups != Some(0) && Agree(WindowShapes(p.transforms), j)
  {
    hide WindowShapes;
    var shapes := WindowShapes(p.transforms);
    assert forall i :: 0 <= i < |j.inputs| ==> j.inputs[i] in j.inputs;
    forall a ensures a in shapes <==> exists w :: IsWindow(p, a, w) { ShapeOf(p, a); }
    forall a, w | IsWindow(p, a, w) ensures a in shapes && shapes[a] == Shape(w.groupBy, w.size) { ShapeOf(p, a); }
    if Aligned(p, j) {
      forall i | 0 <= i < |j.inputs|
        ensures j.inputs[i] in shapes && j.inputs[0] in shapes && shapes[j.inputs[i]] == shapes[j.inputs[0]]
      {
        InputsAgree(p, j, j.inputs[i], j.inputs[0]);
      }
    }
  }

  lemma InputsAgree(p: Pipeline, j: Transform, a: Str, b: Str)
    requires Distinct(p.NodeIds()) && j.Join? && Aligned(p, j) && a in j.inputs && b in j.inputs
    ensures var shapes := WindowShapes(p.transforms); a in shapes && b in shapes && shapes[a] == shapes[b]
  {
    hide WindowShapes;
    ShapeOf(p, a);
    ShapeOf(p, b);
    var v :| IsWindow(p, a, v);
    var w :| IsWindow(p, b, w);
  }

  lemma JoinIff(p: Pipeline, j: Transform)
    requires Distinct(p.NodeIds()) && j.Join?
    ensures JoinFault(WindowShapes(p.transforms), j).None? <==> Aligned(p, j)
  {
    AgreeIff(WindowShapes(p.transforms), j);
    AlignedIff(p, j);
  }

  lemma OnlyJoinsFault(shapes: map<Str, Shape>)
    ensures forall t: Transform :: !t.Join? ==> JoinFault(shapes, t).None?
  {
  }

  lemma JoinsIff(p: Pipeline)
    requires Distinct(p.NodeIds())
    ensures First(JoinFaults(p)).None? <==> forall t :: t in p.transforms && t.Join? ==> Aligned(p, t)
  {
    hide Aligned, WindowShapes, JoinFault, First;
    Validator.FirstNone(JoinFaults(p));
    assert forall i :: 0 <= i < |p.transforms| ==>
      JoinFaults(p)[i] == JoinFault(WindowShapes(p.transforms), p.transforms[i]);
    OnlyJoinsFault(WindowShapes(p.transforms));
    forall t | t in p.transforms && t.Join? ensures JoinFault(WindowShapes(p.transforms), t).None? <==> Aligned(p, t) {
      JoinIff(p, t);
    }
  }

  lemma SinkIff(p: Pipeline, s: Sink)
    requires Distinct(p.NodeIds())
    ensures SinkFault(p, s).None? <==> SinkFed(p, s)
  {
    FindIs(p.transforms, s.input);
    var found := FindTransform(p.transforms, s.input);
    forall t | t in p.transforms && t.id == s.input ensures found == Some(t) { SameId(p, found.value, t); }
  }

  lemma SinksIff(p: Pipeline)
    requires Distinct(p.NodeIds())
    ensures First(SinkFaults(p)).None? <==> forall s :: s in p.sinks ==> SinkFed(p, s)
  {
    hide SinkFed, SinkFault, First;
    Validator.FirstNone(SinkFaults(p));
    assert forall i :: 0 <= i < |p.sinks| ==> SinkFaults(p)[i] == SinkFault(p, p.sinks[i]);
    forall s | s in p.sinks ensures SinkFault(p, s).None? <==> SinkFed(p, s) { SinkIff(p, s); }
  }

  /** Acceptance, check by check. */
  lemma AcceptedIffChecked(d: Durations, p: Pipeline)
    ensures Accepted(d, p) <==> Checked(d, p)
  {
    Validator.FirstOfAll(d, p);
    Validator.FirstConcat(SourceFaults(d, p), TransformFaults(d, p));
    Validator.FirstConcat(JoinFaults(p), SinkFaults(p));
    DistinctIff(p.NodeIds());
    SettingsIff(d, p);
    UsesIff(p.Outputs(), p.Uses());
    hide *;
    hide Accepted, Checked;
    if Distinct(p.NodeIds()) {
      JoinsIff(p);
      SinksIff(p);
    }
    AcceptedParts(d, p);
  }

  lemma AcceptedParts(d: Durations, p: Pipeline)
    ensures Accepted(d, p) <==>
      && First(DuplicateFaults(p.NodeIds())).None?
      && First(SourceFaults(d, p)).None? && First(TransformFaults(d, p)).None?
      && First(UseFaults(p.Outputs(), p.Uses())).None? && First(ReachFaults(p)).None?
      && First(JoinFaults(p)).None? && First(SinkFaults(p)).None?
    ensures Checked(d, p) <==>
      && Distinct(p.NodeIds())
      && (forall s :: s in p.sources ==> SourceFault(d, s).None?)
      && (forall t :: t in p.transforms ==> TransformFault(d, t).None?)
      && Consumed(p.Outputs(), p.Uses())
      && (forall t :: t in p.transforms ==> Reachable(p, t.id))
      && (forall t :: t in p.transforms && t.Join? ==> Aligned(p, t))
      && (forall s :: s in p.sinks ==> SinkFed(p, s))
  {
    hide First, DuplicateFaults, SourceFaults, TransformFaults, UseFaults, ReachFaults, JoinFaults, SinkFaults;
    hide SourceFault, TransformFault, Consumed, Reachable, Aligned, SinkFed, Distinct;
    Validator.FirstOfAll(d, p);
    Validator.FirstConcat(SourceFaults(d, p), TransformFaults(d, p));
    Validator.FirstConcat(JoinFaults(p), SinkFaults(p));
  }

  // ---- Every output has one consumer ----

  lemma DistinctParts<T>(a: seq<T>, b: seq<T>)
    requires Distinct(a + b)
    ensures Distinct(a) && Distinct(b) && forall x :: x in a ==> x !in b
  {
    var s := a + b;
    assert forall i :: 0 <= i < |a| ==> s[i] == a[i];
    assert forall j :: 0 <= j < |b| ==> s[|a| + j] == b[j];
    forall i, j | 0 <= i < |a| && 0 <= j < |b| ensures a[i] != b[j] {
      assert s[i] != s[|a| + j];
    }
  }

  lemma {:induction false} InputsMember(ts: seq<Transform>, i: nat, x: Str)
    requires i < |ts| && x in ts[i].Inputs()
    ensures x in InputsOf(ts)
  {
    if i < |ts| - 1 { InputsMember(ts[..|ts| - 1], i, x); }
  }

  lemma {:induction false} InputsDisjoint(ts: seq<Transform>)
    requires Distinct(InputsOf(ts))
    ensures forall i :: 0 <= i < |ts| ==> Distinct(ts[i].Inputs())
    ensures forall i, j, x :: 0 <= i < j < |ts| && x in ts[i].Inputs() ==> x !in ts[j].Inputs()
  {
    hide Distinct, Transform.Inputs;
    if ts != [] {
      var n := |ts| - 1;
      DistinctParts(InputsOf(ts[..n]), ts[n].Inputs());
      InputsDisjoint(ts[..n]);
      forall i, x | 0 <= i < n && x in ts[i].Inputs() ensures x !in ts[n].Inputs() { InputsMember(ts[..n], i, x); }
    }
  }

  /** An output is read by one transform at most, whose inputs are all different, and by no sink beside it. */
  lemma OneConsumer(d: Durations, p: Pipeline, t: Transform, x: Str)
    requires Checked(d, p) && t in p.transforms && x in t.Inputs()
    ensures Distinct(t.Inputs())
    ensures forall u :: u in p.transforms && x in u.Inputs() ==> u == t
    ensures forall s :: s in p.sinks ==> s.input != x
    ensures ConsumerOf(p.transforms, x) == Some(t)
  {
    UsesParts(d, p);
    hide Checked, Distinct, Transform.Inputs;
    InputsDisjoint(p.transforms);
    var i :| 0 <= i < |p.transforms| && p.transforms[i] == t;
    InputsMember(p.transforms, i, x);
    forall u | u in p.transforms && x in u.Inputs() ensures u == t {
      var j :| 0 <= j < |p.transforms| && p.transforms[j] == u;
      assert i < j || j < i || i == j;
    }
    ConsumerFound(p.transforms, x);
  }

  lemma UsesParts(d: Durations, p: Pipeline)
    requires Checked(d, p)
    ensures Distinct(InputsOf(p.transforms))
    ensures forall s :: s in p.sinks ==> s.input !in InputsOf(p.transforms)
  {
    var fed := seq(|p.sinks|, i requires 0 <= i < |p.sinks| => p.sinks[i].input);
    DistinctParts(InputsOf(p.transforms), fed);
    forall s | s in p.sinks ensures s.input in fed {
      var i :| 0 <= i < |p.sinks| && p.sinks[i] == s;
      assert fed[i] == s.input;
    }
  }

  lemma {:induction false} ConsumerFound(ts: seq<Transform>, x: Str)
    ensures ConsumerOf(ts, x).Some? <==> exists t :: t in ts && x in t.Inputs()
    ensures ConsumerOf(ts, x).Some? ==> ConsumerOf(ts, x).value in ts && x in ConsumerOf(ts, x).value.Inputs()
  {
    hide Transform.Inputs;
    if ts != [] {
      ConsumerFound(ts[1..], x);
      assert ts[0] in ts;
      assert forall t :: t in ts <==> t == ts[0] || t in ts[1..];
    }
  }

  // ---- The key of every edge ----

  /** An edge into a window is keyed by that window's group_by. */
  lemma WindowInputKeyed(d: Durations, p: Pipeline, w: Transform)
    requires Checked(d, p) && w in p.transforms && w.Window?
    ensures KeySpecOf(w.input, p) == Keyed(w.groupBy)
  {
    OneConsumer(d, p, w, w.input);
  }

  /** The inputs of a join are windows, and every edge into it is keyed by the group_by they all share. */
  lemma JoinInputsKeyedAlike(d: Durations, p: Pipeline, j: Transform, a: Str, b: Str)
    requires Checked(d, p) && j in p.transforms && j.Join? && a in j.inputs && b in j.inputs
    ensures exists v, w :: (
      && IsWindow(p, a, v) && IsWindow(p, b, w) && v.groupBy == w.groupBy && v.size == w.size
      && KeySpecOf(a, p) == Keyed(v.groupBy) && KeySpecOf(b, p) == Keyed(v.groupBy))
  {
    var v := JoinInputKeyed(d, p, j, a);
    var w := JoinInputKeyed(d, p, j, b);
    assert Aligned(p, j);
  }

  lemma JoinInputKeyed(d: Durations, p: Pipeline, j: Transform, a: Str) returns (v: Transform)
    requires Checked(d, p) && j in p.transforms && j.Join? && a in j.inputs
    ensures IsWindow(p, a, v) && KeySpecOf(a, p) == Keyed(v.groupBy)
  {
    hide Checked, Distinct, FindTransform, ConsumerOf;
    OneConsumer(d, p, j, a);
    v := InputWindow(d, p, j, a);
  }

  lemma InputWindow(d: Durations, p: Pipeline, j: Transform, a: Str) returns (v: Transform)
    requires Checked(d, p) && j in p.transforms && j.Join? && a in j.inputs
    ensures IsWindow(p, a, v) && FindTransform(p.transforms, a) == Some(v)
  {
    hide FindTransform, Distinct;
    assert Aligned(p, j);
    v :| IsWindow(p, a, v);
    FindIs(p.transforms, a);
    SameId(p, v, FindTransform(p.transforms, a).value);
  }

  lemma SameFields(a: Record, b: Record, fields: seq<Str>)
    requires a.attrs == b.attrs && a.resource == b.resource
    ensures Fields(a, fields) == Fields(b, fields)
  {
  }

  /** Window outputs with the same labels that enter one join meet in one partition, whichever inputs they come by. */
  lemma JoinInputsMeet(d: Durations, p: Pipeline, j: Transform, a: Str, ra: Record, b: Str, rb: Record, partitions: u32)
    requires Checked(d, p) && j in p.transforms && j.Join? && a in j.inputs && b in j.inputs
    requires partitions > 0 && ra.attrs == rb.attrs && ra.resource == rb.resource
    ensures var (ka, kb) := (KeySpecOf(a, p), KeySpecOf(b, p));
      ka.Keyed? && kb.Keyed? && KeyedPartition(ra, ka.fields, partitions) == KeyedPartition(rb, kb.fields, partitions)
  {
    JoinInputsKeyedAlike(d, p, j, a, b);
    SameFields(ra, rb, KeySpecOf(a, p).fields);
  }

  // ---- What a window may assume of its settings ----

  /** The step between window starts; without a slide the windows tumble. */
  function SlideOf(d: Durations, w: Transform): Option<nat>
    requires w.Window?
  {
    d(if w.slide.Some? then w.slide.value else w.size)
  }

  /** An accepted window has a size and a step, with the step between one and the size except in the one case the
      checks let through: no slide, and a size of zero. */
  lemma WindowSettings(d: Durations, p: Pipeline, w: Transform)
    requires Checked(d, p) && w in p.transforms && w.Window?
    ensures d(w.size).Some? && SlideOf(d, w).Some? && w.maxGroups != Some(0)
    ensures 0 < SlideOf(d, w).value <= d(w.size).value <==> w.slide.Some? || d(w.size).value > 0
  {
    assert TransformFault(d, w).None?;
    var faults := WindowFaults(d, w);
    Validator.FirstNone(faults);
    assert faults[0].None? && faults[1].None? && faults[4].None?;
  }

  // ---- Cycles ----

  /** A cycle, listed against the direction of its edges. */
  ghost predicate IsCycle(p: Pipeline, c: seq<Str>) {
    |c| >= 2 && c[0] == c[|c| - 1] && forall i :: 0 <= i < |c| - 1 ==> Edge(p, c[i + 1], c[i])
  }

  lemma EdgeFrom(p: Pipeline, a: Str, t: Transform)
    requires Distinct(p.NodeIds()) && t in p.transforms && Edge(p, a, t.id)
    ensures a in t.Inputs()
  {
    var u :| u in p.transforms && u.id == t.id && a in u.Inputs();
    SameId(p, t, u);
  }

  lemma EdgeInto(p: Pipeline, a: Str, b: Str) returns (t: Transform)
    requires Edge(p, a, b)
    ensures t in p.transforms && t.id == b && a in t.Inputs()
  {
    t :| t in p.transforms && t.id == b && a in t.Inputs();
  }

  ghost predicate JoinIn(p: Pipeline, c: seq<Str>) {
    exists j :: j in p.transforms && j.Join? && j.id in c
  }

  /** A node with one input that is on a cycle gets that input from the cycle. */
  lemma InputOnCycle(p: Pipeline, c: seq<Str>, a: Str, b: Str)
    requires Distinct(p.NodeIds()) && IsCycle(p, c) && !JoinIn(p, c)
    requires b in c && Edge(p, a, b)
    ensures a in c
  {
    hide Edge;
    var i :| 0 <= i < |c| - 1 && c[i] == b;
    var t := EdgeInto(p, c[i + 1], b);
    EdgeFrom(p, a, t);
    assert !t.Join?;
  }

  lemma {:induction false} PathStaysOnCycle(p: Pipeline, c: seq<Str>, path: seq<Str>, k: nat)
    requires Distinct(p.NodeIds()) && IsCycle(p, c) && !JoinIn(p, c)
    requires k < |path| && path[k] in c && forall i :: 0 <= i < |path| - 1 ==> Edge(p, path[i], path[i + 1])
    ensures path[0] in c
  {
    hide Edge, IsCycle, JoinIn, Distinct;
    if k > 0 {
      assert Edge(p, path[k - 1], path[k - 1 + 1]);
      InputOnCycle(p, c, path[k - 1], path[k]);
      PathStaysOnCycle(p, c, path, k - 1);
    }
  }

  /** Every cycle in an accepted pipeline goes through a join; so one without joins has none. */
  lemma CyclesPassThroughJoin(d: Durations, p: Pipeline, c: seq<Str>)
    requires Checked(d, p) && IsCycle(p, c)
    ensures JoinIn(p, c)
  {
    hide Edge;
    if !JoinIn(p, c) {
      assert Edge(p, c[0 + 1], c[0]);
      var t := EdgeInto(p, c[1], c[0]);
      var path :| Path(p, path, t.id);
      PathStaysOnCycle(p, c, path, |path| - 1);
      var i :| 0 <= i < |c| - 1 && c[i] == path[0];
      var u := EdgeInto(p, c[i + 1], c[i]);
      var s :| s in p.sources && s.id == path[0];
      SourceIsNoTransform(p, s, u);
    }
  }

  // ---- Exactly when an accepted pipeline has no cycle ----

  /** The nodes whose inputs are all in earlier layers, from the sources on. */
  ghost function Layer(p: Pipeline, n: nat): set<Str> {
    if n == 0 then set s | s in p.sources :: s.id else Layer(p, n - 1) + FedBy(p, Layer(p, n - 1))
  }

  /** The transforms whose inputs are all among `ids`. */
  ghost function FedBy(p: Pipeline, ids: set<Str>): set<Str> {
    set t | t in p.transforms && (forall a :: a in t.Inputs() ==> a in ids) :: t.id
  }

  ghost predicate Startable(p: Pipeline, x: Str) {
    exists n: nat :: x in Layer(p, n)
  }

  lemma {:induction false} EarliestLayer(p: Pipeline, x: Str, n: nat) returns (r: nat)
    requires x in Layer(p, n)
    ensures r <= n && x in Layer(p, r) && (r > 0 ==> x in FedBy(p, Layer(p, r - 1)))
  {
    hide FedBy;
    r := n;
    if n > 0 && x in Layer(p, n - 1) {
      r := EarliestLayer(p, x, n - 1);
    }
  }

  lemma {:induction false} LayersGrow(p: Pipeline, m: nat, n: nat)
    requires m <= n
    ensures Layer(p, m) <= Layer(p, n)
  {
    hide FedBy;
    if m < n { LayersGrow(p, m, n - 1); }
  }

  /** An input of a node in a layer is in an earlier one. */
  lemma InputEarlier(p: Pipeline, a: Str, b: Str, n: nat) returns (m: nat)
    requires Distinct(p.NodeIds()) && b in Layer(p, n) && Edge(p, a, b)
    ensures m < n && a in Layer(p, m)
  {
    hide Distinct, Layer, FedBy;
    var r := EarliestLayer(p, b, n);
    var t := EdgeInto(p, a, b);
    NotInFirstLayer(p, t);
    FedInputs(p, a, t, Layer(p, r - 1));
    m := r - 1;
  }

  lemma NotInFirstLayer(p: Pipeline, t: Transform)
    requires Distinct(p.NodeIds()) && t in p.transforms
    ensures t.id !in Layer(p, 0)
  {
    hide Distinct;
    forall s | s in p.sources ensures s.id != t.id { SourceIsNoTransform(p, s, t); }
  }

  lemma FedInputs(p: Pipeline, a: Str, t: Transform, ids: set<Str>)
    requires Distinct(p.NodeIds()) && t in p.transforms && a in t.Inputs() && t.id in FedBy(p, ids)
    ensures a in ids
  {
    hide Distinct;
    var u :| u in p.transforms && u.id == t.id && forall x :: x in u.Inputs() ==> x in ids;
    SameId(p, t, u);
  }

  lemma {:induction false} NoCycleInLayers(p: Pipeline, c: seq<Str>, i: nat, n: nat) returns (m: nat)
    requires Distinct(p.NodeIds()) && IsCycle(p, c) && i < |c| && c[0] in Layer(p, n)
    ensures c[i] in Layer(p, m) && m + i <= n
  {
    hide Edge, Distinct, Layer;
    m := n;
    if i > 0 {
      var before := NoCycleInLayers(p, c, i - 1, n);
      assert Edge(p, c[i - 1 + 1], c[i - 1]);
      m := InputEarlier(p, c[i], c[i - 1], before);
    }
  }

  /** A cycle has no first node. */
  lemma {:induction false} CycleNotStartable(p: Pipeline, c: seq<Str>, n: nat)
    requires Distinct(p.NodeIds()) && IsCycle(p, c)
    ensures c[0] !in Layer(p, n)
    decreases n
  {
    hide Edge, Distinct, Layer;
    if c[0] in Layer(p, n) {
      var m := NoCycleInLayers(p, c, |c| - 1, n);
      CycleNotStartable(p, c, m);
    }
  }

  lemma {:induction false} AllInLayer(p: Pipeline, xs: seq<Str>) returns (n: nat)
    requires forall x :: x in xs ==> Startable(p, x)
    ensures forall x :: x in xs ==> x in Layer(p, n)
  {
    hide Layer;
    n := 0;
    if xs != [] {
      var k := |xs| - 1;
      var rest := AllInLayer(p, xs[..k]);
      assert xs == xs[..k] + [xs[k]];
      assert xs[k] in xs;
      var last: nat :| xs[k] in Layer(p, last);
      n := if rest < last then last else rest;
      LayersGrow(p, rest, n);
      LayersGrow(p, last, n);
    }
  }

  /** A node that cannot be started has a transform among its inputs that cannot. */
  lemma StuckInput(d: Durations, p: Pipeline, t: Transform) returns (u: Transform)
    requires Checked(d, p) && t in p.transforms && !Startable(p, t.id)
    ensures u in p.transforms && Edge(p, u.id, t.id) && !Startable(p, u.id)
  {
    hide Checked, Startable, Edge, Distinct;
    FedIsStartable(p, t);
    SourcesStartable(p);
    var x :| x in t.Inputs() && !Startable(p, x);
    InputIsOutput(d, p, t, x);
    u :| u in p.transforms && u.id == x;
    IsEdge(p, x, t);
  }

  lemma IsEdge(p: Pipeline, a: Str, t: Transform)
    requires t in p.transforms && a in t.Inputs()
    ensures Edge(p, a, t.id)
  {
  }

  lemma SourcesStartable(p: Pipeline)
    ensures forall s :: s in p.sources ==> Startable(p, s.id)
  {
    forall s | s in p.sources ensures Startable(p, s.id) {
      assert s.id in Layer(p, 0);
    }
  }

  lemma FedIsStartable(p: Pipeline, t: Transform)
    requires t in p.transforms
    ensures (forall x :: x in t.Inputs() ==> Startable(p, x)) ==> Startable(p, t.id)
  {
    hide Startable;
    if forall x :: x in t.Inputs() ==> Startable(p, x) {
      var n := AllInLayer(p, t.Inputs());
      assert t.id in FedBy(p, Layer(p, n));
      InLayer(p, t.id, n + 1);
    }
  }

  lemma InLayer(p: Pipeline, x: Str, n: nat)
    requires x in Layer(p, n)
    ensures Startable(p, x)
  {
  }

  lemma InputIsOutput(d: Durations, p: Pipeline, t: Transform, x: Str)
    requires Checked(d, p) && t in p.transforms && x in t.Inputs()
    ensures x in p.Outputs()
  {
    hide Transform.Inputs, Pipeline.Outputs;
    var i :| 0 <= i < |p.transforms| && p.transforms[i] == t;
    InputsMember(p.transforms, i, x);
    assert x in p.Uses();
  }

  lemma {:induction false} DistinctBound(s: seq<Str>, universe: set<Str>)
    requires Distinct(s) && forall x :: x in s ==> x in universe
    ensures |s| <= |universe|
  {
    if s != [] {
      var n := |s| - 1;
      assert s[n] in s;
      DistinctBound(s[..n], universe - {s[n]});
    }
  }

  /** Nodes that cannot be started, each fed by the next. */
  ghost predicate StuckChain(p: Pipeline, back: seq<Str>) {
    && back != [] && Distinct(back)
    && (forall i :: 0 <= i < |back| - 1 ==> Edge(p, back[i + 1], back[i]))
    && (forall x :: x in back ==> !Startable(p, x) && exists t :: t in p.transforms && t.id == x)
  }

  /** Following stuck inputs backwards among finitely many transforms closes a cycle. */
  lemma {:induction false} StuckCloses(d: Durations, p: Pipeline, back: seq<Str>) returns (c: seq<Str>)
    requires Checked(d, p) && StuckChain(p, back)
    ensures IsCycle(p, c)
    decreases |TransformSet(p)| - |back|
  {
    hide Checked, Edge, Startable, Distinct, TransformSet, StuckChain;
    var u := NextStuck(d, p, back);
    if u in back {
      c := ClosedChain(p, back, u);
    } else {
      ChainBound(p, back + [u]);
      c := StuckCloses(d, p, back + [u]);
    }
  }

  ghost function TransformSet(p: Pipeline): set<Str> {
    set t | t in p.transforms :: t.id
  }

  lemma ChainBound(p: Pipeline, back: seq<Str>)
    requires StuckChain(p, back)
    ensures |back| <= |TransformSet(p)|
  {
    DistinctBound(back, TransformSet(p));
  }

  lemma NextStuck(d: Durations, p: Pipeline, back: seq<Str>) returns (x: Str)
    requires Checked(d, p) && StuckChain(p, back)
    ensures Edge(p, x, back[|back| - 1])
    ensures x !in back ==> StuckChain(p, back + [x])
  {
    hide Checked, Edge, Startable;
    assert back[|back| - 1] in back;
    var t :| t in p.transforms && t.id == back[|back| - 1];
    var u := StuckInput(d, p, t);
    x := u.id;
  }

  lemma ClosedChain(p: Pipeline, back: seq<Str>, x: Str) returns (c: seq<Str>)
    requires StuckChain(p, back) && x in back && Edge(p, x, back[|back| - 1])
    ensures IsCycle(p, c)
  {
    hide Edge, Startable;
    var j :| 0 <= j < |back| && back[j] == x;
    c := back[j..] + [x];
    forall i | 0 <= i < |c| - 1 ensures Edge(p, c[i + 1], c[i]) {
      if i < |c| - 2 { assert Edge(p, back[j + i + 1], back[j + i]); }
    }
  }

  /** An accepted pipeline has no cycle exactly when its transforms can be started one after another, each once all
      of its inputs have been. */
  lemma AcyclicIff(d: Durations, p: Pipeline)
    requires Checked(d, p)
    ensures (forall c :: !IsCycle(p, c)) <==> forall t :: t in p.transforms ==> Startable(p, t.id)
  {
    assert Distinct(p.NodeIds());
    if c :| IsCycle(p, c) {
      CycleStuck(p, c);
    }
    if t :| t in p.transforms && !Startable(p, t.id) {
      assert StuckChain(p, [t.id]);
      var c := StuckCloses(d, p, [t.id]);
    }
  }

  lemma CycleStuck(p: Pipeline, c: seq<Str>)
    requires Distinct(p.NodeIds()) && IsCycle(p, c)
    ensures exists t :: t in p.transforms && !Startable(p, t.id)
  {
    hide Layer;
    assert Edge(p, c[0 + 1], c[0]);
    var t := EdgeInto(p, c[1], c[0]);
    forall n: nat ensures t.id !in Layer(p, n) { CycleNotStartable(p, c, n); }
  }

  // ---- A cycle that is accepted ----

  const LOOP_SOURCE: Str := [115]
  const LOOP_FIRST: Str := [97]
  const LOOP_SECOND: Str := [98]
  const LOOP_JOIN: Str := [106]

  /** A join of two windows, one of which reads the join. */
  function LoopPipeline(size: string): Pipeline {
    Pipeline(
      [Stdin(LOOP_SOURCE)],
      [
        Window(LOOP_FIRST, LOOP_SOURCE, size, None, None, None, [], None),
        Window(LOOP_SECOND, LOOP_JOIN, size, None, None, None, [], None),
        Join(LOOP_JOIN, [LOOP_FIRST, LOOP_SECOND], None, None)
      ],
      [])
  }

  /** The checks, meant to reject cycles, accept this one: a join counts as reached once any of its inputs is. */
  lemma AcceptedCycle(d: Durations, size: string)
    requires d(size).Some?
    ensures Accepted(d, LoopPipeline(size)) && IsCycle(LoopPipeline(size), [LOOP_JOIN, LOOP_SECOND, LOOP_JOIN])
  {
    hide Edge, Accepted, Checked, LoopPipeline;
    AcceptedIffChecked(d, LoopPipeline(size));
    LoopEdges(size);
    LoopChecked(d, size);
  }

  /** The checks also accept a window of size zero, which has no step, when no slide is given. */
  lemma AcceptedZeroSize(d: Durations, size: string)
    requires d(size) == Some(0)
    ensures var p := LoopPipeline(size);
      && Accepted(d, p) && IsWindow(p, LOOP_FIRST, p.transforms[0])
      && d(p.transforms[0].size) == Some(0) && SlideOf(d, p.transforms[0]) == Some(0)
  {
    hide Accepted, IsCycle;
    AcceptedCycle(d, size);
    assert LoopPipeline(size).transforms[0] in LoopPipeline(size).transforms;
  }

  lemma LoopEdges(size: string)
    ensures var p := LoopPipeline(size);
      && Edge(p, LOOP_SOURCE, LOOP_FIRST) && Edge(p, LOOP_FIRST, LOOP_JOIN)
      && Edge(p, LOOP_JOIN, LOOP_SECOND) && Edge(p, LOOP_SECOND, LOOP_JOIN)
  {
    var ts := LoopPipeline(size).transforms;
    assert ts[0] in ts && ts[1] in ts && ts[2] in ts;
    assert ts[2].Inputs()[0] == LOOP_FIRST && ts[2].Inputs()[1] == LOOP_SECOND;
    assert ts[0].Inputs()[0] == LOOP_SOURCE && ts[1].Inputs()[0] == LOOP_JOIN;
  }

  lemma LoopReachable(size: string)
    ensures var p := LoopPipeline(size);
      Reachable(p, LOOP_FIRST) && Reachable(p, LOOP_JOIN) && Reachable(p, LOOP_SECOND)
  {
    var p := LoopPipeline(size);
    LoopEdges(size);
    assert p.sources[0] in p.sources;
    Validator.SourceReachable(p, p.sources[0]);
    Validator.EdgeReachable(p, LOOP_SOURCE, LOOP_FIRST);
    Validator.EdgeReachable(p, LOOP_FIRST, LOOP_JOIN);
    Validator.EdgeReachable(p, LOOP_JOIN, LOOP_SECOND);
  }

  lemma LoopSettings(d: Durations, size: string)
    requires d(size).Some?
    ensures forall t :: t in LoopPipeline(size).transforms ==> TransformFault(d, t).None?
  {
    forall t | t in LoopPipeline(size).transforms ensures TransformFault(d, t).None? {
      if t.Window? {
        Validator.FirstNone(WindowFaults(d, t));
      }
    }
  }

  lemma InputsSnoc(ts: seq<Transform>, t: Transform)
    ensures InputsOf(ts + [t]) == InputsOf(ts) + t.Inputs()
  {
    assert (ts + [t])[..|ts|] == ts;
  }

  lemma LoopInputs(size: string)
    ensures LoopPipeline(size).Uses() == [LOOP_SOURCE, LOOP_JOIN, LOOP_FIRST, LOOP_SECOND]
    ensures LoopPipeline(size).NodeIds() == [LOOP_SOURCE, LOOP_FIRST, LOOP_SECOND, LOOP_JOIN]
  {
    hide InputsOf;
    var ts := LoopPipeline(size).transforms;
    InputsSnoc([], ts[0]);
    InputsSnoc([ts[0]], ts[1]);
    InputsSnoc([ts[0], ts[1]], ts[2]);
    assert InputsOf([]) == [] by { NoInputs(); }
    assert [] + [ts[0]] == [ts[0]] && [ts[0]] + [ts[1]] == [ts[0], ts[1]] && [ts[0], ts[1]] + [ts[2]] == ts;
  }

  lemma NoInputs()
    ensures InputsOf([]) == []
  {
  }

  lemma LoopOutputs(size: string)
    ensures LoopPipeline(size).Outputs() == {LOOP_SOURCE, LOOP_FIRST, LOOP_SECOND, LOOP_JOIN}
  {
    var p := LoopPipeline(size);
    var ts := p.transforms;
    assert p.sources[0] in p.sources && ts[0] in ts && ts[1] in ts && ts[2] in ts;
  }

  lemma FourDistinct(a: Str, b: Str, c: Str, e: Str)
    requires a != b && a != c && a != e && b != c && b != e && c != e
    ensures Distinct([a, b, c, e])
  {
  }

  lemma LoopUses(size: string)
    ensures Consumed(LoopPipeline(size).Outputs(), LoopPipeline(size).Uses())
    ensures Distinct(LoopPipeline(size).NodeIds())
  {
    hide Distinct, LoopPipeline;
    LoopInputs(size);
    LoopOutputs(size);
    assert LOOP_SOURCE[0] != LOOP_FIRST[0] && LOOP_SOURCE[0] != LOOP_SECOND[0] && LOOP_SOURCE[0] != LOOP_JOIN[0];
    assert LOOP_FIRST[0] != LOOP_SECOND[0] && LOOP_FIRST[0] != LOOP_JOIN[0] && LOOP_SECOND[0] != LOOP_JOIN[0];
    FourDistinct(LOOP_SOURCE, LOOP_JOIN, LOOP_FIRST, LOOP_SECOND);
    FourDistinct(LOOP_SOURCE, LOOP_FIRST, LOOP_SECOND, LOOP_JOIN);
  }

  lemma LoopChecked(d: Durations, size: string)
    requires d(size).Some?
    ensures Checked(d, LoopPipeline(size))
  {
    hide Reachable, TransformFault, Consumed, Distinct;
    LoopUses(size);
    LoopSettings(d, size);
    LoopReachable(size);
    LoopAligned(size);
  }

  lemma LoopAligned(size: string)
    ensures forall t :: t in LoopPipeline(size).transforms && t.Join? ==> Aligned(LoopPipeline(size), t)
  {
    var p := LoopPipeline(size);
    assert p.transforms[0] in p.transforms && p.transforms[1] in p.transforms;
    assert IsWindow(p, LOOP_FIRST, p.transforms[0]) && IsWindow(p, LOOP_SECOND, p.transforms[1]);
  }
}
