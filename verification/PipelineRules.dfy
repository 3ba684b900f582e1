/** What the checks of a pipeline amount to, rule by rule, and what their answers mean. */
module PipelineRules {
  import opened Wrappers
  import opened Records
  import opened ExprModel
  import opened Routing
  import opened Pipelines
  import opened PipelineGraphs
  import Validator

  // ---- The rules ----

  /** No two nodes have one id. */
  ghost predicate UniqueIds(p: Pipeline) {
    && (forall i, j :: 0 <= i < j < |p.sources| ==> p.sources[i].id != p.sources[j].id)
    && (forall i, j :: 0 <= i < j < |p.transforms| ==> p.transforms[i].id != p.transforms[j].id)
    && (forall i, j :: 0 <= i < j < |p.sinks| ==> p.sinks[i].id != p.sinks[j].id)
    && (forall s, t :: s in p.sources && t in p.transforms ==> s.id != t.id)
    && (forall s, k :: s in p.sources && k in p.sinks ==> s.id != k.id)
    && (forall t, k :: t in p.transforms && k in p.sinks ==> t.id != k.id)
  }

  ghost predicate SoundSource(d: Durations, s: Source) {
    s.Generator? ==> d(s.interval).Some?
  }

  /** Every duration reads, a slide is at least one and at most the size, no cap is zero, every expression parses. */
  ghost predicate SoundTransform(d: Durations, t: Transform) {
    match t
    case Window(_, _, size, slide, lateness, idleTimeout, _, maxGroups) =>
      && maxGroups != Some(0)
      && d(size).Some?
      && (lateness.Some? ==> d(lateness.value).Some?)
      && (idleTimeout.Some? ==> d(idleTimeout.value).Some?)
      && (slide.Some? ==> d(slide.value).Some? && 0 < d(slide.value).value <= d(size).value)
    case Map(_, _, text) => Parsed(text).Ok?
    case Join(_, _, expr, _) => expr.Some? ==> Parsed(expr.value).Ok?
    case _ => true
  }

  ghost predicate IsOutput(p: Pipeline, x: Str) {
    (exists s :: s in p.sources && s.id == x) || exists t :: t in p.transforms && t.id == x
  }

  /** Every input is some node's output, and no output is read twice. */
  ghost predicate UsedOnce(p: Pipeline) {
    && (forall t, x :: t in p.transforms && x in t.Inputs() ==> IsOutput(p, x))
    && (forall k :: k in p.sinks ==> IsOutput(p, k.input))
    && (forall t :: t in p.transforms ==> Distinct(t.Inputs()))
    && (forall i, j, x :: 0 <= i < j < |p.transforms| && x in p.transforms[i].Inputs() ==>
          x !in p.transforms[j].Inputs())
    && (forall i, j :: 0 <= i < j < |p.sinks| ==> p.sinks[i].input != p.sinks[j].input)
    && (forall t, k :: t in p.transforms && k in p.sinks ==> k.input !in t.Inputs())
  }

  ghost predicate WellFormed(d: Durations, p: Pipeline) {
    && UniqueIds(p)
    && (forall s :: s in p.sources ==> SoundSource(d, s))
    && (forall t :: t in p.transforms ==> SoundTransform(d, t))
    && UsedOnce(p)
    && (forall t :: t in p.transforms ==> Reachable(p, t.id))
    && (forall t :: t in p.transforms && t.Join? ==> Aligned(p, t))
    && (forall k :: k in p.sinks ==> SinkFed(p, k))
  }

  // ---- The checks amount to the rules ----

  lemma DistinctConcat<T>(a: seq<T>, b: seq<T>)
    ensures Distinct(a + b) <==> Distinct(a) && Distinct(b) && forall x :: x in a ==> x !in b
  {
    if Distinct(a + b) { DistinctParts(a, b); }
    if Distinct(a) && Distinct(b) && forall x :: x in a ==> x !in b {
      forall i, j | 0 <= i < j < |a + b| ensures (a + b)[i] != (a + b)[j] {
        if i < |a| <= j { assert a[i] in a && b[j - |a|] in b; }
      }
    }
  }

  lemma UniqueIdsIff(p: Pipeline)
    ensures Distinct(p.NodeIds()) <==> UniqueIds(p)
  {
    var (s, t, k) := (p.SourceIds(), p.TransformIds(), seq(|p.sinks|, i requires 0 <= i < |p.sinks| => p.sinks[i].id));
    DistinctConcat(s + t, k);
    DistinctConcat(s, t);
    Members(p, k);
    DistinctIds(p, k);
    hide Distinct;
    assert (forall x :: x in s + t ==> x !in k) <==> (forall x :: x in s ==> x !in k) && forall x :: x in t ==> x !in k;
    Disjoint(p, k);
  }

  lemma Disjoint(p: Pipeline, k: seq<Str>)
    requires k == seq(|p.sinks|, i requires 0 <= i < |p.sinks| => p.sinks[i].id)
    ensures (forall x :: x in p.SourceIds() ==> x !in p.TransformIds())
      <==> forall s, t :: s in p.sources && t in p.transforms ==> s.id != t.id
    ensures (forall x :: x in p.SourceIds() ==> x !in k)
      <==> forall s, z :: s in p.sources && z in p.sinks ==> s.id != z.id
    ensures (forall x :: x in p.TransformIds() ==> x !in k)
      <==> forall t, z :: t in p.transforms && z in p.sinks ==> t.id != z.id
  {
    hide Pipeline.SourceIds, Pipeline.TransformIds;
    Members(p, k);
    assert forall s :: s in p.sources ==> s.id in p.SourceIds();
    assert forall t :: t in p.transforms ==> t.id in p.TransformIds();
    assert forall z :: z in p.sinks ==> z.id in k;
  }

  lemma DistinctIds(p: Pipeline, k: seq<Str>)
    requires k == seq(|p.sinks|, i requires 0 <= i < |p.sinks| => p.sinks[i].id)
    ensures Distinct(p.SourceIds()) <==> forall i, j :: 0 <= i < j < |p.sources| ==> p.sources[i].id != p.sources[j].id
    ensures Distinct(p.TransformIds())
      <==> forall i, j :: 0 <= i < j < |p.transforms| ==> p.transforms[i].id != p.transforms[j].id
    ensures Distinct(k) <==> forall i, j :: 0 <= i < j < |p.sinks| ==> p.sinks[i].id != p.sinks[j].id
  {
    var s, t := p.SourceIds(), p.TransformIds();
    assert forall i :: 0 <= i < |s| ==> s[i] == p.sources[i].id;
    assert forall i :: 0 <= i < |t| ==> t[i] == p.transforms[i].id;
    assert forall i :: 0 <= i < |k| ==> k[i] == p.sinks[i].id;
    if Distinct(s) {
      forall i, j | 0 <= i < j < |p.sources| ensures p.sources[i].id != p.sources[j].id {
        assert s[i] != s[j];
      }
    } else {
      var i, j :| 0 <= i < j < |s| && s[i] == s[j];
      assert p.sources[i].id == p.sources[j].id;
    }
    if Distinct(t) {
      forall i, j | 0 <= i < j < |p.transforms| ensures p.transforms[i].id != p.transforms[j].id {
        assert t[i] != t[j];
      }
    } else {
      var i, j :| 0 <= i < j < |t| && t[i] == t[j];
      assert p.transforms[i].id == p.transforms[j].id;
    }
    if Distinct(k) {
      forall i, j | 0 <= i < j < |p.sinks| ensures p.sinks[i].id != p.sinks[j].id {
        assert k[i] != k[j];
      }
    } else {
      var i, j :| 0 <= i < j < |k| && k[i] == k[j];
      assert p.sinks[i].id == p.sinks[j].id;
    }
  }

  lemma Members(p: Pipeline, k: seq<Str>)
    requires k == seq(|p.sinks|, i requires 0 <= i < |p.sinks| => p.sinks[i].id)
    ensures forall x :: x in p.SourceIds() <==> exists s :: s in p.sources && s.id == x
    ensures forall x :: x in p.TransformIds() <==> exists t :: t in p.transforms && t.id == x
    ensures forall x :: x in k <==> exists z :: z in p.sinks && z.id == x
  {
    forall x ensures x in p.SourceIds() <==> exists s :: s in p.sources && s.id == x {
      if s :| s in p.sources && s.id == x {
        var i :| 0 <= i < |p.sources| && p.sources[i] == s;
        assert p.SourceIds()[i] == x;
      }
    }
    forall x ensures x in p.TransformIds() <==> exists t :: t in p.transforms && t.id == x {
      if t :| t in p.transforms && t.id == x {
        var i :| 0 <= i < |p.transforms| && p.transforms[i] == t;
        assert p.TransformIds()[i] == x;
      }
    }
    forall x ensures x in k <==> exists z :: z in p.sinks && z.id == x {
      if z :| z in p.sinks && z.id == x {
        var i :| 0 <= i < |p.sinks| && p.sinks[i] == z;
        assert k[i] == x;
      }
    }
  }

  lemma SourceSoundIff(d: Durations, s: Source)
    ensures SourceFault(d, s).None? <==> SoundSource(d, s)
  {
  }

  lemma TransformSoundIff(d: Durations, t: Transform)
    ensures TransformFault(d, t).None? <==> SoundTransform(d, t)
  {
    hide Parsed;
    if t.Window? {
      var faults := WindowFaults(d, t);
      Validator.FirstNone(faults);
      assert faults[0].None? <==> t.maxGroups != Some(0);
      assert faults[1].None? <==> d(t.size).Some?;
      assert faults[2].None? <==> (t.lateness.Some? ==> d(t.lateness.value).Some?);
      assert faults[3].None? <==> (t.idleTimeout.Some? ==> d(t.idleTimeout.value).Some?);
      assert faults[4].None? <==> (t.slide.Some? ==>
        d(t.slide.value).Some? && 0 < d(t.slide.value).value
        && (d(t.size).Some? ==> d(t.slide.value).value <= d(t.size).value));
      assert |faults| == 5;
      assert (forall i :: 0 <= i < 5 ==> faults[i].None?)
        <==> faults[0].None? && faults[1].None? && faults[2].None? && faults[3].None? && faults[4].None?;
    }
  }

  lemma {:induction false} InputsOfMember(ts: seq<Transform>, x: Str)
    ensures x in InputsOf(ts) <==> exists t :: t in ts && x in t.Inputs()
  {
    hide Transform.Inputs;
    if ts != [] {
      var n := |ts| - 1;
      InputsOfMember(ts[..n], x);
      assert ts == ts[..n] + [ts[n]];
      assert ts[n] in ts;
    }
  }

  lemma {:induction false} InputsOfDistinct(ts: seq<Transform>)
    ensures Distinct(InputsOf(ts)) <==>
      && (forall i :: 0 <= i < |ts| ==> Distinct(ts[i].Inputs()))
      && (forall i, j, x :: 0 <= i < j < |ts| && x in ts[i].Inputs() ==> x !in ts[j].Inputs())
  {
    hide Transform.Inputs, Distinct;
    if ts == [] {
      NothingRepeats<Str>();
    } else {
      var n := |ts| - 1;
      InputsOfDistinct(ts[..n]);
      DistinctConcat(InputsOf(ts[..n]), ts[n].Inputs());
      forall x ensures x in InputsOf(ts[..n]) <==> exists i :: 0 <= i < n && x in ts[i].Inputs() {
        InputsOfMember(ts[..n], x);
        if i :| 0 <= i < n && x in ts[i].Inputs() { assert ts[..n][i] in ts[..n]; }
      }
    }
  }

  lemma NothingRepeats<T>()
    ensures Distinct<T>([])
  {
  }

  lemma UsedOnceIff(p: Pipeline)
    ensures Consumed(p.Outputs(), p.Uses()) <==> UsedOnce(p)
  {
    var ins, fed := InputsOf(p.transforms), seq(|p.sinks|, i requires 0 <= i < |p.sinks| => p.sinks[i].input);
    DistinctConcat(ins, fed);
    InputsOfDistinct(p.transforms);
    SinkInputs(p, fed);
    TransformInputs(p);
    hide Transform.Inputs, Distinct, InputsOf, IsOutput;
    assert p.Uses() == ins + fed;
    forall x ensures x in p.Outputs() <==> IsOutput(p, x) { OutputIff(p, x); }
    hide Pipeline.Outputs, Pipeline.Uses;
    UsesResolve(p, ins, fed);
  }

  lemma OutputIff(p: Pipeline, x: Str)
    ensures x in p.Outputs() <==> IsOutput(p, x)
  {
  }

  lemma TransformInputs(p: Pipeline)
    ensures forall x :: x in InputsOf(p.transforms) <==> exists t :: t in p.transforms && x in t.Inputs()
    ensures (forall t :: t in p.transforms ==> Distinct(t.Inputs()))
        <==> forall i :: 0 <= i < |p.transforms| ==> Distinct(p.transforms[i].Inputs())
  {
    hide Transform.Inputs, Distinct, InputsOf;
    forall x ensures x in InputsOf(p.transforms) <==> exists t :: t in p.transforms && x in t.Inputs() {
      InputsOfMember(p.transforms, x);
    }
    assert forall i :: 0 <= i < |p.transforms| ==> p.transforms[i] in p.transforms;
  }

  lemma UsesResolve(p: Pipeline, ins: seq<Str>, fed: seq<Str>)
    requires forall x :: x in ins <==> exists t :: t in p.transforms && x in t.Inputs()
    requires forall x :: x in fed <==> exists k :: k in p.sinks && k.input == x
    ensures (forall x :: x in ins + fed ==> IsOutput(p, x)) <==>
      && (forall t, x :: t in p.transforms && x in t.Inputs() ==> IsOutput(p, x))
      && (forall k :: k in p.sinks ==> IsOutput(p, k.input))
    ensures (forall x :: x in ins ==> x !in fed)
      <==> forall t, k :: t in p.transforms && k in p.sinks ==> k.input !in t.Inputs()
  {
    hide Transform.Inputs, IsOutput;
    assert forall x :: x in ins + fed <==> x in ins || x in fed;
    assert forall k :: k in p.sinks ==> k.input in fed;
    assert forall t, x :: t in p.transforms && x in t.Inputs() ==> x in ins;
  }

  lemma SinkInputs(p: Pipeline, fed: seq<Str>)
    requires fed == seq(|p.sinks|, i requires 0 <= i < |p.sinks| => p.sinks[i].input)
    ensures forall x :: x in fed <==> exists k :: k in p.sinks && k.input == x
    ensures Distinct(fed) <==> forall i, j :: 0 <= i < j < |p.sinks| ==> p.sinks[i].input != p.sinks[j].input
  {
    forall x ensures x in fed <==> exists k :: k in p.sinks && k.input == x {
      if k :| k in p.sinks && k.input == x {
        var i :| 0 <= i < |p.sinks| && p.sinks[i] == k;
        assert fed[i] == x;
      }
    }
    assert forall i :: 0 <= i < |p.sinks| ==> fed[i] == p.sinks[i].input;
    if Distinct(fed) {
      forall i, j | 0 <= i < j < |p.sinks| ensures p.sinks[i].input != p.sinks[j].input { assert fed[i] != fed[j]; }
    }
  }

  /** The checks accept exactly the pipelines that keep the rules. */
  lemma AcceptsExactly(d: Durations, p: Pipeline)
    ensures Accepted(d, p) <==> WellFormed(d, p)
    ensures Checked(d, p) <==> WellFormed(d, p)
  {
    hide Accepted, UniqueIds, UsedOnce, Consumed, Distinct, SoundSource, SoundTransform, SourceFault, TransformFault;
    hide Reachable, Aligned, SinkFed;
    AcceptedIffChecked(d, p);
    UniqueIdsIff(p);
    UsedOnceIff(p);
    forall s ensures SourceFault(d, s).None? <==> SoundSource(d, s) { SourceSoundIff(d, s); }
    forall t ensures TransformFault(d, t).None? <==> SoundTransform(d, t) { TransformSoundIff(d, t); }
  }

  // ---- What the answers mean ----

  /** What a problem says of the pipeline. */
  ghost predicate Real(d: Durations, p: Pipeline, problem: Problem) {
    match problem
    case DuplicateId(id) =>
      exists i, j :: 0 <= i < j < |p.NodeIds()| && p.NodeIds()[i] == id && p.NodeIds()[j] == id
    case BadDuration(node, text) =>
      d(text).None? && (HasInterval(p, node, text) || exists w :: IsWindow(p, node, w) && HasDuration(w, text))
    case NoGroupsAllowed(node) =>
      exists t :: t in p.transforms && t.id == node && (t.Window? || t.Join?) && t.maxGroups == Some(0)
    case ZeroSlide(node) =>
      exists w :: IsWindow(p, node, w) && w.slide.Some? && d(w.slide.value) == Some(0)
    case SlideBeyondSize(node) =>
      exists w :: IsWindow(p, node, w) && IsSlideBeyond(d, w)
    case BadExpression(node, e) =>
      exists t :: t in p.transforms && t.id == node && HasExpression(t) && Parsed(ExpressionOf(t)) == Err(e)
    case UnknownInput(x) => x in p.Uses() && !IsOutput(p, x)
    case MultipleConsumers(x) =>
      exists i, j :: 0 <= i < j < |p.Uses()| && p.Uses()[i] == x && p.Uses()[j] == x
    case Unreachable(x) => (exists t :: t in p.transforms && t.id == x) && !Reachable(p, x)
    case InputNotWindow(node, x) => (exists j :: IsJoin(p, node, j) && x in j.inputs) && forall w :: !IsWindow(p, x, w)
    case InputsNotAligned(node) => exists j :: IsJoin(p, node, j) && Misaligned(p, j)
    case AlignOnlyJoinIntoSink(node) =>
      (exists j :: IsJoin(p, node, j) && j.expr.None?) && exists k :: k in p.sinks && k.input == node
  }

  predicate HasInterval(p: Pipeline, node: Str, text: string) {
    Generator(node, text) in p.sources
  }

  predicate HasDuration(w: Transform, text: string)
    requires w.Window?
  {
    text == w.size || w.lateness == Some(text) || w.idleTimeout == Some(text) || w.slide == Some(text)
  }

  predicate IsSlideBeyond(d: Durations, w: Transform)
    requires w.Window?
  {
    w.slide.Some? && d(w.slide.value).Some? && d(w.size).Some? && d(w.slide.value).value > d(w.size).value
  }

  predicate HasExpression(t: Transform) {
    t.Map? || (t.Join? && t.expr.Some?)
  }

  function ExpressionOf(t: Transform): string
    requires HasExpression(t)
  {
    if t.Map? then t.text else t.expr.value
  }

  ghost predicate IsJoin(p: Pipeline, id: Str, j: Transform) {
    j in p.transforms && j.Join? && j.id == id
  }

  /** Two inputs of the join are windows of different group_by or size. */
  ghost predicate Misaligned(p: Pipeline, j: Transform)
    requires j.Join?
  {
    exists a, b, v, w :: a in j.inputs && b in j.inputs && IsWindow(p, a, v) && IsWindow(p, b, w)
      && (v.groupBy != w.groupBy || v.size != w.size)
  }

  lemma {:induction false} FirstIsOne(faults: Faults)
    ensures First(faults).Some? ==> First(faults) in faults
  {
    if faults != [] { FirstIsOne(faults[1..]); }
  }

  lemma IdProblem(d: Durations, p: Pipeline, f: Option<Problem>)
    requires f in DuplicateFaults(p.NodeIds()) && f.Some?
    ensures Real(d, p, f.value)
  {
    var ids := p.NodeIds();
    var j :| 0 <= j < |ids| && DuplicateFaults(ids)[j] == f;
    var i :| 0 <= i < j && ids[..j][i] == ids[j];
    assert ids[i] == ids[j];
  }

  lemma SourceProblem(d: Durations, p: Pipeline, f: Option<Problem>)
    requires f in SourceFaults(d, p) && f.Some?
    ensures Real(d, p, f.value)
  {
    var i :| 0 <= i < |p.sources| && SourceFaults(d, p)[i] == f;
    assert p.sources[i] in p.sources;
  }

  lemma TransformProblem(d: Durations, p: Pipeline, f: Option<Problem>)
    requires f in TransformFaults(d, p) && f.Some?
    ensures Real(d, p, f.value)
  {
    hide Parsed;
    var i :| 0 <= i < |p.transforms| && TransformFaults(d, p)[i] == f;
    var t := p.transforms[i];
    assert t in p.transforms;
    if t.Window? {
      assert IsWindow(p, t.id, t);
      WindowProblem(d, p, t, f);
    }
  }

  lemma WindowProblem(d: Durations, p: Pipeline, w: Transform, f: Option<Problem>)
    requires IsWindow(p, w.id, w) && f == First(WindowFaults(d, w)) && f.Some?
    ensures Real(d, p, f.value)
  {
    var faults := WindowFaults(d, w);
    FirstIsOne(faults);
    assert f == faults[0] || f == faults[1] || f == faults[2] || f == faults[3] || f == faults[4];
  }

  lemma UseProblem(d: Durations, p: Pipeline, f: Option<Problem>)
    requires f in UseFaults(p.Outputs(), p.Uses()) && f.Some?
    ensures Real(d, p, f.value)
  {
    hide Pipeline.Outputs, Pipeline.Uses;
    var uses := p.Uses();
    var j :| 0 <= j < |uses| && UseFaults(p.Outputs(), uses)[j] == f;
    OutputIff(p, uses[j]);
    if uses[j] in uses[..j] {
      var i :| 0 <= i < j && uses[..j][i] == uses[j];
      assert uses[i] == uses[j];
    }
  }

  lemma ReachProblem(d: Durations, p: Pipeline, f: Option<Problem>)
    requires f in ReachFaults(p) && f.Some?
    ensures Real(d, p, f.value)
  {
    hide Reachable;
    var i :| 0 <= i < |p.transforms| && ReachFaults(p)[i] == f;
    assert p.transforms[i] in p.transforms;
  }

  lemma JoinProblem(d: Durations, p: Pipeline, f: Option<Problem>)
    requires f in JoinFaults(p) && f.Some?
    ensures Real(d, p, f.value)
  {
    hide WindowShapes;
    var shapes := WindowShapes(p.transforms);
    var n :| 0 <= n < |p.transforms| && JoinFaults(p)[n] == f;
    var j := p.transforms[n];
    assert j in p.transforms && f == JoinFault(shapes, j);
    if j.maxGroups != Some(0) {
      FirstIsOne(JoinInputFaults(shapes, j));
      var i :| 0 <= i < |j.inputs| && JoinInputFaults(shapes, j)[i] == f;
      InputProblem(d, p, j, i);
    }
  }

  lemma InputProblem(d: Durations, p: Pipeline, j: Transform, i: nat)
    requires IsJoin(p, j.id, j) && i < |j.inputs| && JoinInputFault(WindowShapes(p.transforms), j, i).Some?
    ensures Real(d, p, JoinInputFault(WindowShapes(p.transforms), j, i).value)
  {
    hide WindowShapes;
    var shapes := WindowShapes(p.transforms);
    var x, first := j.inputs[i], j.inputs[0];
    ShapesAre(p.transforms, x);
    ShapesAre(p.transforms, first);
    assert x in j.inputs && first in j.inputs;
    if x in shapes {
      var w :| w in p.transforms && w.Window? && w.id == x && shapes[x] == Shape(w.groupBy, w.size);
      var v :| v in p.transforms && v.Window? && v.id == first && shapes[first] == Shape(v.groupBy, v.size);
      assert IsWindow(p, first, v) && IsWindow(p, x, w);
    }
  }

  lemma SinkProblem(d: Durations, p: Pipeline, f: Option<Problem>)
    requires f in SinkFaults(p) && f.Some?
    ensures Real(d, p, f.value)
  {
    var i :| 0 <= i < |p.sinks| && SinkFaults(p)[i] == f;
    FindIs(p.transforms, p.sinks[i].input);
    var j := FindTransform(p.transforms, p.sinks[i].input).value;
    assert IsJoin(p, j.id, j) && p.sinks[i] in p.sinks;
  }

  /** Whatever the checks answer is so. */
  lemma AnswersAreReal(d: Durations, p: Pipeline)
    requires First(AllFaults(d, p)).Some?
    ensures Real(d, p, First(AllFaults(d, p)).value)
  {
    hide First, DuplicateFaults, SourceFaults, TransformFaults, UseFaults, ReachFaults, JoinFaults, SinkFaults, Real;
    var f := First(AllFaults(d, p));
    FirstIsOne(AllFaults(d, p));
    if f in DuplicateFaults(p.NodeIds()) { IdProblem(d, p, f); }
    else if f in SourceFaults(d, p) { SourceProblem(d, p, f); }
    else if f in TransformFaults(d, p) { TransformProblem(d, p, f); }
    else if f in UseFaults(p.Outputs(), p.Uses()) { UseProblem(d, p, f); }
    else if f in ReachFaults(p) { ReachProblem(d, p, f); }
    else if f in JoinFaults(p) { JoinProblem(d, p, f); }
    else { SinkProblem(d, p, f); }
  }

  // ---- Edges that carry no key ----

  /** An output that no window and no join reads is not keyed. */
  lemma OtherEdgesUnkeyed(p: Pipeline, x: Str)
    requires forall t :: t in p.transforms && x in t.Inputs() ==> !t.Window? && !t.Join?
    ensures KeySpecOf(x, p).Unkeyed?
  {
    hide Transform.Inputs;
    ConsumerFound(p.transforms, x);
  }
}
