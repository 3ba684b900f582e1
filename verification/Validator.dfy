/** The checks a pipeline must pass before it is run. */
module Validator {
  import opened Wrappers
  import opened Records
  import opened ExprModel
  import opened Pipelines

  lemma {:induction false} FirstAt(faults: Faults, i: nat)
    requires i < |faults| && faults[i].Some? && forall j :: 0 <= j < i ==> faults[j].None?
    ensures First(faults) == faults[i]
  {
    if i > 0 {
      assert forall j :: 1 <= j < |faults| ==> faults[j] == faults[1..][j - 1];
      FirstAt(faults[1..], i - 1);
    }
  }

  lemma {:induction false} FirstNone(faults: Faults)
    ensures First(faults).None? <==> forall j :: 0 <= j < |faults| ==> faults[j].None?
  {
    if faults != [] {
      FirstNone(faults[1..]);
      assert forall j :: 1 <= j < |faults| ==> faults[j] == faults[1..][j - 1];
    }
  }

  lemma {:induction false} FirstConcat(a: Faults, b: Faults)
    ensures First(a + b) == if First(a).Some? then First(a) else First(b)
  {
    if a == [] {
      assert a + b == b;
    } else {
      FirstConcat(a[1..], b);
      assert (a + b)[1..] == a[1..] + b;
    }
  }

  /** Whether `faults` has none among its first `upto`. */
  ghost predicate ClearUpTo(faults: Faults, upto: nat) {
    upto <= |faults| && forall j :: 0 <= j < upto ==> faults[j].None?
  }

  method CheckIds(ids: seq<Str>) returns (r: Option<Problem>)
    ensures r == First(DuplicateFaults(ids))
  {
    ghost var faults := DuplicateFaults(ids);
    var all: set<Str> := {};
    for i := 0 to |ids|
      invariant ClearUpTo(faults, i)
      invariant all == set x | x in ids[..i]
    {
      if ids[i] in all {
        FirstAt(faults, i);
        return Some(DuplicateId(ids[i]));
      }
      all := all + {ids[i]};
    }
    FirstNone(faults);
    r := None;
  }

  method CheckWindow(d: Durations, w: Transform) returns (r: Option<Problem>)
    requires w.Window?
    ensures r == First(WindowFaults(d, w))
  {
    ghost var faults := WindowFaults(d, w);
    FirstNone(faults);
    var size := d(w.size);
    if w.maxGroups == Some(0) {
      FirstAt(faults, 0);
      return Some(NoGroupsAllowed(w.id));
    }
    if size.None? {
      FirstAt(faults, 1);
      return Some(BadDuration(w.id, w.size));
    }
    if w.lateness.Some? && d(w.lateness.value).None? {
      FirstAt(faults, 2);
      return Some(BadDuration(w.id, w.lateness.value));
    }
    if w.idleTimeout.Some? && d(w.idleTimeout.value).None? {
      FirstAt(faults, 3);
      return Some(BadDuration(w.id, w.idleTimeout.value));
    }
    if w.slide.Some? {
      var slide := d(w.slide.value);
      r := if slide.None? then Some(BadDuration(w.id, w.slide.value))
      else if slide.value == 0 then Some(ZeroSlide(w.id))
      else if slide.value > size.value then Some(SlideBeyondSize(w.id))
      else None;
      if r.Some? {
        FirstAt(faults, 4);
        return r;
      }
    }
    r := None;
  }

  method CheckExpression(node: Str, text: string) returns (r: Option<Problem>)
    ensures r == ExpressionFault(node, text)
  {
    hide Parsed;
    var parsed := Parse(text);
    r := if parsed.Err? then Some(BadExpression(node, parsed.error)) else None;
  }

  method CheckSettings(d: Durations, p: Pipeline) returns (r: Option<Problem>)
    ensures r == First(SourceFaults(d, p) + TransformFaults(d, p))
  {
    hide ExpressionFault, WindowFaults;
    ghost var sources, transforms := SourceFaults(d, p), TransformFaults(d, p);
    FirstConcat(sources, transforms);
    for i := 0 to |p.sources|
      invariant ClearUpTo(sources, i)
    {
      var s := p.sources[i];
      if s.Generator? && d(s.interval).None? {
        FirstAt(sources, i);
        return Some(BadDuration(s.id, s.interval));
      }
    }
    FirstNone(sources);
    for i := 0 to |p.transforms|
      invariant ClearUpTo(transforms, i)
    {
      var t := p.transforms[i];
      var fault: Option<Problem> := None;
      if t.Window? {
        fault := CheckWindow(d, t);
      } else if t.Map? {
        fault := CheckExpression(t.id, t.text);
      } else if t.Join? && t.expr.Some? {
        fault := CheckExpression(t.id, t.expr.value);
      }
      if fault.Some? {
        FirstAt(transforms, i);
        return fault;
      }
    }
    FirstNone(transforms);
    r := None;
  }

  method CheckUses(outputs: set<Str>, uses: seq<Str>) returns (r: Option<Problem>)
    ensures r == First(UseFaults(outputs, uses))
  {
    ghost var faults := UseFaults(outputs, uses);
    var consumed: set<Str> := {};
    for i := 0 to |uses|
      invariant ClearUpTo(faults, i)
      invariant consumed == set x | x in uses[..i]
    {
      if uses[i] !in outputs {
        FirstAt(faults, i);
        return Some(UnknownInput(uses[i]));
      }
      if uses[i] in consumed {
        FirstAt(faults, i);
        return Some(MultipleConsumers(uses[i]));
      }
      consumed := consumed + {uses[i]};
    }
    FirstNone(faults);
    r := None;
  }

  // ---- Reachability, by worklist ----

  /** The ids of the transforms among the first `upto` that read `a`. */
  ghost predicate ReadBy(p: Pipeline, upto: nat, a: Str, b: Str)
    requires upto <= |p.transforms|
  {
    exists i :: 0 <= i < upto && p.transforms[i].id == b && a in p.transforms[i].Inputs()
  }

  function ReadersOf(consumers: map<Str, seq<Str>>, a: Str): seq<Str> {
    if a in consumers then consumers[a] else []
  }

  lemma OneMoreReader(consumers: map<Str, seq<Str>>, x: Str, id: Str)
    ensures var after := consumers[x := ReadersOf(consumers, x) + [id]];
      forall a, b :: b in ReadersOf(after, a) <==> b in ReadersOf(consumers, a) || (b == id && a == x)
  {
  }

  method Consumers(p: Pipeline) returns (consumers: map<Str, seq<Str>>)
    ensures forall a, b :: b in ReadersOf(consumers, a) <==> Edge(p, a, b)
  {
    consumers := map[];
    for i := 0 to |p.transforms|
      invariant forall a, b :: b in ReadersOf(consumers, a) <==> ReadBy(p, i, a, b)
    {
      ghost var before := consumers;
      var t := p.transforms[i];
      var inputs := t.Inputs();
      for k := 0 to |inputs|
        invariant forall a, b ::
          b in ReadersOf(consumers, a) <==> b in ReadersOf(before, a) || (b == t.id && a in inputs[..k])
      {
        assert inputs[..k + 1] == inputs[..k] + [inputs[k]];
        OneMoreReader(consumers, inputs[k], t.id);
        consumers := consumers[inputs[k] := ReadersOf(consumers, inputs[k]) + [t.id]];
      }
      assert inputs[..|inputs|] == inputs;
      forall a, b ensures ReadBy(p, i + 1, a, b) <==> ReadBy(p, i, a, b) || (b == t.id && a in inputs) {
        if b == t.id && a in inputs { assert p.transforms[i].id == b; }
      }
    }
    forall a, b ensures ReadBy(p, |p.transforms|, a, b) <==> Edge(p, a, b) {
      if Edge(p, a, b) {
        var t :| t in p.transforms && t.id == b && a in t.Inputs();
        var i :| 0 <= i < |p.transforms| && p.transforms[i] == t;
      }
    }
  }

  lemma SourceReachable(p: Pipeline, s: Source)
    requires s in p.sources
    ensures Reachable(p, s.id)
  {
    assert Path(p, [s.id], s.id);
  }

  lemma EdgeReachable(p: Pipeline, a: Str, b: Str)
    requires Reachable(p, a) && Edge(p, a, b)
    ensures Reachable(p, b)
  {
    hide Edge;
    var path :| Path(p, path, a);
    assert Path(p, path + [b], b);
  }

  /** A set that holds the sources and is closed under edges holds everything reachable. */
  lemma {:induction false} ReachableInClosed(p: Pipeline, seen: set<Str>, path: seq<Str>, x: Str)
    requires Path(p, path, x)
    requires forall s :: s in p.sources ==> s.id in seen
    requires forall a, b :: a in seen && Edge(p, a, b) ==> b in seen
    ensures x in seen
  {
    hide Edge;
    if |path| > 1 {
      var n := |path| - 1;
      ReachableInClosed(p, seen, path[..n], path[n - 1]);
      assert Edge(p, path[n - 1], path[n]);
    }
  }

  method ListOf(s: set<Str>) returns (r: seq<Str>)
    ensures forall x :: x in r <==> x in s
  {
    r := [];
    var rest := s;
    while rest != {}
      invariant rest <= s && forall x :: x in s <==> x in r || x in rest
      invariant forall x :: x in r ==> x in s
      decreases |rest|
    {
      var x :| x in rest;
      r := r + [x];
      rest := rest - {x};
    }
  }

  method PushUnseen(seen: set<Str>, stack: seq<Str>, readers: seq<Str>) returns (seen': set<Str>, stack': seq<Str>)
    ensures seen' == seen + set c | c in readers
    ensures forall x :: x in stack' <==> x in stack || (x in readers && x !in seen)
    ensures seen' == seen ==> stack' == stack
  {
    seen', stack' := seen, stack;
    for k := 0 to |readers|
      invariant seen' == seen + set c | c in readers[..k]
      invariant forall x :: x in stack' <==> x in stack || (x in readers[..k] && x !in seen)
      invariant seen' == seen ==> stack' == stack
    {
      var c := readers[k];
      if c !in seen' {
        seen', stack' := seen' + {c}, stack' + [c];
      }
    }
    assert readers[..|readers|] == readers;
  }

  /** Everything a run from the sources reaches, and nothing else. */
  method ReachableIds(p: Pipeline) returns (seen: set<Str>)
    ensures forall x :: x in seen <==> Reachable(p, x)
  {
    hide Edge, Reachable, Path;
    var consumers := Consumers(p);
    seen := set s | s in p.sources :: s.id;
    forall s | s in p.sources ensures Reachable(p, s.id) { SourceReachable(p, s); }
    var stack := ListOf(seen);
    ghost var universe := p.Outputs();
    forall a, b | Edge(p, a, b) ensures b in universe { EdgeTarget(p, a, b); }
    while stack != []
      invariant seen <= universe
      invariant forall s :: s in p.sources ==> s.id in seen
      invariant forall x :: x in seen ==> Reachable(p, x)
      invariant forall x :: x in stack ==> x in seen
      invariant forall a, b :: a in seen && a !in stack && Edge(p, a, b) ==> b in seen
      decreases |universe - seen|, |stack|
    {
      var n := stack[|stack| - 1];
      assert forall x :: x in stack ==> x in stack[..|stack| - 1] || x == n;
      ghost var before := seen;
      var readers := ReadersOf(consumers, n);
      forall c | c in readers ensures Reachable(p, c) { EdgeReachable(p, n, c); }
      seen, stack := PushUnseen(seen, stack[..|stack| - 1], readers);
      Shrinks(universe, before, seen);
    }
    forall x | Reachable(p, x) ensures x in seen { ClosedHoldsReachable(p, seen, x); }
  }

  lemma ClosedHoldsReachable(p: Pipeline, seen: set<Str>, x: Str)
    requires Reachable(p, x)
    requires forall s :: s in p.sources ==> s.id in seen
    requires forall a, b :: a in seen && Edge(p, a, b) ==> b in seen
    ensures x in seen
  {
    hide Edge, Path;
    var path :| Path(p, path, x);
    ReachableInClosed(p, seen, path, x);
  }

  lemma EdgeTarget(p: Pipeline, a: Str, b: Str)
    requires Edge(p, a, b)
    ensures b in p.Outputs()
  {
  }

  lemma Shrinks(universe: set<Str>, a: set<Str>, b: set<Str>)
    requires a <= b <= universe
    ensures a == b || |universe - b| < |universe - a|
  {
    if a != b {
      var x :| x in b && x !in a;
      SubsetIsSmaller(universe - b, universe - a - {x});
    }
  }

  method CheckReachable(p: Pipeline) returns (r: Option<Problem>)
    ensures r == First(ReachFaults(p))
  {
    hide Reachable;
    ghost var faults := ReachFaults(p);
    var seen := ReachableIds(p);
    for i := 0 to |p.transforms|
      invariant ClearUpTo(faults, i)
    {
      if p.transforms[i].id !in seen {
        FirstAt(faults, i);
        return Some(Unreachable(p.transforms[i].id));
      }
    }
    FirstNone(faults);
    r := None;
  }

  // ---- Joins ----

  method CheckJoinInputs(shapes: map<Str, Shape>, j: Transform) returns (r: Option<Problem>)
    requires j.Join?
    ensures r == First(JoinInputFaults(shapes, j))
  {
    ghost var faults := JoinInputFaults(shapes, j);
    var spec: Option<Shape> := None;
    for i := 0 to |j.inputs|
      invariant ClearUpTo(faults, i)
      invariant i == 0 ==> spec.None?
      invariant i > 0 ==> j.inputs[0] in shapes && spec == Some(shapes[j.inputs[0]])
    {
      if j.inputs[i] !in shapes {
        FirstAt(faults, i);
        return Some(InputNotWindow(j.id, j.inputs[i]));
      }
      var s := shapes[j.inputs[i]];
      if spec.None? {
        spec := Some(s);
      } else if spec.value != s {
        FirstAt(faults, i);
        return Some(InputsNotAligned(j.id));
      }
    }
    FirstNone(faults);
    r := None;
  }

  method CheckJoins(p: Pipeline) returns (r: Option<Problem>)
    ensures r == First(JoinFaults(p) + SinkFaults(p))
  {
    hide JoinInputFaults;
    ghost var joins, sinks := JoinFaults(p), SinkFaults(p);
    FirstConcat(joins, sinks);
    var shapes := map[];
    for i := 0 to |p.transforms|
      invariant shapes == WindowShapes(p.transforms[..i])
    {
      assert p.transforms[..i + 1][..i] == p.transforms[..i];
      var t := p.transforms[i];
      if t.Window? {
        shapes := shapes[t.id := Shape(t.groupBy, t.size)];
      }
    }
    assert p.transforms[..|p.transforms|] == p.transforms;
    for i := 0 to |p.transforms|
      invariant ClearUpTo(joins, i)
    {
      var t := p.transforms[i];
      if t.Join? {
        if t.maxGroups == Some(0) {
          FirstAt(joins, i);
          return Some(NoGroupsAllowed(t.id));
        }
        var fault := CheckJoinInputs(shapes, t);
        if fault.Some? {
          FirstAt(joins, i);
          return fault;
        }
      }
    }
    FirstNone(joins);
    for i := 0 to |p.sinks|
      invariant ClearUpTo(sinks, i)
    {
      var upstream := FindTransform(p.transforms, p.sinks[i].input);
      if upstream.Some? && upstream.value.Join? && upstream.value.expr.None? {
        FirstAt(sinks, i);
        return Some(AlignOnlyJoinIntoSink(upstream.value.id));
      }
    }
    FirstNone(sinks);
    r := None;
  }

  lemma FirstOfAll(d: Durations, p: Pipeline)
    ensures First(AllFaults(d, p)) ==
      if First(DuplicateFaults(p.NodeIds())).Some? then First(DuplicateFaults(p.NodeIds()))
      else if First(SourceFaults(d, p) + TransformFaults(d, p)).Some?
        then First(SourceFaults(d, p) + TransformFaults(d, p))
      else if First(UseFaults(p.Outputs(), p.Uses())).Some? then First(UseFaults(p.Outputs(), p.Uses()))
      else if First(ReachFaults(p)).Some? then First(ReachFaults(p))
      else First(JoinFaults(p) + SinkFaults(p))
  {
    hide First, DuplicateFaults, SourceFaults, TransformFaults, UseFaults, ReachFaults, JoinFaults, SinkFaults;
    var (ids, sources, transforms) := (DuplicateFaults(p.NodeIds()), SourceFaults(d, p), TransformFaults(d, p));
    var (uses, reach, joins) := (UseFaults(p.Outputs(), p.Uses()), ReachFaults(p), JoinFaults(p) + SinkFaults(p));
    FirstConcat(ids, sources + (transforms + (uses + (reach + joins))));
    FirstConcat(sources, transforms + (uses + (reach + joins)));
    FirstConcat(transforms, uses + (reach + joins));
    FirstConcat(uses, reach + joins);
    FirstConcat(reach, joins);
    FirstConcat(sources, transforms);
  }

  /** The first fault of the pipeline, or none. */
  method Validate(d: Durations, p: Pipeline) returns (r: Option<Problem>)
    ensures r == First(AllFaults(d, p))
  {
    hide First, AllFaults;
    FirstOfAll(d, p);
    var ids := CheckIds(p.NodeIds());
    if ids.Some? {
      return ids;
    }
    var settings := CheckSettings(d, p);
    if settings.Some? {
      return settings;
    }
    var uses := CheckUses(p.Outputs(), p.Uses());
    if uses.Some? {
      return uses;
    }
    var reach := CheckReachable(p);
    if reach.Some? {
      return reach;
    }
    r := CheckJoins(p);
  }
}
