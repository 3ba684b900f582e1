/** A pipeline as configured, and what it means for one to be well formed. */
module Pipelines {
  import opened Wrappers
  import opened Records
  import opened ExprModel
  import opened Routing

  datatype Source = Generator(id: Str, interval: string) | Stdin(id: Str) | OtlpIn(id: Str)

  datatype Transform =
    | Filter(id: Str, input: Str)
    | Window(
        id: Str,
        input: Str,
        size: string,
        slide: Option<string>,
        lateness: Option<string>,
        idleTimeout: Option<string>,
        groupBy: seq<Str>,
        maxGroups: Option<nat>)
    | Map(id: Str, input: Str, text: string)
    | Join(id: Str, inputs: seq<Str>, expr: Option<string>, maxGroups: Option<nat>)
    | Wasm(id: Str, input: Str)
  {
    function Inputs(): seq<Str> {
      if Join? then inputs else [input]
    }
  }

  datatype Sink = Sink(id: Str, input: Str)

  datatype Pipeline = Pipeline(sources: seq<Source>, transforms: seq<Transform>, sinks: seq<Sink>) {
    function NodeIds(): seq<Str> {
      SourceIds() + TransformIds() + seq(|sinks|, i requires 0 <= i < |sinks| => sinks[i].id)
    }

    function SourceIds(): seq<Str> {
      seq(|sources|, i requires 0 <= i < |sources| => sources[i].id)
    }

    function TransformIds(): seq<Str> {
      seq(|transforms|, i requires 0 <= i < |transforms| => transforms[i].id)
    }

    function Outputs(): set<Str> {
      (set s | s in sources :: s.id) + (set t | t in transforms :: t.id)
    }

    /** Every use of an output as an input, in order. */
    function Uses(): seq<Str> {
      InputsOf(transforms) + seq(|sinks|, i requires 0 <= i < |sinks| => sinks[i].input)
    }
  }

  function InputsOf(ts: seq<Transform>): seq<Str> {
    if ts == [] then [] else InputsOf(ts[..|ts| - 1]) + ts[|ts| - 1].Inputs()
  }

  datatype Problem =
    | DuplicateId(id: Str)
    | BadDuration(node: Str, text: string)
    | NoGroupsAllowed(node: Str)
    | ZeroSlide(node: Str)
    | SlideBeyondSize(node: Str)
    | BadExpression(node: Str, error: ParseError)
    | UnknownInput(id: Str)
    | MultipleConsumers(id: Str)
    | Unreachable(id: Str)
    | InputNotWindow(node: Str, input: Str)
    | InputsNotAligned(node: Str)
    | AlignOnlyJoinIntoSink(node: Str)

  type Faults = seq<Option<Problem>>

  /** The first fault found, if there is one. */
  function First(faults: Faults): Option<Problem> {
    if faults == [] then None else if faults[0].Some? then faults[0] else First(faults[1..])
  }

  /** How long a duration text stands for; how it is read is not part of this model. */
  type Durations = string -> Option<nat>

  // ---- The five checks, as faults listed in the order they are looked for ----

  function DuplicateFaults(ids: seq<Str>): Faults {
    seq(|ids|, i requires 0 <= i < |ids| => if ids[i] in ids[..i] then Some(DuplicateId(ids[i])) else None)
  }

  function DurationFault(d: Durations, node: Str, text: string): Option<Problem> {
    if d(text).None? then Some(BadDuration(node, text)) else None
  }

  function OptionalDuration(d: Durations, node: Str, text: Option<string>): Option<Problem> {
    if text.Some? then DurationFault(d, node, text.value) else None
  }

  function SourceFault(d: Durations, s: Source): Option<Problem> {
    if s.Generator? then DurationFault(d, s.id, s.interval) else None
  }

  function ExpressionFault(node: Str, text: string): Option<Problem> {
    match Parsed(text)
    case Ok(_) => None
    case Err(e) => Some(BadExpression(node, e))
  }

  function SlideFault(d: Durations, w: Transform): Option<Problem>
    requires w.Window? && w.slide.Some?
  {
    var slide := d(w.slide.value);
    if slide.None? then Some(BadDuration(w.id, w.slide.value))
    else if slide.value == 0 then Some(ZeroSlide(w.id))
    else if d(w.size).Some? && slide.value > d(w.size).value then Some(SlideBeyondSize(w.id))
    else None
  }

  function WindowFaults(d: Durations, w: Transform): Faults
    requires w.Window?
  {
    [
      if w.maxGroups == Some(0) then Some(NoGroupsAllowed(w.id)) else None,
      DurationFault(d, w.id, w.size),
      OptionalDuration(d, w.id, w.lateness),
      OptionalDuration(d, w.id, w.idleTimeout),
      if w.slide.Some? then SlideFault(d, w) else None
    ]
  }

  function TransformFault(d: Durations, t: Transform): Option<Problem> {
    if t.Window? then First(WindowFaults(d, t))
    else if t.Map? then ExpressionFault(t.id, t.text)
    else if t.Join? && t.expr.Some? then ExpressionFault(t.id, t.expr.value)
    else None
  }

  function SourceFaults(d: Durations, p: Pipeline): Faults {
    seq(|p.sources|, i requires 0 <= i < |p.sources| => SourceFault(d, p.sources[i]))
  }

  function TransformFaults(d: Durations, p: Pipeline): Faults {
    seq(|p.transforms|, i requires 0 <= i < |p.transforms| => TransformFault(d, p.transforms[i]))
  }

  function UseFault(outputs: set<Str>, uses: seq<Str>, i: nat): Option<Problem>
    requires i < |uses|
  {
    if uses[i] !in outputs then Some(UnknownInput(uses[i]))
    else if uses[i] in uses[..i] then Some(MultipleConsumers(uses[i]))
    else None
  }

  function UseFaults(outputs: set<Str>, uses: seq<Str>): Faults {
    seq(|uses|, i requires 0 <= i < |uses| => UseFault(outputs, uses, i))
  }

  // ---- Reachability ----

  /** Node `b` is a transform that reads the output of `a`. */
  ghost predicate Edge(p: Pipeline, a: Str, b: Str) {
    exists t :: t in p.transforms && t.id == b && a in t.Inputs()
  }

  /** A path along edges from a source to `x`. */
  ghost predicate Path(p: Pipeline, path: seq<Str>, x: Str) {
    && path != []
    && (exists s :: s in p.sources && s.id == path[0])
    && path[|path| - 1] == x
    && forall i :: 0 <= i < |path| - 1 ==> Edge(p, path[i], path[i + 1])
  }

  ghost predicate Reachable(p: Pipeline, x: Str) {
    exists path :: Path(p, path, x)
  }

  ghost function ReachFaults(p: Pipeline): Faults {
    seq(|p.transforms|, i requires 0 <= i < |p.transforms| =>
      if Reachable(p, p.transforms[i].id) then None else Some(Unreachable(p.transforms[i].id)))
  }

  // ---- Joins ----

  /** What two inputs of a join must share; the size is compared as it is written. */
  datatype Shape = Shape(groupBy: seq<Str>, size: string)

  function WindowShapes(ts: seq<Transform>): map<Str, Shape> {
    if ts == [] then map[]
    else
      var last, shapes := ts[|ts| - 1], WindowShapes(ts[..|ts| - 1]);
      if last.Window? then shapes[last.id := Shape(last.groupBy, last.size)] else shapes
  }

  function JoinInputFault(shapes: map<Str, Shape>, j: Transform, i: nat): Option<Problem>
    requires j.Join? && i < |j.inputs|
  {
    if j.inputs[i] !in shapes then Some(InputNotWindow(j.id, j.inputs[i]))
    else if j.inputs[0] in shapes && shapes[j.inputs[0]] != shapes[j.inputs[i]] then Some(InputsNotAligned(j.id))
    else None
  }

  function JoinInputFaults(shapes: map<Str, Shape>, j: Transform): Faults
    requires j.Join?
  {
    seq(|j.inputs|, i requires 0 <= i < |j.inputs| => JoinInputFault(shapes, j, i))
  }

  function JoinFault(shapes: map<Str, Shape>, t: Transform): Option<Problem> {
    if !t.Join? then None
    else if t.maxGroups == Some(0) then Some(NoGroupsAllowed(t.id))
    else First(JoinInputFaults(shapes, t))
  }

  function JoinFaults(p: Pipeline): Faults {
    seq(|p.transforms|, i requires 0 <= i < |p.transforms| => JoinFault(WindowShapes(p.transforms), p.transforms[i]))
  }

  function FindTransform(ts: seq<Transform>, id: Str): Option<Transform> {
    if ts == [] then None else if ts[0].id == id then Some(ts[0]) else FindTransform(ts[1..], id)
  }

  function SinkFault(p: Pipeline, s: Sink): Option<Problem> {
    match FindTransform(p.transforms, s.input)
    case Some(Join(id, _, None, _)) => Some(AlignOnlyJoinIntoSink(id))
    case _ => None
  }

  function SinkFaults(p: Pipeline): Faults {
    seq(|p.sinks|, i requires 0 <= i < |p.sinks| => SinkFault(p, p.sinks[i]))
  }

  /** Every fault a pipeline can have, in the order they are looked for. */
  ghost function AllFaults(d: Durations, p: Pipeline): Faults {
    DuplicateFaults(p.NodeIds()) + (SourceFaults(d, p) + (TransformFaults(d, p) +
      (UseFaults(p.Outputs(), p.Uses()) + (ReachFaults(p) + (JoinFaults(p) + SinkFaults(p))))))
  }

  // ---- The key spec of an edge ----

  /** The first transform that reads `output`. */
  function ConsumerOf(ts: seq<Transform>, output: Str): Option<Transform> {
    if ts == [] then None else if output in ts[0].Inputs() then Some(ts[0]) else ConsumerOf(ts[1..], output)
  }

  function KeySpecOf(output: Str, p: Pipeline): KeySpec {
    match ConsumerOf(p.transforms, output)
    case Some(Window(_, _, _, _, _, _, groupBy, _)) => Keyed(groupBy)
    case Some(Join(_, _, _, _)) =>
      (match FindTransform(p.transforms, output)
       case Some(Window(_, _, _, _, _, _, groupBy, _)) => Keyed(groupBy)
       case _ => Unkeyed)
    case _ => Unkeyed
  }
}
