/** The event-time window as a state machine: what one record and one drain do to its state. */
module WindowModel {
  import opened Wrappers
  import opened Numbers
  import opened Ordered
  import opened Records
  import opened Tallies

  datatype FaultAction = Skip | Error

  datatype Aggregate = Aggregate(op: AggregateOp, field: Option<Str>, onMissing: FaultAction, onInvalid: FaultAction)

  datatype Config = Config(
    size: u64,
    slide: u64,
    lateness: u64,
    groupBy: seq<Str>,
    aggregate: Aggregate,
    name: Option<Str>,
    maxGroups: Option<nat>)
  {
    /** What the validator guarantees of a window with an explicit slide. */
    predicate Valid() {
      0 < slide <= size
    }
  }

  /** One group_by dimension of a group's identity; absence is a value of its own. */
  datatype KeyPart = BoolPart(b: bool) | IntPart(i: i64) | DoublePart(bits: u64) | TextPart(s: Str) | Absent

  type GroupKey = seq<KeyPart>

  function PartOf(v: Option<AttrValue>): KeyPart {
    match v
    case Some(Bool(b)) => BoolPart(b)
    case Some(Int(i)) => IntPart(i)
    case Some(Double(bits)) => DoublePart(bits)
    case Some(Text(s)) => TextPart(s)
    case None => Absent
  }

  function GroupKeyOf(rec: Record, groupBy: seq<Str>): (key: GroupKey)
    ensures |key| == |groupBy|
  {
    seq(|groupBy|, i requires 0 <= i < |groupBy| => PartOf(Lookup(rec, groupBy[i])))
  }

  /** The labels a group carries: the group_by attributes its record has. */
  function LabelsOf(rec: Record, groupBy: seq<Str>): Attrs {
    if groupBy == [] then map[]
    else
      var n := |groupBy| - 1;
      var labels := LabelsOf(rec, groupBy[..n]);
      match Lookup(rec, groupBy[n])
      case None => labels
      case Some(v) => labels[groupBy[n] := v]
  }

  datatype Agg = Agg(name: Str, attrs: Attrs, tally: Tally)

  type Groups = map<GroupKey, Agg>

  datatype State = State(windows: map<nat, Groups>, maxEvent: nat, skipped: nat, late: nat, capped: nat)

  const INITIAL: State := State(map[], 0, 0, 0, 0)

  /** How far event time has come, less the slack for stragglers, and never below zero. */
  function Watermark(c: Config, maxEvent: nat): nat {
    if maxEvent < c.lateness then 0 else maxEvent - c.lateness
  }

  /** The starts of the windows that contain event time `t`. */
  ghost function StartsOf(c: Config, t: nat): set<nat>
    requires c.Valid()
  {
    set s: nat | 0 <= s <= t && s % c.slide == 0 && t < s + c.size
  }

  /** Those that have not fired at watermark `wm`. */
  ghost function OpenStarts(c: Config, t: nat, wm: nat): set<nat>
    requires c.Valid()
  {
    set s | s in StartsOf(c, t) && wm < s + c.size
  }

  function GroupsAt(windows: map<nat, Groups>, start: nat): Groups {
    if start in windows then windows[start] else map[]
  }

  /** Whether a window takes a record of group `key`: always once the group is there, otherwise below the cap. */
  predicate Admits(cap: Option<nat>, groups: Groups, key: GroupKey) {
    key in groups || cap.None? || |groups| < cap.value
  }

  function FoldInto(cap: Option<nat>, groups: Groups, key: GroupKey, empty: Agg, v: real): Groups {
    if !Admits(cap, groups, key) then groups
    else
      var agg := if key in groups then groups[key] else empty;
      groups[key := agg.(tally := agg.tally.Add(v))]
  }

  function NewAgg(rec: Record, groupBy: seq<Str>): Agg {
    Agg(rec.name, LabelsOf(rec, groupBy), NoSamples())
  }

  ghost predicate SomeAdmits(c: Config, windows: map<nat, Groups>, starts: set<nat>, key: GroupKey) {
    exists s :: s in starts && Admits(c.maxGroups, GroupsAt(windows, s), key)
  }

  ghost function FoldAll(c: Config, windows: map<nat, Groups>, starts: set<nat>, rec: Record, v: real)
    : map<nat, Groups>
  {
    var key, agg := GroupKeyOf(rec, c.groupBy), NewAgg(rec, c.groupBy);
    map s | s in windows.Keys + starts ::
      if s in starts then FoldInto(c.maxGroups, GroupsAt(windows, s), key, agg, v) else windows[s]
  }

  function Policy(c: Config, fault: Fault): FaultAction {
    if fault.Missing? then c.aggregate.onMissing else c.aggregate.onInvalid
  }

  /** A record whose fault the configuration turns into a node failure. */
  predicate Rejected(c: Config, rec: Record) {
    var v := Numeric(rec, c.aggregate.field);
    v.Err? && Policy(c, v.error).Error?
  }

  /** Folding one record that is not rejected. */
  ghost function OnRecord(c: Config, st: State, rec: Record): State
    requires c.Valid() && !Rejected(c, rec)
  {
    match Numeric(rec, c.aggregate.field)
    case Err(_) => st.(skipped := st.skipped + 1, maxEvent := Later(st.maxEvent, rec.ts))
    case Ok(v) =>
      var open := OpenStarts(c, rec.ts, Watermark(c, st.maxEvent));
      var folded := SomeAdmits(c, st.windows, open, GroupKeyOf(rec, c.groupBy));
      var after := st.(windows := FoldAll(c, st.windows, open, rec, v));
      if folded then after.(maxEvent := Later(st.maxEvent, rec.ts))
      else if open != {} then after.(maxEvent := Later(st.maxEvent, rec.ts), capped := st.capped + 1)
      else after.(late := st.late + 1)
  }

  lemma OnRecordWindows(c: Config, st: State, rec: Record)
    requires c.Valid() && !Rejected(c, rec)
    ensures OnRecord(c, st, rec).windows ==
      var v := Numeric(rec, c.aggregate.field);
      if v.Err? then st.windows
      else FoldAll(c, st.windows, OpenStarts(c, rec.ts, Watermark(c, st.maxEvent)), rec, v.value)
  {
    hide FoldAll, OpenStarts;
  }

  /** One fired window. */
  datatype Firing = Firing(start: nat, groups: Groups)

  const NAT_ORDER: (nat, nat) -> bool := (a: nat, b: nat) => a <= b

  lemma NatOrderIsTotal()
    ensures TotalOrder(NAT_ORDER)
  {
  }

  function StartsAscending(s: set<nat>): (r: seq<nat>)
    ensures forall x :: x in r <==> x in s
    ensures forall i, j :: 0 <= i < j < |r| ==> r[i] < r[j]
  {
    NatOrderIsTotal();
    var r := Ascending(s, NAT_ORDER);
    assert forall i, j :: 0 <= i < j < |r| ==> NAT_ORDER(r[i], r[j]) && r[i] != r[j];
    r
  }

  function FireAll(windows: map<nat, Groups>, starts: seq<nat>): seq<Firing>
    requires forall s :: s in starts ==> s in windows
  {
    seq(|starts|, i requires 0 <= i < |starts| => assert starts[i] in starts; Firing(starts[i], windows[starts[i]]))
  }

  /** Removing the given windows fires them, earliest first. */
  function Fired(st: State, ready: set<nat>): seq<Firing>
    requires ready <= st.windows.Keys
  {
    FireAll(st.windows, StartsAscending(ready))
  }

  function Without(st: State, ready: set<nat>): State {
    st.(windows := st.windows - ready)
  }

  function ReadyStarts(c: Config, st: State): set<nat> {
    set s | s in st.windows && s + c.size <= Watermark(c, st.maxEvent)
  }

  // ---- The record a fired group becomes ----

  function OutputOf(c: Config, start: nat, agg: Agg): Option<Record>
    requires start + c.size < U64_LIMIT
  {
    match agg.tally.Value(c.aggregate.op)
    case None => None
    case Some(value) =>
      var name := if c.name.Some? then c.name.value else agg.name;
      Some(Record(start + c.size, Some(start), map[], None, name, value, agg.attrs))
  }

  /** The zero or one records of a fired group. */
  function RecordsOf(c: Config, start: nat, agg: Agg): multiset<Record>
    requires start + c.size < U64_LIMIT
  {
    var r := OutputOf(c, start, agg);
    if r.Some? then multiset{r.value} else multiset{}
  }

  ghost function AnyKey(groups: Groups): GroupKey
    requires groups != map[]
    ensures AnyKey(groups) in groups
  {
    assert groups.Keys != {};
    var key :| key in groups.Keys;
    key
  }

  /** A fired window's records; a hash map lists its groups in no particular order. */
  ghost function GroupRecords(c: Config, start: nat, groups: Groups): multiset<Record>
    requires start + c.size < U64_LIMIT
    decreases |groups|
  {
    if groups == map[] then multiset{}
    else
      var key := AnyKey(groups);
      assert groups.Keys == (groups - {key}).Keys + {key};
      GroupRecords(c, start, groups - {key}) + RecordsOf(c, start, groups[key])
  }

  /** No fired window's end overflows. */
  ghost predicate InRange(c: Config, fired: seq<Firing>) {
    forall i :: 0 <= i < |fired| ==> fired[i].start + c.size < U64_LIMIT
  }

  ghost function FiringRecords(c: Config, fired: seq<Firing>): multiset<Record>
    requires InRange(c, fired)
  {
    if fired == [] then multiset{}
    else
      var n := |fired| - 1;
      FiringRecords(c, fired[..n]) + GroupRecords(c, fired[n].start, fired[n].groups)
  }

  // ---- The driver ----

  datatype Event = Arrival(rec: Record) | IdleTimeout

  datatype Drops = Drops(skipped: nat, late: nat, capped: nat)

  /** A run so far: the window's state, what it has fired, what it has metered, and whether it failed. */
  datatype Trace = Trace(st: State, out: seq<Firing>, drops: Drops, failed: bool)

  const START: Trace := Trace(INITIAL, [], Drops(0, 0, 0), false)

  function Metered(st: State): State {
    st.(skipped := 0, late := 0, capped := 0)
  }

  function AddDrops(d: Drops, st: State): Drops {
    Drops(d.skipped + st.skipped, d.late + st.late, d.capped + st.capped)
  }

  ghost function Step(c: Config, t: Trace, e: Event): Trace
    requires c.Valid()
  {
    if t.failed then t
    else if e.IdleTimeout? then
      Trace(Without(t.st, t.st.windows.Keys), t.out + Fired(t.st, t.st.windows.Keys), t.drops, false)
    else if Rejected(c, e.rec) then t.(failed := true)
    else
      var st := OnRecord(c, t.st, e.rec);
      var ready := ReadyStarts(c, st);
      Trace(Metered(Without(st, ready)), t.out + Fired(st, ready), AddDrops(t.drops, st), false)
  }

  /** The run over `events`, up to the first rejected record. */
  ghost function Feed(c: Config, events: seq<Event>): Trace
    requires c.Valid()
  {
    if events == [] then START else Step(c, Feed(c, events[..|events| - 1]), events[|events| - 1])
  }

  /** Everything the node fires: the final flush happens only when the input closes cleanly. */
  ghost function Stream(c: Config, events: seq<Event>): seq<Firing>
    requires c.Valid()
  {
    var t := Feed(c, events);
    if t.failed then t.out else t.out + Fired(t.st, t.st.windows.Keys)
  }
}
