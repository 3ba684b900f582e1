/** Ack after processing: the consumer's receive loop against a server that redelivers what is not acked. */
module Delivery {
  import opened Wrappers

  type Msg = nat

  /** Where a process is: with its caller, or at one of the points in the loop where it can be interrupted. `draining`
      is what the loop read of the shared flag when it came round. */
  datatype Point =
    | WithCaller
    | Top
    | Binding(draining: bool)
    | Acking(draining: bool)
    | Pulling(draining: bool)
    | Skipping(m: Msg)

  /** `buffer` holds the copies the server has sent on the streams bound now and the loop has not yet pulled. */
  datatype Process = Process(at: Point, bound: bool, last: Option<Msg>, buffer: multiset<Msg>)

  /** The server, the process if one is up, and what has become of messages so far: those returned as records, those
      whose caller came back for the next, and those the server never heard of again from their process. */
  datatype World = World(
    published: set<Msg>,
    acked: set<Msg>,
    draining: bool,
    process: Option<Process>,
    returned: set<Msg>,
    finished: set<Msg>,
    dropped: set<Msg>)

  const INITIAL: World := World({}, {}, false, None, {}, {}, {})

  /** The server sends what is unacked, any number of times; a copy sent before the ack may be pulled after it. A caller
      may drop a call it waits for, and call again. */
  datatype Event =
    | Publish(p: Msg)
    | StartUp
    | BeginDrain
    | Crash
    | Call
    | ComeRound
    | BindOk
    | BindFails
    | AckLast(arrives: bool)
    | Send(s: Msg)
    | Deliver(m: Msg)
    | AckSkipped(heard: bool)
    | PullFails
    | Quiet
    | Abandon

  const DOWN: Process := Process(WithCaller, false, None, multiset{})

  function ProcessOf(w: World): Process {
    if w.process.Some? then w.process.value else DOWN
  }

  predicate Enabled(w: World, e: Event) {
    match e
    case Publish(_) => true
    case BeginDrain => true
    case StartUp => w.process.None?
    case Crash => w.process.Some?
    case Call => w.process.Some? && w.process.value.at.WithCaller?
    case ComeRound => w.process.Some? && w.process.value.at.Top?
    case BindOk => w.process.Some? && w.process.value.at.Binding?
    case BindFails => w.process.Some? && w.process.value.at.Binding?
    case AckLast(_) => w.process.Some? && w.process.value.at.Acking?
    case Send(m) => w.process.Some? && w.process.value.bound && m in w.published && m !in w.acked
    case Deliver(m) => w.process.Some? && w.process.value.at.Pulling? && m in w.process.value.buffer
    case AckSkipped(_) => w.process.Some? && w.process.value.at.Skipping?
    case PullFails => w.process.Some? && w.process.value.at.Pulling?
    case Quiet => w.process.Some? && w.process.value.at.Pulling? && w.process.value.at.draining
    case Abandon => w.process.Some? && !w.process.value.at.WithCaller?
  }

  /** What a delivery does: a readable message is held and returned, another one is to be skipped. */
  function Receive(decodes: Msg -> bool, w: World, p: Process, m: Msg): World {
    var q := p.(buffer := p.buffer - multiset{m});
    if decodes(m) then w.(process := Some(q.(at := WithCaller, last := Some(m))), returned := w.returned + {m})
    else w.(process := Some(q.(at := Skipping(m))))
  }

  function AsSet(m: Option<Msg>): set<Msg> {
    if m.Some? then {m.value} else {}
  }

  /** What an event does. `decodes` tells which payloads can be read. */
  function Apply(decodes: Msg -> bool, w: World, e: Event): World
    requires Enabled(w, e)
  {
    var p := ProcessOf(w);
    match e
    case Publish(m) => w.(published := w.published + {m})
    case BeginDrain => w.(draining := true)
    case StartUp => w.(process := Some(DOWN))
    case Crash => w.(process := None, dropped := w.dropped + AsSet(p.last))
    case Call => w.(process := Some(p.(at := Top)), finished := w.finished + AsSet(p.last))
    case ComeRound => w.(process := Some(p.(at := if p.bound then Acking(w.draining) else Binding(w.draining))))
    case BindOk => w.(process := Some(p.(at := Acking(p.at.draining), bound := true)))
    case BindFails => w.(process := Some(p.(at := if p.at.draining then WithCaller else Top)))
    case AckLast(arrives) =>
      w.(process := Some(p.(at := Pulling(p.at.draining), last := None)),
         acked := if arrives then w.acked + AsSet(p.last) else w.acked,
         dropped := if arrives then w.dropped else w.dropped + AsSet(p.last))
    case Send(m) => w.(process := Some(p.(buffer := p.buffer + multiset{m})))
    case Deliver(m) => Receive(decodes, w, p, m)
    case AckSkipped(heard) =>
      w.(process := Some(p.(at := Top)), acked := if heard then w.acked + {p.at.m} else w.acked)
    case PullFails => w.(process := Some(p.(at := Top, bound := false, buffer := multiset{})))
    case Quiet => w.(process := Some(p.(at := WithCaller)))
    case Abandon => w.(process := Some(p.(at := WithCaller)))
  }

  /** The world after a run, if every event of it could happen. */
  function Play(decodes: Msg -> bool, w: World, es: seq<Event>): Option<World> {
    if es == [] then Some(w)
    else
      var before := Play(decodes, w, es[..|es| - 1]);
      var e := es[|es| - 1];
      if before.Some? && Enabled(before.value, e) then Some(Apply(decodes, before.value, e)) else None
  }

  lemma PlaySnoc(decodes: Msg -> bool, w: World, es: seq<Event>, e: Event)
    ensures Play(decodes, w, es + [e]) ==
      if Play(decodes, w, es).Some? && Enabled(Play(decodes, w, es).value, e)
      then Some(Apply(decodes, Play(decodes, w, es).value, e)) else None
  {
    hide Apply, Enabled;
    assert (es + [e])[..|es|] == es;
  }

  // ---- What every reachable world satisfies ----

  /** A process holds a readable message only until it is acked, and inside the loop only one its caller is done
      with. */
  ghost predicate ProcessSound(decodes: Msg -> bool, w: World, p: Process) {
    && (p.last.Some? ==> decodes(p.last.value) && p.last.value in w.returned)
    && (p.last.Some? && !p.at.WithCaller? ==> p.last.value in w.finished)
    && (p.at.Pulling? || p.at.Skipping? ==> p.last.None?)
    && (p.at.Skipping? ==> !decodes(p.at.m))
    && (p.at.Acking? || p.at.Pulling? || p.at.Skipping? ==> p.bound)
    && (!p.bound ==> p.buffer == multiset{})
  }

  ghost function Held(w: World): set<Msg> {
    if w.process.Some? then AsSet(w.process.value.last) else {}
  }

  ghost predicate Sound(decodes: Msg -> bool, w: World) {
    && (w.process.Some? ==> ProcessSound(decodes, w, w.process.value))
    && (forall m :: m in w.acked ==> !decodes(m) || m in w.finished)
    && (forall m :: m in w.finished ==> m in w.acked || m in w.dropped || m in Held(w))
    && (forall m :: m in w.returned ==> m in w.finished || m in w.dropped || m in Held(w))
    && (forall m :: m in w.finished ==> m in w.returned)
  }

  lemma StepKeepsSound(decodes: Msg -> bool, w: World, e: Event)
    requires Sound(decodes, w) && Enabled(w, e)
    ensures Sound(decodes, Apply(decodes, w, e))
  {
  }

  lemma {:induction false} RunKeepsSound(decodes: Msg -> bool, es: seq<Event>)
    requires Play(decodes, INITIAL, es).Some?
    ensures Sound(decodes, Play(decodes, INITIAL, es).value)
  {
    hide Apply, Enabled, Sound;
    if es == [] {
      assert Sound(decodes, INITIAL) by { NothingYet(decodes); }
    } else {
      RunKeepsSound(decodes, es[..|es| - 1]);
      StepKeepsSound(decodes, Play(decodes, INITIAL, es[..|es| - 1]).value, es[|es| - 1]);
    }
  }

  lemma NothingYet(decodes: Msg -> bool)
    ensures Sound(decodes, INITIAL)
  {
  }

  /** In every reachable world an acked message is unreadable or was returned to a caller that has come back since;
      and every message so finished is acked, still held to be acked, or dropped by a lost ack or a crash. */
  lemma AckedAreFinished(decodes: Msg -> bool, es: seq<Event>, m: Msg)
    requires Play(decodes, INITIAL, es).Some?
    ensures var w := Play(decodes, INITIAL, es).value;
      && (m in w.acked ==> !decodes(m) || (m in w.returned && m in w.finished))
      && (m in w.finished ==> m in w.acked || m in w.dropped || m in Held(w))
      && (m in w.returned && m !in w.finished && m !in w.dropped ==> m in Held(w) && m !in w.acked)
  {
    RunKeepsSound(decodes, es);
  }

  // ---- A crash at any step loses nothing unfinished ----

  /** A new process up to where it waits for a message. */
  const OPENING: seq<Event> := [StartUp, Call, ComeRound, BindOk, AckLast(true)]

  /** The process crashes, if it is up. */
  function Down(w: World): seq<Event> {
    if w.process.Some? then [Crash] else []
  }

  lemma {:induction false} PlayConcat(decodes: Msg -> bool, w: World, a: seq<Event>, b: seq<Event>)
    requires Play(decodes, w, a).Some?
    ensures Play(decodes, w, a + b) == Play(decodes, Play(decodes, w, a).value, b)
  {
    hide Apply, Enabled;
    if b == [] {
      assert a + b == a;
    } else {
      var n := |b| - 1;
      PlayConcat(decodes, w, a, b[..n]);
      assert a + b == a + b[..n] + [b[n]];
      PlaySnoc(decodes, w, a + b[..n], b[n]);
    }
  }

  /** `w` with a process that holds nothing. */
  function Fresh(w: World, at: Point, bound: bool): World {
    w.(process := Some(Process(at, bound, None, multiset{})))
  }

  lemma FreshSteps(decodes: Msg -> bool, w: World)
    requires w.process.None?
    ensures Apply(decodes, w, StartUp) == Fresh(w, WithCaller, false)
    ensures var a := Fresh(w, WithCaller, false); Enabled(a, Call) && Apply(decodes, a, Call) == Fresh(w, Top, false)
    ensures var a := Fresh(w, Top, false);
      Enabled(a, ComeRound) && Apply(decodes, a, ComeRound) == Fresh(w, Binding(w.draining), false)
    ensures var a := Fresh(w, Binding(w.draining), false);
      Enabled(a, BindOk) && Apply(decodes, a, BindOk) == Fresh(w, Acking(w.draining), true)
    ensures var a := Fresh(w, Acking(w.draining), true);
      Enabled(a, AckLast(true)) && Apply(decodes, a, AckLast(true)) == Fresh(w, Pulling(w.draining), true)
  {
  }

  lemma FreshPulls(decodes: Msg -> bool, w: World)
    requires w.process.None?
    ensures Play(decodes, w, OPENING) == Some(Fresh(w, Pulling(w.draining), true))
  {
    hide Apply, Enabled, Play, Fresh;
    var es := OPENING;
    assert es[..1] == [StartUp];
    Starts(decodes, w, StartUp);
    FreshSteps(decodes, w);
    var w2, w3, w4 := Fresh(w, Top, false), Fresh(w, Binding(w.draining), false), Fresh(w, Acking(w.draining), true);
    FourMore(decodes, w, es, Fresh(w, WithCaller, false), w2, w3, w4);
  }

  lemma FourMore(decodes: Msg -> bool, w: World, es: seq<Event>, w1: World, w2: World, w3: World, w4: World)
    requires |es| == 5 && Play(decodes, w, es[..1]) == Some(w1)
    requires Enabled(w1, es[1]) && Apply(decodes, w1, es[1]) == w2
    requires Enabled(w2, es[2]) && Apply(decodes, w2, es[2]) == w3
    requires Enabled(w3, es[3]) && Apply(decodes, w3, es[3]) == w4
    requires Enabled(w4, es[4])
    ensures Play(decodes, w, es) == Some(Apply(decodes, w4, es[4]))
  {
    hide Apply, Enabled, Play;
    PlaySnoc(decodes, w, es[..1], es[1]);
    assert es[..2] == es[..1] + [es[1]];
    PlaySnoc(decodes, w, es[..2], es[2]);
    assert es[..3] == es[..2] + [es[2]];
    PlaySnoc(decodes, w, es[..3], es[3]);
    assert es[..4] == es[..3] + [es[3]];
    PlaySnoc(decodes, w, es[..4], es[4]);
    assert es == es[..4] + [es[4]];
  }

  /** What a new process does to be given `m`. */
  function Comeback(m: Msg): seq<Event> {
    OPENING + [Send(m)] + [Deliver(m)]
  }

  lemma FreshDelivers(decodes: Msg -> bool, w: World, m: Msg)
    requires w.process.None? && m in w.published && m !in w.acked && decodes(m)
    ensures var back := Play(decodes, w, Comeback(m)); back.Some? && HoldsMessage(back.value, m)
  {
    hide Play;
    FreshPulls(decodes, w);
    PlaySnoc(decodes, w, OPENING, Send(m));
    PlaySnoc(decodes, w, OPENING + [Send(m)], Deliver(m));
  }

  predicate HoldsMessage(w: World, m: Msg) {
    w.process.Some? && w.process.value.last == Some(m)
  }

  /** The server has heard the ack of `m`, and the process, if one is up, has no copy of it left. */
  predicate Gone(w: World, m: Msg) {
    && m in w.acked
    && (w.process.Some? ==>
          m !in w.process.value.buffer && w.process.value.last != Some(m) && w.process.value.at != Skipping(m))
  }

  lemma StepKeepsGone(decodes: Msg -> bool, w: World, e: Event, m: Msg)
    requires Gone(w, m) && Enabled(w, e)
    ensures Gone(Apply(decodes, w, e), m)
  {
  }

  /** A message that is gone is never given to a process again, whatever happens. */
  lemma {:induction false} GoneForGood(decodes: Msg -> bool, w: World, es: seq<Event>, m: Msg)
    requires Gone(w, m) && Play(decodes, w, es).Some?
    ensures Gone(Play(decodes, w, es).value, m)
  {
    hide Apply, Enabled, Gone;
    if es != [] {
      GoneForGood(decodes, w, es[..|es| - 1], m);
      StepKeepsGone(decodes, Play(decodes, w, es[..|es| - 1]).value, es[|es| - 1], m);
    }
  }

  /** The run `es`, a crash if a process is up, and then `more`. */
  function AfterCrash(decodes: Msg -> bool, es: seq<Event>, more: seq<Event>): Option<World>
    requires Play(decodes, INITIAL, es).Some?
  {
    Play(decodes, INITIAL, es + (Down(Play(decodes, INITIAL, es).value) + more))
  }

  ghost predicate GivenAgain(decodes: Msg -> bool, es: seq<Event>, more: seq<Event>, m: Msg)
    requires Play(decodes, INITIAL, es).Some?
  {
    var back := AfterCrash(decodes, es, more);
    back.Some? && HoldsMessage(back.value, m)
  }

  lemma CrashedWorld(decodes: Msg -> bool, es: seq<Event>, more: seq<Event>) returns (u: World)
    requires Play(decodes, INITIAL, es).Some?
    ensures u.process.None? && AfterCrash(decodes, es, more) == Play(decodes, u, more)
    ensures var w := Play(decodes, INITIAL, es).value; u.acked == w.acked && u.published == w.published
  {
    hide Play;
    var w := Play(decodes, INITIAL, es).value;
    PlayConcat(decodes, INITIAL, es, Down(w) + more);
    if w.process.Some? {
      CrashFirst(decodes, w);
      PlayConcat(decodes, w, [Crash], more);
      u := Apply(decodes, w, Crash);
    } else {
      assert [] + more == more;
      u := w;
    }
  }

  /** Wherever a process is when it crashes, over all that can happen afterwards: a readable message can be given to a
      process again exactly when its ack had not been heard. */
  lemma ComesBackIff(decodes: Msg -> bool, es: seq<Event>, m: Msg)
    requires Play(decodes, INITIAL, es).Some?
    requires m in Play(decodes, INITIAL, es).value.published && decodes(m)
    ensures m !in Play(decodes, INITIAL, es).value.acked <==> exists more :: GivenAgain(decodes, es, more, m)
  {
    hide Play, AfterCrash;
    if more :| GivenAgain(decodes, es, more, m) {
      var u := CrashedWorld(decodes, es, more);
      if m in u.acked { GoneForGood(decodes, u, more, m); }
    }
    if m !in Play(decodes, INITIAL, es).value.acked {
      var u := CrashedWorld(decodes, es, Comeback(m));
      FreshDelivers(decodes, u, m);
      assert GivenAgain(decodes, es, Comeback(m), m);
    }
  }

  /** So a crash at any step loses nothing unfinished: what no caller has finished is unacked, and comes back. */
  lemma UnfinishedComesBack(decodes: Msg -> bool, es: seq<Event>, m: Msg)
    requires Play(decodes, INITIAL, es).Some?
    requires var w := Play(decodes, INITIAL, es).value; m in w.published && m !in w.finished && decodes(m)
    ensures m !in Play(decodes, INITIAL, es).value.acked && GivenAgain(decodes, es, Comeback(m), m)
  {
    hide Play, Apply, Enabled, AfterCrash;
    RunKeepsSound(decodes, es);
    var u := CrashedWorld(decodes, es, Comeback(m));
    FreshDelivers(decodes, u, m);
  }

  /** A rebind, too, leaves no copy behind: what was acked before it is never given to a process again. */
  lemma RebindForgets(decodes: Msg -> bool, es: seq<Event>, more: seq<Event>, m: Msg)
    requires Play(decodes, INITIAL, es + [PullFails]).Some?
    requires m in Play(decodes, INITIAL, es + [PullFails]).value.acked
    requires Play(decodes, INITIAL, es + [PullFails] + more).Some?
    ensures !HoldsMessage(Play(decodes, INITIAL, es + [PullFails] + more).value, m)
  {
    hide Play;
    var w := Play(decodes, INITIAL, es + [PullFails]).value;
    PlaySnoc(decodes, INITIAL, es, PullFails);
    RunKeepsSound(decodes, es);
    PlayConcat(decodes, INITIAL, es + [PullFails], more);
    GoneForGood(decodes, w, more, m);
  }

  lemma CrashFirst(decodes: Msg -> bool, w: World)
    requires w.process.Some?
    ensures Enabled(w, Crash) && Play(decodes, w, [Crash]) == Some(Apply(decodes, w, Crash))
    ensures var u := Apply(decodes, w, Crash); u.process.None? && u.acked == w.acked && u.published == w.published
  {
    assert [Crash][..0] == [];
  }

  // ---- The receive loop ----

  datatype Pull = Delivered(m: Msg) | Failed | Silence

  /** What the environment answers in one round of the loop. */
  datatype Round = Round(draining: bool, binds: bool, ackArrives: bool, pull: Pull, skipHeard: bool)

  /** What `Recv` comes to: a record, the end of the input, or still waiting when the rounds given run out. */
  datatype Outcome = Got(m: Msg) | Closed | Waiting

  /** The flag is never cleared, and only published messages are delivered. What is named in a round is pulled if there
      is a copy in the buffer or the server still sends one; otherwise the round is silent. */
  ghost predicate Plausible(w: World, rounds: seq<Round>, from: nat) {
    && (forall i :: from <= i < |rounds| && rounds[i].pull.Delivered? ==> rounds[i].pull.m in w.published)
    && (forall i :: from <= i < |rounds| && w.draining ==> rounds[i].draining)
    && (forall i, j :: from <= i < j < |rounds| && rounds[i].draining ==> rounds[j].draining)
  }

  /** What outlives a round: the consumer's fields and what the server has heard. */
  datatype Memory = Memory(bound: bool, last: Option<Msg>, buffer: multiset<Msg>, acked: set<Msg>)

  /** What a pull comes to, once the previous message is dealt with. */
  function Pulled(decodes: Msg -> bool, round: Round, buffer: multiset<Msg>, acked: set<Msg>)
    : (Option<Outcome>, Memory)
  {
    match round.pull
    case Delivered(m) =>
      var rest := buffer - multiset{m};
      if m !in buffer && m in acked then Silent(round, buffer, acked)
      else if decodes(m) then (Some(Got(m)), Memory(true, Some(m), rest, acked))
      else (None, Memory(true, None, rest, if round.skipHeard then acked + {m} else acked))
    case Failed => (None, Memory(false, None, multiset{}, acked))
    case Silence => Silent(round, buffer, acked)
  }

  function Silent(round: Round, buffer: multiset<Msg>, acked: set<Msg>): (Option<Outcome>, Memory) {
    (Some(if round.draining then Closed else Waiting), Memory(true, None, buffer, acked))
  }

  /** What one round comes to. */
  function OneRound(decodes: Msg -> bool, mem: Memory, round: Round): (Option<Outcome>, Memory) {
    if !mem.bound && !round.binds then (if round.draining then Some(Closed) else None, mem)
    else Pulled(decodes, round, mem.buffer, if round.ackArrives then mem.acked + AsSet(mem.last) else mem.acked)
  }

  /** What a whole call comes to. */
  function Served(decodes: Msg -> bool, mem: Memory, rounds: seq<Round>): (Outcome, Memory)
    decreases |rounds|
  {
    if rounds == [] then (Waiting, mem)
    else
      var (ended, after) := OneRound(decodes, mem, rounds[0]);
      if ended.Some? then (ended.value, after) else Served(decodes, after, rounds[1..])
  }

  /** What is remembered when round `i` begins, if the call has not ended before. */
  function MemoryAt(decodes: Msg -> bool, mem: Memory, rounds: seq<Round>, i: nat): Option<Memory>
    requires i <= |rounds|
  {
    if i == 0 then Some(mem)
    else
      var before := MemoryAt(decodes, mem, rounds, i - 1);
      if before.None? || OneRound(decodes, before.value, rounds[i - 1]).0.Some? then None
      else Some(OneRound(decodes, before.value, rounds[i - 1]).1)
  }

  /** Round `i` is reached, with streams to pull from, and its pull fails. */
  predicate FailsAt(decodes: Msg -> bool, mem: Memory, rounds: seq<Round>, i: nat)
    requires i < |rounds|
  {
    var here := MemoryAt(decodes, mem, rounds, i);
    here.Some? && (here.value.bound || rounds[i].binds) && rounds[i].pull.Failed?
  }

  function FailedPulls(decodes: Msg -> bool, mem: Memory, rounds: seq<Round>, upto: nat): nat
    requires upto <= |rounds|
  {
    if upto == 0 then 0
    else FailedPulls(decodes, mem, rounds, upto - 1) + (if FailsAt(decodes, mem, rounds, upto - 1) then 1 else 0)
  }

  /** How often a run drops its streams. */
  function Rebinds(es: seq<Event>): nat {
    if es == [] then 0 else Rebinds(es[..|es| - 1]) + (if es[|es| - 1].PullFails? then 1 else 0)
  }

  // ---- What the answers of the environment lead to ----

  lemma {:induction false} ServedFrom(decodes: Msg -> bool, mem: Memory, rounds: seq<Round>, i: nat)
    requires i <= |rounds| && MemoryAt(decodes, mem, rounds, i).Some?
    ensures Served(decodes, mem, rounds) == Served(decodes, MemoryAt(decodes, mem, rounds, i).value, rounds[i..])
  {
    hide OneRound;
    if i == 0 {
      assert rounds[0..] == rounds;
    } else {
      ServedFrom(decodes, mem, rounds, i - 1);
      assert rounds[i - 1..][1..] == rounds[i..];
    }
  }

  lemma {:induction false} EndedBefore(decodes: Msg -> bool, mem: Memory, rounds: seq<Round>, i: nat, j: nat)
    requires i <= j <= |rounds| && MemoryAt(decodes, mem, rounds, i).None?
    ensures MemoryAt(decodes, mem, rounds, j).None?
    ensures FailedPulls(decodes, mem, rounds, j) == FailedPulls(decodes, mem, rounds, i)
  {
    hide OneRound;
    if i < j { EndedBefore(decodes, mem, rounds, i, j - 1); }
  }

  /** A message that is acked, and of which no copy is left, is not what a call returns. */
  lemma {:induction false} AckedNotReturned(decodes: Msg -> bool, mem: Memory, rounds: seq<Round>, m: Msg)
    requires m in mem.acked && m !in mem.buffer
    ensures Served(decodes, mem, rounds).0 != Got(m)
    decreases |rounds|
  {
    if rounds != [] {
      var (ended, after) := OneRound(decodes, mem, rounds[0]);
      if ended.None? { AckedNotReturned(decodes, after, rounds[1..], m); }
    }
  }

  /** After a failed pull the streams and their copies are gone: the call returns nothing that was acked by then, and if
      it drains and cannot bind again at once, it is at its end. */
  lemma FailedPullForgets(decodes: Msg -> bool, mem: Memory, rounds: seq<Round>, i: nat)
    requires i < |rounds| && FailsAt(decodes, mem, rounds, i)
    ensures var here := MemoryAt(decodes, mem, rounds, i).value;
      var acked := if rounds[i].ackArrives then here.acked + AsSet(here.last) else here.acked;
      && MemoryAt(decodes, mem, rounds, i + 1) == Some(Memory(false, None, multiset{}, acked))
      && (forall m :: m in acked ==> Served(decodes, mem, rounds).0 != Got(m))
      && (i + 1 < |rounds| && rounds[i + 1].draining && !rounds[i + 1].binds ==>
            Served(decodes, mem, rounds).0 == Closed)
  {
    ServedFrom(decodes, mem, rounds, i + 1);
    var after := MemoryAt(decodes, mem, rounds, i + 1).value;
    forall m | m in after.acked ensures Served(decodes, mem, rounds).0 != Got(m) {
      AckedNotReturned(decodes, after, rounds[i + 1..], m);
    }
    if i + 1 < |rounds| { assert rounds[i + 1..][0] == rounds[i + 1]; }
  }

  /** A round that finds nothing to pull ends the call, at the end of the input if it drains and still waiting if not; a
      bind that fails ends it only if it drains, and is tried again otherwise. */
  lemma NothingComes(decodes: Msg -> bool, mem: Memory, rounds: seq<Round>, i: nat)
    requires i < |rounds| && MemoryAt(decodes, mem, rounds, i).Some?
    ensures var (here, round) := (MemoryAt(decodes, mem, rounds, i).value, rounds[i]);
      && ((here.bound || round.binds) && round.pull.Silence? ==>
            Served(decodes, mem, rounds).0 == if round.draining then Closed else Waiting)
      && (!here.bound && !round.binds && round.draining ==> Served(decodes, mem, rounds) == (Closed, here))
      && (!here.bound && !round.binds && !round.draining ==> MemoryAt(decodes, mem, rounds, i + 1) == Some(here))
  {
    ServedFrom(decodes, mem, rounds, i);
    assert rounds[i..][0] == rounds[i];
  }

  /** A message that comes is returned if it can be read, and settled and passed over if not. */
  lemma MessageComes(decodes: Msg -> bool, mem: Memory, rounds: seq<Round>, i: nat)
    requires i < |rounds| && MemoryAt(decodes, mem, rounds, i).Some? && rounds[i].pull.Delivered?
    requires MemoryAt(decodes, mem, rounds, i).value.bound || rounds[i].binds
    requires var here := MemoryAt(decodes, mem, rounds, i).value;
      rounds[i].pull.m in here.buffer || (rounds[i].pull.m !in here.acked && here.last != Some(rounds[i].pull.m))
    ensures var (here, m) := (MemoryAt(decodes, mem, rounds, i).value, rounds[i].pull.m);
      var (r, after) := Served(decodes, mem, rounds);
      && (decodes(m) ==> r == Got(m) && after.last == Some(m) && after.bound)
      && (!decodes(m) ==>
            && MemoryAt(decodes, mem, rounds, i + 1).Some?
            && MemoryAt(decodes, mem, rounds, i + 1).value.last == None
            && (rounds[i].skipHeard ==> m in MemoryAt(decodes, mem, rounds, i + 1).value.acked))
  {
    ServedFrom(decodes, mem, rounds, i);
    assert rounds[i..][0] == rounds[i];
  }

  lemma {:induction false} AckedStays(decodes: Msg -> bool, mem: Memory, rounds: seq<Round>)
    ensures mem.acked <= Served(decodes, mem, rounds).1.acked
    decreases |rounds|
  {
    if rounds != [] {
      var (ended, after) := OneRound(decodes, mem, rounds[0]);
      if ended.None? { AckedStays(decodes, after, rounds[1..]); }
    }
  }

  /** A message one call returns is acked by the next, before anything else, if the ack arrives. */
  lemma NextCallAcks(decodes: Msg -> bool, mem: Memory, rounds: seq<Round>, next: seq<Round>)
    requires Served(decodes, mem, rounds).0.Got? && next != [] && next[0].ackArrives
    ensures Served(decodes, mem, rounds).0.m in Served(decodes, Served(decodes, mem, rounds).1, next).1.acked
  {
    ReturnedIsHeld(decodes, mem, rounds);
    var held := Served(decodes, mem, rounds).1;
    var (ended, after) := OneRound(decodes, held, next[0]);
    if ended.None? { AckedStays(decodes, after, next[1..]); }
  }

  /** What a call returns is held unacked by it until the next. */
  lemma {:induction false} ReturnedIsHeld(decodes: Msg -> bool, mem: Memory, rounds: seq<Round>)
    requires Served(decodes, mem, rounds).0.Got?
    ensures var (r, after) := Served(decodes, mem, rounds); after.bound && after.last == Some(r.m) && decodes(r.m)
    decreases |rounds|
  {
    if rounds != [] {
      var (ended, after) := OneRound(decodes, mem, rounds[0]);
      if ended.None? { ReturnedIsHeld(decodes, after, rounds[1..]); }
    }
  }

  class Server {
    var acked: set<Msg>

    constructor ()
      ensures acked == {}
    {
      acked := {};
    }

    method Ack(m: Msg, arrives: bool)
      modifies this
      ensures acked == if arrives then old(acked) + {m} else old(acked)
    {
      if arrives {
        acked := acked + {m};
      }
    }

    /** Whether the server still sends the message. */
    method Offers(m: Msg) returns (sends: bool)
      ensures sends == (m !in acked)
    {
      sends := m !in acked;
    }
  }

  class NatsConsumer {
    const server: Server
    var streams: bool
    var last: Option<Msg>
    /** What the bound streams have been sent and not yielded. */
    var buffer: multiset<Msg>

    constructor (server: Server)
      ensures this.server == server && !streams && last == None && buffer == multiset{}
    {
      this.server, streams, last, buffer := server, false, None, multiset{};
    }

    /** The object is the process of `w`. */
    ghost predicate Is(w: World, at: Point)
      reads this, server
    {
      w.acked == server.acked && w.process == Some(Process(at, streams, last, buffer))
    }

    function Now(): Memory
      reads this, server
    {
      Memory(streams, last, buffer, server.acked)
    }

    /** The streams are bound, or the round ends here. */
    method EnsureBound(decodes: Msg -> bool, round: Round, ghost w: World, ghost es: seq<Event>, ghost here: World)
      returns (bound: bool, ghost longer: seq<Event>, ghost after: World)
      requires Is(here, if streams then Acking(round.draining) else Binding(round.draining))
      requires Play(decodes, w, es) == Some(here)
      modifies this`streams
      ensures bound == streams == (old(streams) || round.binds)
      ensures Is(after, if bound then Acking(round.draining) else if round.draining then WithCaller else Top)
      ensures Play(decodes, w, longer) == Some(after) && Rebinds(longer) == Rebinds(es)
      ensures after.published == here.published && after.draining == here.draining
    {
      hide Play, Apply, Enabled;
      bound, longer, after := true, es, here;
      if !streams {
        bound := round.binds;
        streams := bound;
        longer, after := Bind(decodes, w, es, here, bound);
      }
    }

    /** Settles the message held since the last call, if there is one. */
    method AckPrevious(arrives: bool)
      modifies this, server
      ensures last == None && streams == old(streams) && buffer == old(buffer)
      ensures server.acked == if arrives then old(server.acked) + AsSet(old(last)) else old(server.acked)
    {
      if last.Some? {
        var prev := last.value;
        last := None;
        server.Ack(prev, arrives);
      }
    }

    /** What a pull brings: the end of the call, or another round. */
    method TakePull(decodes: Msg -> bool, round: Round, ghost w: World, ghost es: seq<Event>, ghost here: World)
      returns (r: Option<Outcome>, ghost longer: seq<Event>, ghost after: World)
      requires Is(here, Pulling(round.draining)) && streams && last.None? && Play(decodes, w, es) == Some(here)
      requires round.pull.Delivered? ==> round.pull.m in here.published
      requires round.draining ==> here.draining
      modifies this, server
      ensures (r, Now()) == Pulled(decodes, round, old(buffer), old(server.acked))
      ensures Rebinds(longer) == Rebinds(es) + (if round.pull.Failed? then 1 else 0)
      ensures Play(decodes, w, longer) == Some(after)
      ensures after.published == here.published && after.draining == here.draining
      ensures r.None? ==> Is(after, Top)
      ensures r.Some? ==> Finishes(decodes, r.value, after)
    {
      hide Play, Apply, Enabled;
      r, longer, after := None, es, here;
      match round.pull {
        case Delivered(m) =>
          if m !in buffer {
            var sent := server.Offers(m);
            if !sent {
              r, longer, after := StayQuiet(decodes, round, w, es, here);
              return;
            }
          }
          longer, after := Obtain(decodes, w, es, here, m);
          buffer := buffer - multiset{m};
          if decodes(m) {
            last := Some(m);
            return Some(Got(m)), longer, after;
          }
          server.Ack(m, round.skipHeard);
          longer, after := SettleSkipped(decodes, w, longer, after, round.skipHeard);
        case Failed =>
          streams, buffer := false, multiset{};
          longer, after := Unbind(decodes, w, es, here);
        case Silence =>
          r, longer, after := StayQuiet(decodes, round, w, es, here);
      }
    }

    /** Nothing comes: the end of the input if it is being drained, otherwise the call waits on. */
    method StayQuiet(decodes: Msg -> bool, round: Round, ghost w: World, ghost es: seq<Event>, ghost here: World)
      returns (r: Option<Outcome>, ghost longer: seq<Event>, ghost after: World)
      requires Is(here, Pulling(round.draining)) && Play(decodes, w, es) == Some(here)
      requires round.draining ==> here.draining
      ensures r == Some(if round.draining then Closed else Waiting)
      ensures Play(decodes, w, longer) == Some(after) && Rebinds(longer) == Rebinds(es)
      ensures after.published == here.published && after.draining == here.draining
      ensures Finishes(decodes, r.value, after)
    {
      hide Play, Apply, Enabled;
      r, longer, after := Some(Waiting), es, here;
      if round.draining {
        r := Some(Closed);
        longer, after := GoQuiet(decodes, w, es, here);
      }
    }

    /** How a call that comes to `r` leaves things: with its caller, or still inside the loop. */
    ghost predicate Finishes(decodes: Msg -> bool, r: Outcome, after: World)
      reads this, server
    {
      match r
      case Got(m) => Is(after, WithCaller) && last == Some(m) && decodes(m)
      case Closed => Is(after, WithCaller) && after.draining
      case Waiting => exists at :: Is(after, at) && !at.WithCaller?
    }

    /** Once round the loop: bind if need be, settle the last message, pull. */
    method TakeRound(decodes: Msg -> bool, round: Round, ghost w: World, ghost es: seq<Event>, ghost here: World)
      returns (ended: Option<Outcome>, ghost longer: seq<Event>, ghost after: World)
      requires Is(here, Top) && Play(decodes, w, es) == Some(here)
      requires round.pull.Delivered? ==> round.pull.m in here.published
      requires here.draining ==> round.draining
      modifies this, server
      ensures (ended, Now()) == OneRound(decodes, old(Now()), round)
      ensures Rebinds(longer)
           == Rebinds(es) + (if (old(streams) || round.binds) && round.pull.Failed? then 1 else 0)
      ensures Play(decodes, w, longer) == Some(after)
      ensures after.published == here.published && after.draining == round.draining
      ensures if ended.None? then Is(after, Top) else Finishes(decodes, ended.value, after)
    {
      hide Play, Pulled, Apply, Enabled, Rebinds;
      longer, after := LookAtFlag(decodes, w, es, here, round.draining);
      var bound;
      bound, longer, after := EnsureBound(decodes, round, w, longer, after);
      if !bound {
        ended := if round.draining then Some(Closed) else None;
        return;
      }
      AckPrevious(round.ackArrives);
      longer, after := SettleLast(decodes, w, longer, after, round.ackArrives);
      ended, longer, after := TakePull(decodes, round, w, longer, after);
    }

    /** One call. What it does to the consumer and to the server is a run of the machine, so all that holds of every
        reachable world holds at each point where the call can be cut short. */
    method Recv(decodes: Msg -> bool, rounds: seq<Round>, ghost w: World)
      returns (r: Outcome, ghost es: seq<Event>, ghost after: World)
      requires Is(w, WithCaller) && Plausible(w, rounds, 0)
      modifies this, server
      ensures (r, Now()) == Served(decodes, old(Now()), rounds)
      ensures Rebinds(es) == FailedPulls(decodes, old(Now()), rounds, |rounds|)
      ensures Play(decodes, w, es) == Some(after)
      ensures Finishes(decodes, r, after)
    {
      hide Play, Served, Pulled, OneRound, MemoryAt, FailedPulls, Apply, Enabled, Rebinds, Plausible;
      ghost var start := Now();
      FirstMemory(decodes, start, rounds);
      es, after := BeginCall(decodes, w);
      SamePlausible(w, after, rounds);
      var i := 0;
      while i < |rounds|
        invariant 0 <= i <= |rounds|
        invariant Is(after, Top) && Play(decodes, w, es) == Some(after)
        invariant Plausible(after, rounds, i)
        invariant MemoryAt(decodes, start, rounds, i) == Some(Now())
        invariant Rebinds(es) == FailedPulls(decodes, start, rounds, i)
      {
        var round := rounds[i];
        NextMemory(decodes, start, rounds, i);
        RoundPlausible(after, rounds, i);
        var ended;
        ended, es, after := TakeRound(decodes, round, w, es, after);
        if ended.Some? {
          return ended.value, es, after;
        }
        i := i + 1;
      }
      WaitsOn(decodes, start, rounds);
      assert Is(after, Top);
      r := Waiting;
    }
  }

  lemma SamePlausible(w: World, u: World, rounds: seq<Round>)
    requires Plausible(w, rounds, 0) && u.published == w.published && u.draining == w.draining
    ensures Plausible(u, rounds, 0)
  {
  }

  lemma RoundPlausible(w: World, rounds: seq<Round>, i: nat)
    requires i < |rounds| && Plausible(w, rounds, i)
    ensures rounds[i].pull.Delivered? ==> rounds[i].pull.m in w.published
    ensures w.draining ==> rounds[i].draining
    ensures forall u: World :: u.published == w.published && u.draining == rounds[i].draining ==>
      Plausible(u, rounds, i + 1)
  {
  }

  lemma FirstMemory(decodes: Msg -> bool, mem: Memory, rounds: seq<Round>)
    ensures MemoryAt(decodes, mem, rounds, 0) == Some(mem) && FailedPulls(decodes, mem, rounds, 0) == 0
  {
  }

  lemma WaitsOn(decodes: Msg -> bool, mem: Memory, rounds: seq<Round>)
    requires MemoryAt(decodes, mem, rounds, |rounds|).Some?
    ensures Served(decodes, mem, rounds) == (Waiting, MemoryAt(decodes, mem, rounds, |rounds|).value)
  {
    hide OneRound, MemoryAt;
    ServedFrom(decodes, mem, rounds, |rounds|);
  }

  /** What the round at hand makes of the call. */
  lemma NextMemory(decodes: Msg -> bool, mem: Memory, rounds: seq<Round>, i: nat)
    requires i < |rounds| && MemoryAt(decodes, mem, rounds, i).Some?
    ensures var (here, round) := (MemoryAt(decodes, mem, rounds, i).value, rounds[i]);
      var (ended, after) := OneRound(decodes, here, round);
      && FailedPulls(decodes, mem, rounds, i + 1) == FailedPulls(decodes, mem, rounds, i) +
           (if (here.bound || round.binds) && round.pull.Failed? then 1 else 0)
      && (if ended.Some?
          then Served(decodes, mem, rounds) == (ended.value, after)
            && FailedPulls(decodes, mem, rounds, |rounds|) == FailedPulls(decodes, mem, rounds, i + 1)
          else MemoryAt(decodes, mem, rounds, i + 1) == Some(after))
  {
    hide OneRound;
    ServedFrom(decodes, mem, rounds, i);
    assert rounds[i..][0] == rounds[i];
    if MemoryAt(decodes, mem, rounds, i + 1).None? { EndedBefore(decodes, mem, rounds, i + 1, |rounds|); }
  }

  lemma Starts(decodes: Msg -> bool, w: World, e: Event)
    requires Enabled(w, e)
    ensures Play(decodes, w, [e]) == Some(Apply(decodes, w, e))
  {
    assert [e][..0] == [];
  }

  /** One more event on a run. */
  lemma Then(decodes: Msg -> bool, w: World, es: seq<Event>, here: World, e: Event)
    returns (longer: seq<Event>, after: World)
    requires Play(decodes, w, es) == Some(here) && Enabled(here, e)
    ensures longer == es + [e] && after == Apply(decodes, here, e) && Play(decodes, w, longer) == Some(after)
    ensures Rebinds(longer) == Rebinds(es) + (if e.PullFails? then 1 else 0)
  {
    longer, after := es + [e], Apply(decodes, here, e);
    PlaySnoc(decodes, w, es, e);
  }

  // ---- Steps of the loop, by what they leave ----

  /** Only the process, and what the server has heard, differ. */
  predicate Moved(here: World, after: World, process: Process, acked: set<Msg>) {
    && after.process == Some(process) && after.acked == acked
    && after.published == here.published && after.draining == here.draining
  }

  lemma BeginCall(decodes: Msg -> bool, w: World) returns (es: seq<Event>, after: World)
    requires w.process.Some? && w.process.value.at.WithCaller?
    ensures Play(decodes, w, es) == Some(after) && Moved(w, after, w.process.value.(at := Top), w.acked)
    ensures Rebinds(es) == 0
  {
    es, after := [Call], Apply(decodes, w, Call);
    Starts(decodes, w, Call);
  }

  lemma SettleLast(decodes: Msg -> bool, w: World, es: seq<Event>, here: World, arrives: bool)
    returns (longer: seq<Event>, after: World)
    requires Play(decodes, w, es) == Some(here) && here.process.Some? && here.process.value.at.Acking?
    ensures Play(decodes, w, longer) == Some(after) && Rebinds(longer) == Rebinds(es)
    ensures var p := here.process.value;
      Moved(here, after, p.(at := Pulling(p.at.draining), last := None),
            if arrives then here.acked + AsSet(p.last) else here.acked)
  {
    hide Play;
    longer, after := Then(decodes, w, es, here, AckLast(arrives));
  }

  lemma SettleSkipped(decodes: Msg -> bool, w: World, es: seq<Event>, here: World, heard: bool)
    returns (longer: seq<Event>, after: World)
    requires Play(decodes, w, es) == Some(here) && here.process.Some? && here.process.value.at.Skipping?
    ensures Play(decodes, w, longer) == Some(after) && Rebinds(longer) == Rebinds(es)
    ensures var p := here.process.value;
      Moved(here, after, p.(at := Top), if heard then here.acked + {p.at.m} else here.acked)
  {
    hide Play;
    longer, after := Then(decodes, w, es, here, AckSkipped(heard));
  }

  lemma Unbind(decodes: Msg -> bool, w: World, es: seq<Event>, here: World) returns (longer: seq<Event>, after: World)
    requires Play(decodes, w, es) == Some(here) && here.process.Some? && here.process.value.at.Pulling?
    ensures Play(decodes, w, longer) == Some(after) && Rebinds(longer) == Rebinds(es) + 1
    ensures Moved(here, after, here.process.value.(at := Top, bound := false, buffer := multiset{}), here.acked)
  {
    hide Play;
    longer, after := Then(decodes, w, es, here, PullFails);
  }

  lemma GoQuiet(decodes: Msg -> bool, w: World, es: seq<Event>, here: World) returns (longer: seq<Event>, after: World)
    requires Play(decodes, w, es) == Some(here) && here.process.Some?
    requires here.process.value.at.Pulling? && here.process.value.at.draining
    ensures Play(decodes, w, longer) == Some(after) && Rebinds(longer) == Rebinds(es)
    ensures Moved(here, after, here.process.value.(at := WithCaller), here.acked)
  {
    hide Play;
    longer, after := Then(decodes, w, es, here, Quiet);
  }

  lemma Bind(decodes: Msg -> bool, w: World, es: seq<Event>, here: World, binds: bool)
    returns (longer: seq<Event>, after: World)
    requires Play(decodes, w, es) == Some(here) && here.process.Some? && here.process.value.at.Binding?
    ensures Play(decodes, w, longer) == Some(after) && Rebinds(longer) == Rebinds(es)
    ensures var p := here.process.value;
      Moved(here, after,
            if binds then p.(at := Acking(p.at.draining), bound := true)
            else p.(at := if p.at.draining then WithCaller else Top),
            here.acked)
  {
    hide Play;
    longer, after := Then(decodes, w, es, here, if binds then BindOk else BindFails);
  }

  /** A message is pulled from the buffer, or sent and pulled. */
  lemma Obtain(decodes: Msg -> bool, w: World, es: seq<Event>, here: World, m: Msg)
    returns (longer: seq<Event>, after: World)
    requires Play(decodes, w, es) == Some(here) && here.process.Some?
    requires here.process.value.at.Pulling? && here.process.value.bound
    requires m in here.process.value.buffer || (m in here.published && m !in here.acked)
    ensures Play(decodes, w, longer) == Some(after) && Rebinds(longer) == Rebinds(es)
    ensures var p := here.process.value;
      var rest := p.buffer - multiset{m};
      Moved(here, after,
            if decodes(m) then p.(at := WithCaller, last := Some(m), buffer := rest)
            else p.(at := Skipping(m), buffer := rest),
            here.acked)
  {
    hide Play;
    var buffer := here.process.value.buffer;
    longer, after := es, here;
    if m !in buffer {
      longer, after := Then(decodes, w, longer, after, Send(m));
      assert buffer + multiset{m} - multiset{m} == buffer - multiset{m};
    }
    longer, after := Then(decodes, w, longer, after, Deliver(m));
  }

  /** The loop comes round; someone may have set the flag just before. */
  lemma LookAtFlag(decodes: Msg -> bool, w: World, es: seq<Event>, here: World, draining: bool)
    returns (longer: seq<Event>, after: World)
    requires Play(decodes, w, es) == Some(here) && here.process.Some? && here.process.value.at.Top?
    requires here.draining ==> draining
    ensures Play(decodes, w, longer) == Some(after) && Rebinds(longer) == Rebinds(es)
    ensures var p := here.process.value;
      Moved(here.(draining := draining), after,
            p.(at := if p.bound then Acking(draining) else Binding(draining)), here.acked)
  {
    hide Play;
    longer, after := es, here;
    if draining && !here.draining {
      longer, after := Then(decodes, w, longer, after, BeginDrain);
    }
    longer, after := Then(decodes, w, longer, after, ComeRound);
  }
}
