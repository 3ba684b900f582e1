/** The window node: state updated in place, and the loop that drives it. */
module WindowNode {
  import opened Wrappers
  import opened Numbers
  import opened Records
  import opened Tallies
  import opened WindowModel
  import opened WindowRuns
  import opened Outlets

  /** How many windows contain event time `t`. */
  function Overlaps(c: Config, t: nat): nat
    requires c.Valid()
  {
    var full := (c.size - t % c.slide + c.slide - 1) / c.slide;
    if full < t / c.slide + 1 then full else t / c.slide + 1
  }

  /** The start `i` slides before the newest one still contains `t` exactly while `i` is below the rounded-up
      number of slides that fit. */
  lemma StillContains(c: Config, t: nat, i: nat)
    requires c.Valid() && i <= t / c.slide
    ensures t < (t / c.slide - i) * c.slide + c.size <==> i < (c.size - t % c.slide + c.slide - 1) / c.slide
  {
    var d, q, r := c.slide, t / c.slide, t % c.slide;
    var n := (c.size - r + d - 1) / d;
    assert t == q * d + r;
    assert (q - i) * d == q * d - i * d;
    assert n * d <= c.size - r + d - 1 < n * d + d;
    if i < n { TimesStrict(i, n, d); } else { TimesMonotone(n, i, d); }
  }

  /** One slide back from the start that is `n` slides below `q` slides. */
  lemma SlideBack(q: nat, n: nat, d: nat)
    requires d > 0 && n <= q
    ensures (q - n) * d < d ==> n == q
    ensures (q - n) * d >= d ==> n < q && (q - (n + 1)) * d == (q - n) * d - d
  {
    if n < q { TimesStrict(0, q - n, d); }
  }

  lemma StartIsMultiple(c: Config, t: nat, s: nat)
    requires c.Valid() && s in StartsOf(c, t)
    ensures s / c.slide <= t / c.slide && s == s / c.slide * c.slide
  {
    var p, q := s / c.slide, t / c.slide;
    assert q < p ==> q * c.slide + c.slide <= p * c.slide by { if q < p { TimesStrict(q, p, c.slide); } }
  }

  ghost function OpenAmong(c: Config, starts: seq<nat>, wm: nat): set<nat> {
    set s | s in starts && wm < s + c.size
  }

  /** The newest start, and every earlier one down to the first that no longer contains `t`. */
  ghost predicate ListsStarts(c: Config, t: nat, starts: seq<nat>)
    requires c.Valid()
  {
    && |starts| == Overlaps(c, t)
    && forall i :: 0 <= i < |starts| ==> i <= t / c.slide && starts[i] == (t / c.slide - i) * c.slide
  }

  /** Such a list is strictly descending and holds exactly the windows that contain `t`. */
  lemma StartsListed(c: Config, t: nat, starts: seq<nat>)
    requires c.Valid() && ListsStarts(c, t, starts)
    ensures forall i, j :: 0 <= i < j < |starts| ==> starts[j] < starts[i]
    ensures forall s :: s in starts <==> s in StartsOf(c, t)
    ensures |starts| <= (c.size + c.slide - 1) / c.slide
  {
    forall i, j | 0 <= i < j < |starts| ensures starts[j] < starts[i] {
      TimesStrict(t / c.slide - j, t / c.slide - i, c.slide);
    }
    forall s ensures s in starts <==> s in StartsOf(c, t) {
      if s in starts { ListedIsStart(c, t, starts, s); }
      if s in StartsOf(c, t) { StartIsListed(c, t, starts, s); }
    }
    QuotientMonotone(c.size - t % c.slide + c.slide - 1, c.size + c.slide - 1, c.slide);
  }

  lemma ListedIsStart(c: Config, t: nat, starts: seq<nat>, s: nat)
    requires c.Valid() && ListsStarts(c, t, starts) && s in starts
    ensures s in StartsOf(c, t)
  {
    var i :| 0 <= i < |starts| && starts[i] == s;
    StillContains(c, t, i);
    MultipleBelow(c.slide, t, t / c.slide - i);
  }

  lemma MultipleBelow(d: nat, t: nat, k: nat)
    requires d > 0 && k <= t / d
    ensures k * d % d == 0 && k * d <= t
  {
    DivideUnique(k * d, d, k, 0);
    TimesMonotone(k, t / d, d);
  }

  lemma StartIsListed(c: Config, t: nat, starts: seq<nat>, s: nat)
    requires c.Valid() && ListsStarts(c, t, starts) && s in StartsOf(c, t)
    ensures s in starts
  {
    StartIsMultiple(c, t, s);
    var i := t / c.slide - s / c.slide;
    StillContains(c, t, i);
    assert starts[i] == s;
  }

  // ---- One more window in the fold ----

  lemma FoldOneMore(c: Config, windows: map<nat, Groups>, done: set<nat>, start: nat, rec: Record, v: real)
    requires start !in done
    ensures GroupsAt(FoldAll(c, windows, done, rec, v), start) == GroupsAt(windows, start)
    ensures FoldAll(c, windows, done + {start}, rec, v) == FoldAll(c, windows, done, rec, v)[start :=
      FoldInto(c.maxGroups, GroupsAt(windows, start), GroupKeyOf(rec, c.groupBy), NewAgg(rec, c.groupBy), v)]
  {
    hide FoldInto, NewAgg, GroupKeyOf;
  }

  lemma FoldNone(c: Config, windows: map<nat, Groups>, rec: Record, v: real)
    ensures FoldAll(c, windows, {}, rec, v) == windows
    ensures forall key :: !SomeAdmits(c, windows, {}, key) && !SomeRefuses(c, windows, {}, key)
  {
  }

  ghost predicate SomeRefuses(c: Config, windows: map<nat, Groups>, starts: set<nat>, key: GroupKey) {
    exists s :: s in starts && !Admits(c.maxGroups, GroupsAt(windows, s), key)
  }

  lemma OneMoreAdmits(c: Config, windows: map<nat, Groups>, done: set<nat>, start: nat, key: GroupKey)
    ensures SomeAdmits(c, windows, done + {start}, key)
      <==> SomeAdmits(c, windows, done, key) || Admits(c.maxGroups, GroupsAt(windows, start), key)
    ensures SomeRefuses(c, windows, done + {start}, key)
      <==> SomeRefuses(c, windows, done, key) || !Admits(c.maxGroups, GroupsAt(windows, start), key)
  {
    hide Admits, GroupsAt;
    assert start in done + {start};
    assert forall s :: s in done ==> s in done + {start};
  }

  /** When no open window admits a record, it is refused unless there is no open window. */
  lemma AllRefused(c: Config, windows: map<nat, Groups>, open: set<nat>, key: GroupKey)
    ensures !SomeAdmits(c, windows, open, key) ==> (SomeRefuses(c, windows, open, key) <==> open != {})
  {
    hide Admits;
  }

  // ---- Draining ----

  function Taken(starts: seq<nat>): set<nat> {
    set s | s in starts
  }

  lemma NothingTaken()
    ensures Taken([]) == {}
  {
  }

  /** Open windows, earliest first. */
  ghost predicate Fireable(windows: map<nat, Groups>, starts: seq<nat>) {
    && (forall s :: s in starts ==> s in windows)
    && forall i, j :: 0 <= i < j < |starts| ==> starts[i] < starts[j]
  }

  lemma FireableInRange(c: Config, windows: map<nat, Groups>, starts: seq<nat>)
    requires Fireable(windows, starts) && forall s :: s in windows ==> s + c.size < U64_LIMIT
    ensures |FireAll(windows, starts)| == |starts| && InRange(c, FireAll(windows, starts))
  {
    assert forall i :: 0 <= i < |starts| ==> starts[i] in starts;
  }

  lemma TakenOne(windows: map<nat, Groups>, starts: seq<nat>, i: nat)
    requires i < |starts| && Fireable(windows, starts)
    ensures starts[i] !in Taken(starts[..i]) && Taken(starts[..i + 1]) == Taken(starts[..i]) + {starts[i]}
    ensures starts[i] in windows && FireAll(windows, starts)[i] == Firing(starts[i], windows[starts[i]])
    ensures i > 0 ==> starts[i - 1] < starts[i]
  {
    assert starts[..i + 1] == starts[..i] + [starts[i]];
    assert starts[i] in starts;
  }

  lemma LastFiring(c: Config, fired: seq<Firing>, i: nat)
    requires i < |fired| && InRange(c, fired)
    ensures InRange(c, fired[..i]) && InRange(c, fired[..i + 1]) && fired[i].start + c.size < U64_LIMIT
    ensures FiringRecords(c, fired[..i + 1])
      == FiringRecords(c, fired[..i]) + GroupRecords(c, fired[i].start, fired[i].groups)
  {
    assert fired[..i + 1][..i] == fired[..i];
  }

  lemma NothingFired(c: Config)
    ensures InRange(c, []) && FiringRecords(c, []) == multiset{}
  {
  }

  ghost predicate OrderedByEnd(out: seq<Record>) {
    forall i, j :: 0 <= i < j < |out| ==> out[i].ts <= out[j].ts
  }

  ghost predicate EndsBy(out: seq<Record>, end: nat) {
    forall x :: x in out ==> x.ts <= end
  }

  lemma EndsLater(out: seq<Record>, a: nat, b: nat)
    requires EndsBy(out, a) && a <= b
    ensures EndsBy(out, b)
  {
  }

  lemma NothingOut()
    ensures OrderedByEnd([]) && EndsBy([], 0)
  {
  }

  /** `out` holds the fired windows' records, window by window. */
  ghost predicate Emits(c: Config, fired: seq<Firing>, out: seq<Record>) {
    InRange(c, fired) && multiset(out) == FiringRecords(c, fired) && OrderedByEnd(out)
  }

  class Window {
    const c: Config
    /** Open windows by start. */
    var windows: map<nat, Groups>
    var maxEvent: u64
    var skipped: nat
    var late: nat
    var capped: nat

    ghost predicate Valid()
      reads this
    {
      c.Valid() && forall s :: s in windows ==> s + c.size < U64_LIMIT
    }

    ghost function View(): State
      reads this
    {
      State(windows, maxEvent, skipped, late, capped)
    }

    constructor (c: Config)
      requires c.Valid()
      ensures Valid() && this.c == c && View() == INITIAL
    {
      this.c := c;
      windows, maxEvent, skipped, late, capped := map[], 0, 0, 0, 0;
    }

    method WindowStarts(t: u64) returns (starts: seq<u64>)
      requires Valid() && t + c.size < U64_LIMIT
      ensures ListsStarts(c, t, starts)
    {
      var size, slide := c.size, c.slide;
      ghost var q := t / slide;
      DivideUnique(t, slide, q, t % slide);
      var start: u64 := t / slide * slide;
      starts := [];
      StillContains(c, t, 0);
      while true
        invariant |starts| <= q && start == (q - |starts|) * slide
        invariant t < start + size
        invariant forall i :: 0 <= i < |starts| ==> starts[i] == (q - i) * slide
        decreases start
      {
        ghost var n := |starts|;
        SlideBack(q, n, slide);
        StillContains(c, t, n);
        starts := starts + [start];
        if start < slide {
          break;
        }
        start := start - slide;
        StillContains(c, t, n + 1);
        var end: u64 := start + size;
        if end <= t {
          break;
        }
      }
    }

    method GroupKey(rec: Record) returns (key: GroupKey, attrs: Attrs)
      ensures key == GroupKeyOf(rec, c.groupBy) && attrs == LabelsOf(rec, c.groupBy)
    {
      key, attrs := [], map[];
      for i := 0 to |c.groupBy|
        invariant key == GroupKeyOf(rec, c.groupBy)[..i]
        invariant attrs == LabelsOf(rec, c.groupBy[..i])
      {
        var v := Lookup(rec, c.groupBy[i]);
        key := key + [PartOf(v)];
        assert c.groupBy[..i + 1][..i] == c.groupBy[..i];
        if v.Some? {
          attrs := attrs[c.groupBy[i] := v.value];
        }
      }
      assert c.groupBy[..|c.groupBy|] == c.groupBy;
    }

    /** Fold one record into every window it belongs to that has not fired. */
    method OnRecord(rec: Record) returns (r: Result<(), Fault>)
      requires Valid() && rec.ts + c.size < U64_LIMIT
      modifies this
      ensures Valid()
      ensures r.Err? <==> Rejected(c, rec)
      ensures r.Err? ==> View() == old(View())
      ensures r.Ok? ==> View() == WindowModel.OnRecord(c, old(View()), rec)
    {
      var numeric := Numeric(rec, c.aggregate.field);
      if numeric.Err? {
        if Policy(c, numeric.error).Error? {
          return Err(numeric.error);
        }
        skipped := skipped + 1;
        maxEvent := if maxEvent < rec.ts then rec.ts else maxEvent;
        return Ok(());
      }
      var v := numeric.value;
      var watermark := Watermark(c, maxEvent);
      var key, attrs := GroupKey(rec);
      var starts := WindowStarts(rec.ts);
      StartsListed(c, rec.ts, starts);
      var folded, refused := FoldOpen(rec, v, key, attrs, watermark, starts);
      ghost var open := OpenStarts(c, rec.ts, watermark);
      assert OpenAmong(c, starts, watermark) == open;
      AllRefused(c, old(windows), open, key);
      hide FoldAll, OpenStarts, OpenAmong, SomeAdmits, SomeRefuses, ListsStarts;
      if folded {
        maxEvent := if maxEvent < rec.ts then rec.ts else maxEvent;
      } else if refused {
        maxEvent := if maxEvent < rec.ts then rec.ts else maxEvent;
        capped := capped + 1;
      } else {
        late := late + 1;
      }
      r := Ok(());
    }

    /** The loop over the record's windows. */
    method FoldOpen(rec: Record, v: real, key: GroupKey, attrs: Attrs, watermark: nat, starts: seq<nat>)
      returns (folded: bool, refused: bool)
      requires Valid() && key == GroupKeyOf(rec, c.groupBy) && attrs == LabelsOf(rec, c.groupBy)
      requires forall i, j :: 0 <= i < j < |starts| ==> starts[j] < starts[i]
      requires forall s :: s in starts ==> s + c.size < U64_LIMIT
      modifies this`windows
      ensures Valid() && windows == FoldAll(c, old(windows), OpenAmong(c, starts, watermark), rec, v)
      ensures folded <==> SomeAdmits(c, old(windows), OpenAmong(c, starts, watermark), key)
      ensures refused <==> SomeRefuses(c, old(windows), OpenAmong(c, starts, watermark), key)
    {
      hide FoldAll, Tally.Add, GroupKeyOf, LabelsOf, SomeAdmits, SomeRefuses;
      folded, refused := false, false;
      FoldNone(c, windows, rec, v);
      assert OpenAmong(c, starts[..0], watermark) == {};
      var cap := c.maxGroups;
      for i := 0 to |starts|
        invariant Valid()
        invariant windows == FoldAll(c, old(windows), OpenAmong(c, starts[..i], watermark), rec, v)
        invariant folded <==> SomeAdmits(c, old(windows), OpenAmong(c, starts[..i], watermark), key)
        invariant refused <==> SomeRefuses(c, old(windows), OpenAmong(c, starts[..i], watermark), key)
      {
        var start := starts[i];
        assert start in starts;
        ghost var done := OpenAmong(c, starts[..i], watermark);
        assert starts[..i + 1] == starts[..i] + [start];
        if start + c.size <= watermark {
          assert OpenAmong(c, starts[..i + 1], watermark) == done;
          continue;
        }
        assert OpenAmong(c, starts[..i + 1], watermark) == done + {start};
        assert start !in done;
        FoldOneMore(c, old(windows), done, start, rec, v);
        assert GroupsAt(windows, start) == GroupsAt(old(windows), start);
        OneMoreAdmits(c, old(windows), done, start, key);
        var groups := GroupsAt(windows, start);
        if key in groups {
          var agg := groups[key];
          groups := groups[key := agg.(tally := agg.tally.Add(v))];
          folded := true;
        } else if cap.Some? && |groups| >= cap.value {
          refused := true;
        } else {
          groups := groups[key := Agg(rec.name, attrs, NoSamples().Add(v))];
          folded := true;
        }
        assert groups == FoldInto(cap, GroupsAt(old(windows), start), key, NewAgg(rec, c.groupBy), v);
        windows := windows[start := groups];
      }
      assert starts[..|starts|] == starts;
    }

    method DrainSkipped() returns (n: nat)
      modifies this`skipped
      ensures n == old(skipped) && skipped == 0
    {
      n, skipped := skipped, 0;
    }

    method DrainLate() returns (n: nat)
      modifies this`late
      ensures n == old(late) && late == 0
    {
      n, late := late, 0;
    }

    method DrainCapped() returns (n: nat)
      modifies this`capped
      ensures n == old(capped) && capped == 0
    {
      n, capped := capped, 0;
    }

    /** Fires the windows whose end is at or below the watermark. */
    method DrainReady() returns (out: seq<Record>, ghost fired: seq<Firing>)
      requires Valid()
      modifies this`windows
      ensures Valid()
      ensures fired == Fired(old(View()), ReadyStarts(c, old(View()))) && Emits(c, fired, out)
      ensures View() == Without(old(View()), ReadyStarts(c, old(View())))
    {
      var watermark := Watermark(c, maxEvent);
      var ready := (end: nat) => end <= watermark;
      assert (set s | s in windows && ready(s + c.size)) == ReadyStarts(c, View());
      hide Fired;
      out, fired := DrainWindows(ready);
    }

    /** Fires whatever is open. */
    method DrainAll() returns (out: seq<Record>, ghost fired: seq<Firing>)
      requires Valid()
      modifies this`windows
      ensures Valid() && windows == map[]
      ensures fired == Fired(old(View()), old(windows).Keys) && Emits(c, fired, out)
      ensures View() == Without(old(View()), old(windows).Keys)
    {
      var always := (_: nat) => true;
      assert (set s | s in windows && always(s + c.size)) == windows.Keys;
      hide Fired;
      out, fired := DrainWindows(always);
      assert windows.Keys == {};
    }

    method DrainWindows(ready: nat -> bool) returns (out: seq<Record>, ghost fired: seq<Firing>)
      requires Valid()
      modifies this`windows
      ensures Valid()
      ensures var gone := set s | s in old(windows) && ready(s + c.size);
        && fired == Fired(old(View()), gone)
        && View() == Without(old(View()), gone)
      ensures Emits(c, fired, out)
    {
      var starts := StartsAscending(set s | s in windows && ready(s + c.size));
      fired := FireAll(windows, starts);
      out := FireInOrder(starts);
      assert Taken(starts) == set s | s in old(windows) && ready(s + c.size);
    }

    /** Remove the given windows, earliest first. */
    method FireInOrder(starts: seq<nat>) returns (out: seq<Record>)
      requires Valid() && Fireable(windows, starts)
      modifies this`windows
      ensures Valid() && windows == old(windows) - Taken(starts)
      ensures Emits(c, FireAll(old(windows), starts), out)
    {
      hide FiringRecords, GroupRecords, FireAll, Taken, OrderedByEnd, EndsBy, InRange;
      ghost var fired := FireAll(windows, starts);
      FireableInRange(c, windows, starts);
      assert fired[..0] == [] && starts[..0] == [];
      NothingFired(c);
      NothingTaken();
      NothingOut();
      out := [];
      for i := 0 to |starts|
        invariant windows == old(windows) - Taken(starts[..i])
        invariant InRange(c, fired[..i]) && multiset(out) == FiringRecords(c, fired[..i])
        invariant OrderedByEnd(out)
        invariant EndsBy(out, if i > 0 then starts[i - 1] + c.size else 0)
      {
        var start := starts[i];
        TakenOne(old(windows), starts, i);
        var groups := windows[start];
        windows := windows - {start};
        LastFiring(c, fired, i);
        EndsLater(out, if i > 0 then starts[i - 1] + c.size else 0, start + c.size);
        out := EmitGroups(start, groups, out);
      }
      assert starts[..|starts|] == starts && fired[..|fired|] == fired;
    }

    /** The groups of a fired window go behind `before`, each as it is met. */
    method EmitGroups(start: nat, groups: Groups, before: seq<Record>) returns (out: seq<Record>)
      requires start + c.size < U64_LIMIT
      requires OrderedByEnd(before) && EndsBy(before, start + c.size)
      ensures multiset(out) == multiset(before) + GroupRecords(c, start, groups)
      ensures OrderedByEnd(out) && EndsBy(out, start + c.size)
    {
      hide GroupRecords;
      out := before;
      var left := groups;
      while left != map[]
        invariant multiset(out) + GroupRecords(c, start, left) == multiset(before) + GroupRecords(c, start, groups)
        invariant OrderedByEnd(out) && EndsBy(out, start + c.size)
        decreases |left|
      {
        assert left.Keys != {};
        var key :| key in left.Keys;
        GroupRecordsAnyOrder(c, start, left, key);
        assert left.Keys == (left - {key}).Keys + {key};
        match OutputOf(c, start, left[key]) {
          case None =>
          case Some(r) => out := out + [r];
        }
        left := left - {key};
      }
      NoGroupsNoRecords(c, start);
    }
  }

  lemma NoGroupsNoRecords(c: Config, start: nat)
    requires start + c.size < U64_LIMIT
    ensures GroupRecords(c, start, map[]) == multiset{}
  {
  }

  lemma {:induction false} FiringRecordsConcat(c: Config, a: seq<Firing>, b: seq<Firing>)
    requires InRange(c, a) && InRange(c, b)
    ensures InRange(c, a + b)
    ensures FiringRecords(c, a + b) == FiringRecords(c, a) + FiringRecords(c, b)
  {
    hide GroupRecords;
    if b == [] {
      assert a + b == a;
    } else {
      var n := |b| - 1;
      FiringRecordsConcat(c, a, b[..n]);
      assert (a + b)[..|a| + n] == a + b[..n];
      assert (a + b)[|a| + n] == b[n];
    }
  }

  /** One turn of the driver's loop. */
  method Handle(win: Window, e: Event)
    returns (emitted: seq<Record>, dropped: Drops, rejected: bool, ghost fired: seq<Firing>)
    requires win.Valid() && Metered(win.View()) == win.View()
    requires e.Arrival? ==> e.rec.ts + win.c.size < U64_LIMIT
    modifies win
    ensures win.Valid()
    ensures var t := Step(win.c, Trace(old(win.View()), [], Drops(0, 0, 0), false), e);
      && rejected == t.failed && win.View() == t.st
      && (!rejected ==> dropped == t.drops && fired == t.out && Emits(win.c, fired, emitted))
  {
    hide Fired, WindowModel.OnRecord, FiringRecords, ReadyStarts;
    emitted, dropped, rejected, fired := [], Drops(0, 0, 0), false, [];
    match e {
      case Arrival(rec) =>
        ghost var before := win.View();
        var r := win.OnRecord(rec);
        if r.Err? {
          rejected := true;
          return;
        }
        var skipped := win.DrainSkipped();
        var late := win.DrainLate();
        var capped := win.DrainCapped();
        dropped := Drops(skipped, late, capped);
        SameReady(win.c, WindowModel.OnRecord(win.c, before, rec));
        emitted, fired := win.DrainReady();
      case IdleTimeout =>
        emitted, fired := win.DrainAll();
    }
  }

  /** Send records downstream, up to the first that cannot be sent. */
  method Emit(recs: seq<Record>, tx: Outlet) returns (ok: bool)
    modifies tx
    ensures ok ==> tx.sent == old(tx.sent) + recs
    ensures !ok ==> tx.Gone() && |tx.sent| < |old(tx.sent) + recs|
    ensures |old(tx.sent)| <= |tx.sent| <= |old(tx.sent) + recs|
    ensures tx.sent == (old(tx.sent) + recs)[..|tx.sent|]
  {
    ghost var whole := tx.sent + recs;
    for i := 0 to |recs|
      invariant |tx.sent| == |old(tx.sent)| + i && tx.sent == whole[..|tx.sent|]
    {
      ok := tx.Send(recs[i]);
      if !ok {
        return;
      }
    }
    ok := true;
  }

  /** How a run ends: how many events it handled, what it was to send, whether it came to the end of its input or
      failed, rather than giving up at a record it could not send. */
  datatype Ending = Ending(handled: nat, due: seq<Record>, atEnd: bool)

  ghost predicate Sent(c: Config, events: seq<Event>, tx: Outlet, e: Ending)
    requires c.Valid()
    reads tx
  {
    && e.handled <= |events| && (e.atEnd ==> e.handled == |events|)
    && var t := Feed(c, events[..e.handled]);
    && var fired := if e.atEnd then Stream(c, events) else t.out;
    && InRange(c, fired) && multiset(e.due) == FiringRecords(c, fired)
    && |tx.sent| <= |e.due| && tx.sent == e.due[..|tx.sent|]
    && (|tx.sent| < |e.due| ==> tx.Gone() && !t.failed)
    && (!e.atEnd ==> |tx.sent| < |e.due| && e.handled > 0)
  }

  /** What fired before the last turn was sent in full. */
  ghost predicate SentInFull(c: Config, events: seq<Event>, tx: Outlet, e: Ending)
    requires c.Valid() && Sent(c, events, tx, e)
    reads tx
  {
    var before := Feed(c, events[..if e.atEnd then e.handled else e.handled - 1]).out;
    InRange(c, before) && FiringRecords(c, before) <= multiset(tx.sent)
  }

  /** Drive a window over its input: fold each arrival, meter what it dropped, emit what became ready; an idle
      timeout flushes everything; a clean end of input flushes what is left. A record that cannot be sent ends the
      run, with all that was due before it sent. */
  method Run(c: Config, events: seq<Event>, tx: Outlet) returns (drops: Drops, failed: bool, ghost e: Ending)
    requires c.Valid() && tx.sent == []
    requires forall i :: 0 <= i < |events| && events[i].Arrival? ==> events[i].rec.ts + c.size < U64_LIMIT
    modifies tx
    ensures Sent(c, events, tx, e)
    ensures drops == Feed(c, events[..e.handled]).drops && failed == Feed(c, events[..e.handled]).failed
    ensures SentInFull(c, events, tx, e)
    ensures OrderedIfNoIdle(events, e.due)
  {
    hide Feed, Stream, Step, Fired, FiringRecords, AllDue, Sent, SentInFull, OrderedIfNoIdle;
    var win := new Window(c);
    drops, failed := Drops(0, 0, 0), false;
    NothingDue(c, events);
    for i := 0 to |events|
      invariant win.c == c && fresh(win) && win.Valid()
      invariant AllDue(c, events, i, win.View(), drops, tx.sent)
    {
      ghost var (view, before) := (win.View(), tx.sent);
      MeteredView(c, events, i, view, drops, before);
      var emitted, dropped, rejected, fired := Handle(win, events[i]);
      if rejected {
        e := EndsRejected(c, events, i, view, drops, tx);
        return drops, true, e;
      }
      OneMoreTurn(c, events, i, view, drops, before, win.View(), dropped, fired, emitted);
      drops := Drops(drops.skipped + dropped.skipped, drops.late + dropped.late, drops.capped + dropped.capped);
      var ok := Emit(emitted, tx);
      if !ok {
        e := EndsUnsent(c, events, i, view, drops, before, win.View(), before + emitted, tx);
        return drops, false, e;
      }
    }
    ghost var (view, before) := (win.View(), tx.sent);
    var last, fired := win.DrainAll();
    var _ := Emit(last, tx);
    e := EndsFlushed(c, events, view, drops, before, fired, last, tx);
  }

  // ---- The driver's steps, one lemma each ----

  ghost predicate OrderedIfNoIdle(events: seq<Event>, out: seq<Record>) {
    NoIdle(events) ==> OrderedByEnd(out)
  }

  /** After `i` events, none rejected: what is due is what the stream has fired. */
  ghost predicate AllDue(c: Config, events: seq<Event>, i: nat, view: State, drops: Drops, due: seq<Record>)
    requires c.Valid()
  {
    && i <= |events|
    && var t := Feed(c, events[..i]);
    && t.st == view && t.drops == drops && !t.failed && Metered(view) == view
    && InRange(c, t.out) && multiset(due) == FiringRecords(c, t.out) && OrderedIfNoIdle(events, due)
  }

  lemma NothingDue(c: Config, events: seq<Event>)
    requires c.Valid()
    ensures AllDue(c, events, 0, INITIAL, Drops(0, 0, 0), [])
  {
    assert events[..0] == [];
  }

  lemma MeteredView(c: Config, events: seq<Event>, i: nat, view: State, drops: Drops, due: seq<Record>)
    requires c.Valid() && AllDue(c, events, i, view, drops, due)
    ensures Metered(view) == view
  {
  }

  lemma OneMoreTurn(c: Config, events: seq<Event>, i: nat, view: State, drops: Drops, due: seq<Record>,
                    after: State, dropped: Drops, fired: seq<Firing>, emitted: seq<Record>)
    requires c.Valid() && i < |events| && AllDue(c, events, i, view, drops, due)
    requires Step(c, Trace(view, [], Drops(0, 0, 0), false), events[i]) == Trace(after, fired, dropped, false)
    requires Emits(c, fired, emitted)
    ensures var all := Drops(drops.skipped + dropped.skipped, drops.late + dropped.late, drops.capped + dropped.capped);
      AllDue(c, events, i + 1, after, all, due + emitted)
  {
    hide FiringRecords, InRange, OrderedByEnd, Ascends, Step;
    var t := Feed(c, events[..i]);
    assert events[..i + 1][..i] == events[..i];
    StepFrom(c, t, events[i]);
    FiringRecordsConcat(c, t.out, fired);
    if NoIdle(events) {
      FeedAscends(c, events[..i + 1]);
      OrderedConcat(c, t.out, due, fired, emitted);
    }
  }

  lemma EndsRejected(c: Config, events: seq<Event>, i: nat, view: State, drops: Drops, tx: Outlet) returns (e: Ending)
    requires c.Valid() && i < |events| && AllDue(c, events, i, view, drops, tx.sent)
    requires Step(c, Trace(view, [], Drops(0, 0, 0), false), events[i]).failed
    ensures Sent(c, events, tx, e) && SentInFull(c, events, tx, e) && OrderedIfNoIdle(events, e.due)
    ensures drops == Feed(c, events[..e.handled]).drops && Feed(c, events[..e.handled]).failed
  {
    hide FiringRecords, InRange, OrderedByEnd, WindowModel.OnRecord, Fired, ReadyStarts, OrderedIfNoIdle;
    FailsFrom(c, events, i);
    assert events[..|events|] == events && tx.sent[..|tx.sent|] == tx.sent;
    e := Ending(|events|, tx.sent, true);
  }

  lemma EndsUnsent(c: Config, events: seq<Event>, i: nat, view: State, drops: Drops, before: seq<Record>,
                   after: State, due: seq<Record>, tx: Outlet)
    returns (e: Ending)
    requires c.Valid() && i < |events| && AllDue(c, events, i + 1, after, drops, due)
    requires exists d :: AllDue(c, events, i, view, d, before)
    requires |before| <= |tx.sent| < |due| && tx.sent == due[..|tx.sent|] && before == due[..|before|] && tx.Gone()
    ensures Sent(c, events, tx, e) && SentInFull(c, events, tx, e) && OrderedIfNoIdle(events, e.due)
    ensures drops == Feed(c, events[..e.handled]).drops && !Feed(c, events[..e.handled]).failed
  {
    hide FiringRecords, InRange, OrderedIfNoIdle, Feed;
    PrefixKeeps(before, tx.sent, due);
    e := Ending(i + 1, due, false);
  }

  lemma EndsFlushed(c: Config, events: seq<Event>, view: State, drops: Drops, before: seq<Record>,
                    fired: seq<Firing>, last: seq<Record>, tx: Outlet)
    returns (e: Ending)
    requires c.Valid() && AllDue(c, events, |events|, view, drops, before)
    requires fired == Fired(view, view.windows.Keys) && Emits(c, fired, last)
    requires |before| <= |tx.sent| <= |before + last| && tx.sent == (before + last)[..|tx.sent|]
    requires |tx.sent| < |before + last| ==> tx.Gone()
    ensures Sent(c, events, tx, e) && SentInFull(c, events, tx, e) && OrderedIfNoIdle(events, e.due)
    ensures drops == Feed(c, events[..e.handled]).drops && !Feed(c, events[..e.handled]).failed
  {
    hide FiringRecords, InRange, OrderedByEnd, Ascends, Feed, Fired;
    assert events[..|events|] == events;
    var t := Feed(c, events);
    FiringRecordsConcat(c, t.out, fired);
    if NoIdle(events) {
      StreamAscends(c, events);
      OrderedConcat(c, t.out, before, fired, last);
    }
    PrefixKeeps(before, tx.sent, before + last);
    e := Ending(|events|, before + last, true);
  }

  /** A longer prefix keeps what a shorter one has. */
  lemma PrefixKeeps(before: seq<Record>, sent: seq<Record>, due: seq<Record>)
    requires |before| <= |sent| <= |due| && sent == due[..|sent|] && before == due[..|before|]
    ensures multiset(before) <= multiset(sent)
  {
    assert sent == before + sent[|before|..];
  }

  lemma FeedAscends(c: Config, events: seq<Event>)
    requires c.Valid() && NoIdle(events)
    ensures Ascends(Feed(c, events).out)
  {
    FeedSplit(c, events);
  }

  lemma {:induction false} GroupRecordsEnd(c: Config, start: nat, groups: Groups)
    requires start + c.size < U64_LIMIT
    ensures forall x :: x in GroupRecords(c, start, groups) ==> x.ts == start + c.size
    decreases |groups|
  {
    if groups != map[] {
      var key := AnyKey(groups);
      assert groups.Keys == (groups - {key}).Keys + {key};
      GroupRecordsEnd(c, start, groups - {key});
    }
  }

  ghost predicate EndsOne(c: Config, fired: seq<Firing>, x: Record) {
    exists i :: 0 <= i < |fired| && x.ts == fired[i].start + c.size
  }

  lemma {:induction false} FiringRecordsEnd(c: Config, fired: seq<Firing>)
    requires InRange(c, fired)
    ensures forall x :: x in FiringRecords(c, fired) ==> EndsOne(c, fired, x)
  {
    hide GroupRecords;
    if fired != [] {
      var n := |fired| - 1;
      FiringRecordsEnd(c, fired[..n]);
      GroupRecordsEnd(c, fired[n].start, fired[n].groups);
      forall x | EndsOne(c, fired[..n], x) ensures EndsOne(c, fired, x) {
        var i :| 0 <= i < n && x.ts == fired[..n][i].start + c.size;
        assert x.ts == fired[i].start + c.size;
      }
    }
  }

  /** What fires later ends later, so emitting it after keeps the output in order. */
  lemma OrderedConcat(c: Config, a: seq<Firing>, before: seq<Record>, b: seq<Firing>, next: seq<Record>)
    requires Ascends(a + b) && Emits(c, a, before) && Emits(c, b, next)
    ensures OrderedByEnd(before + next)
  {
    hide FiringRecords;
    FiringRecordsEnd(c, a);
    FiringRecordsEnd(c, b);
    forall i, j | 0 <= i < |before| && 0 <= j < |next| ensures before[i].ts <= next[j].ts {
      assert before[i] in multiset(before) && next[j] in multiset(next);
      var x :| 0 <= x < |a| && before[i].ts == a[x].start + c.size;
      var y :| 0 <= y < |b| && next[j].ts == b[y].start + c.size;
      assert (a + b)[x] == a[x] && (a + b)[|a| + y] == b[y];
    }
  }

  /** What a step adds does not depend on what came before. */
  lemma StepFrom(c: Config, t: Trace, e: Event)
    requires c.Valid() && !t.failed && t.st == Metered(t.st)
    ensures var (a, b) := (Step(c, t, e), Step(c, Trace(t.st, [], Drops(0, 0, 0), false), e));
      && a.st == b.st && a.failed == b.failed && Metered(a.st) == a.st
      && (!a.failed ==> a.out == t.out + b.out && a.drops == Drops(
           t.drops.skipped + b.drops.skipped, t.drops.late + b.drops.late, t.drops.capped + b.drops.capped))
  {
    hide Fired, WindowModel.OnRecord, ReadyStarts;
  }

  /** Metering the counters changes neither what is ready nor what fires. */
  lemma SameReady(c: Config, st: State)
    ensures ReadyStarts(c, Metered(st)) == ReadyStarts(c, st)
    ensures Fired(Metered(st), ReadyStarts(c, st)) == Fired(st, ReadyStarts(c, st))
    ensures Without(Metered(st), ReadyStarts(c, st)) == Metered(Without(st, ReadyStarts(c, st)))
  {
  }

  /** A run that has failed stays as it was before the rejected record. */
  lemma {:induction false} FailsFrom(c: Config, events: seq<Event>, i: nat)
    requires c.Valid() && i < |events| && events[i].Arrival? && Rejected(c, events[i].rec)
    requires !Feed(c, events[..i]).failed
    ensures Feed(c, events) == Feed(c, events[..i]).(failed := true)
    decreases |events|
  {
    hide WindowModel.OnRecord, Fired, ReadyStarts;
    var n := |events| - 1;
    if i < n {
      assert events[..n][..i] == events[..i];
      FailsFrom(c, events[..n], i);
    }
  }
}
