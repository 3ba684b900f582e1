/** One worker index and the leases on it, as timed steps. */
module Lease {
  import opened Wrappers

  type Worker = nat

  /** The index's key in the bucket, and when it was last written. */
  datatype Entry = Entry(owner: Worker, stamp: nat)

  /** `renewed` is when each worker whose renewal task runs last wrote the key; `holders` are those of them whose guard
      is still held, the others being about to delete the key. */
  datatype State = State(now: nat, entry: Option<Entry>, renewed: map<Worker, nat>, holders: set<Worker>)

  const INITIAL: State := State(0, None, map[], {})

  datatype Event =
    | Tick
    | Claim(w: Worker)
    | ClaimUnheard(w: Worker)
    | Renew(w: Worker)
    | Drop(w: Worker)
    | Delete(w: Worker)
    | DeleteLost(w: Worker)
    | Crash(w: Worker)

  /** The bucket drops a key `ttl` after its last write. */
  predicate Present(ttl: nat, s: State) {
    s.entry.Some? && s.now < s.entry.value.stamp + ttl
  }

  /** A claim creates the key, so it succeeds only while there is none; renewing and deleting look at nothing. */
  predicate Enabled(ttl: nat, s: State, e: Event) {
    match e
    case Tick => true
    case Claim(w) => !Present(ttl, s) && w !in s.renewed
    case ClaimUnheard(w) => !Present(ttl, s) && w !in s.renewed
    case Renew(w) => w in s.renewed
    case Drop(w) => w in s.holders
    case Delete(w) => w in s.renewed && w !in s.holders
    case DeleteLost(w) => w in s.renewed && w !in s.holders
    case Crash(w) => w in s.renewed
  }

  function Apply(s: State, e: Event): State {
    match e
    case Tick => s.(now := s.now + 1)
    case Claim(w) =>
      s.(entry := Some(Entry(w, s.now)), renewed := s.renewed[w := s.now], holders := s.holders + {w})
    case ClaimUnheard(w) => s.(entry := Some(Entry(w, s.now)))
    case Renew(w) => s.(entry := Some(Entry(w, s.now)), renewed := s.renewed[w := s.now])
    case Drop(w) => s.(holders := s.holders - {w})
    case Delete(w) => s.(entry := None, renewed := s.renewed - {w})
    case DeleteLost(w) => s.(renewed := s.renewed - {w})
    case Crash(w) => s.(renewed := s.renewed - {w}, holders := s.holders - {w})
  }

  function Play(ttl: nat, s: State, es: seq<Event>): Option<State> {
    if es == [] then Some(s)
    else
      var before := Play(ttl, s, es[..|es| - 1]);
      var e := es[|es| - 1];
      if before.Some? && Enabled(ttl, before.value, e) then Some(Apply(before.value, e)) else None
  }

  /** A task whose last write is a full `ttl` old. */
  predicate Lapsed(ttl: nat, s: State, w: Worker)
    requires w in s.renewed
  {
    s.renewed[w] + ttl <= s.now
  }

  /** Every task, including one about to delete the key, has written it less than `ttl` ago. */
  ghost predicate Timely(ttl: nat, s: State) {
    forall w :: w in s.renewed ==> !Lapsed(ttl, s, w)
  }

  /** Timely in every world the run passes through. */
  ghost predicate TimelyRun(ttl: nat, es: seq<Event>) {
    forall i :: 0 <= i <= |es| ==> Play(ttl, INITIAL, es[..i]).Some? && Timely(ttl, Play(ttl, INITIAL, es[..i]).value)
  }

  ghost predicate AtMostOne(s: State) {
    forall v, w :: v in s.renewed && w in s.renewed ==> v == w
  }

  /** One task at most, in every world the run passes through. */
  ghost predicate ExclusiveRun(ttl: nat, es: seq<Event>) {
    forall i :: 0 <= i <= |es| ==> Play(ttl, INITIAL, es[..i]).Some? && AtMostOne(Play(ttl, INITIAL, es[..i]).value)
  }

  // ---- The invariant of runs with one task at a time ----

  /** The key was last written by the one task there is, unless that had lapsed and a claim went unheard since. */
  ghost predicate Sound(ttl: nat, s: State) {
    && s.holders <= s.renewed.Keys
    && (forall w :: w in s.renewed ==> s.renewed[w] <= s.now && s.entry.Some? && Written(ttl, s, w))
    && (s.entry.Some? ==> s.entry.value.stamp <= s.now)
  }

  ghost predicate Written(ttl: nat, s: State, w: Worker)
    requires w in s.renewed && s.entry.Some?
  {
    if s.entry.value.owner == w then s.entry.value.stamp == s.renewed[w] else s.renewed[w] + ttl <= s.entry.value.stamp
  }

  lemma StepKeepsSound(ttl: nat, s: State, e: Event)
    requires Sound(ttl, s) && AtMostOne(s) && Enabled(ttl, s, e) && AtMostOne(Apply(s, e))
    ensures Sound(ttl, Apply(s, e))
  {
  }

  lemma {:induction false} RunSound(ttl: nat, es: seq<Event>)
    requires ExclusiveRun(ttl, es)
    ensures Play(ttl, INITIAL, es).Some? && Sound(ttl, Play(ttl, INITIAL, es).value)
  {
    hide Sound, AtMostOne, Apply, Enabled;
    assert es[..|es|] == es;
    if es == [] {
      NothingYet(ttl);
    } else {
      var n := |es| - 1;
      assert forall i :: 0 <= i <= n ==> es[..n][..i] == es[..i];
      RunSound(ttl, es[..n]);
      StepKeepsSound(ttl, Play(ttl, INITIAL, es[..n]).value, es[n]);
    }
  }

  lemma NothingYet(ttl: nat)
    ensures Sound(ttl, INITIAL) && AtMostOne(INITIAL)
  {
  }

  // ---- Exclusion ----

  lemma StepExclusive(ttl: nat, s: State, e: Event)
    requires Sound(ttl, s) && AtMostOne(s) && Timely(ttl, s) && Enabled(ttl, s, e)
    ensures AtMostOne(Apply(s, e))
  {
  }

  /** If no task ever lets a full `ttl` pass since its last write, there is never more than one; so never two
      holders. */
  lemma {:induction false} TimelyIsExclusive(ttl: nat, es: seq<Event>)
    requires TimelyRun(ttl, es)
    ensures ExclusiveRun(ttl, es) && Play(ttl, INITIAL, es).Some?
    ensures forall v, w :: v in Play(ttl, INITIAL, es).value.holders && w in Play(ttl, INITIAL, es).value.holders ==>
      v == w
  {
    hide Sound, Timely, AtMostOne, Apply, Enabled;
    assert es[..|es|] == es;
    if es == [] {
      NothingYet(ttl);
    } else {
      var n := |es| - 1;
      assert forall i :: 0 <= i <= n ==> es[..n][..i] == es[..i];
      TimelyIsExclusive(ttl, es[..n]);
      RunSound(ttl, es[..n]);
      assert es[..n][..n] == es[..n];
      StepExclusive(ttl, Play(ttl, INITIAL, es[..n]).value, es[n]);
    }
    RunSound(ttl, es);
    OneHolder(ttl, Play(ttl, INITIAL, es).value);
  }

  lemma OneHolder(ttl: nat, s: State)
    requires Sound(ttl, s) && AtMostOne(s)
    ensures forall v, w :: v in s.holders && w in s.holders ==> v == w
  {
  }

  /** Exactly when the one task can be joined by another: once it has lapsed, unless an unheard claim still holds the
      key. */
  lemma OvertakenIff(ttl: nat, es: seq<Event>, v: Worker, w: Worker)
    requires ExclusiveRun(ttl, es) && Play(ttl, INITIAL, es).Some?
    requires var s := Play(ttl, INITIAL, es).value; v in s.renewed && w !in s.renewed
    ensures var s := Play(ttl, INITIAL, es).value;
      && s.entry.Some?
      && (Enabled(ttl, s, Claim(w)) <==> Lapsed(ttl, s, v) && (s.entry.value.owner == v || !Present(ttl, s)))
      && (Enabled(ttl, s, Claim(w)) ==> {v, w} <= Apply(s, Claim(w)).renewed.Keys)
  {
    RunSound(ttl, es);
    assert es[..|es|] == es;
    assert AtMostOne(Play(ttl, INITIAL, es).value);
  }

  // ---- Reclaiming ----

  function Ticks(k: nat): (es: seq<Event>)
    ensures |es| == k
  {
    seq(k, _ => Tick)
  }

  lemma {:induction false} PlayTicks(ttl: nat, s: State, k: nat)
    ensures Play(ttl, s, Ticks(k)) == Some(s.(now := s.now + k))
  {
    if k > 0 {
      assert Ticks(k)[..k - 1] == Ticks(k - 1);
      PlayTicks(ttl, s, k - 1);
    }
  }

  lemma {:induction false} PlayConcat(ttl: nat, s: State, a: seq<Event>, b: seq<Event>)
    requires Play(ttl, s, a).Some?
    ensures Play(ttl, s, a + b) == Play(ttl, Play(ttl, s, a).value, b)
  {
    hide Apply, Enabled;
    if b == [] {
      assert a + b == a;
    } else {
      var n := |b| - 1;
      PlayConcat(ttl, s, a, b[..n]);
      assert (a + b)[..|a + b| - 1] == a + b[..n];
    }
  }

  /** After the only task crashes, and nobody writes, the index can be claimed exactly once `ttl` has passed since the
      task's last write. */
  lemma CrashedIndexFrees(ttl: nat, es: seq<Event>, w: Worker, k: nat, next: Worker)
    requires ExclusiveRun(ttl, es) && Play(ttl, INITIAL, es).Some?
    requires var s := Play(ttl, INITIAL, es).value; w in s.renewed && s.entry.Some? && s.entry.value.owner == w
    ensures var s := Play(ttl, INITIAL, es).value;
      var later := Play(ttl, INITIAL, es + ([Crash(w)] + Ticks(k)));
      && later.Some?
      && later.value.renewed == map[]
      && (Enabled(ttl, later.value, Claim(next)) <==> s.renewed[w] + ttl <= s.now + k)
  {
    RunSound(ttl, es);
    assert es[..|es|] == es;
    var s := Play(ttl, INITIAL, es).value;
    assert AtMostOne(s);
    assert s.renewed.Keys == {w};
    var crashed := Apply(s, Crash(w));
    Single(ttl, s, Crash(w));
    PlayConcat(ttl, s, [Crash(w)], Ticks(k));
    PlayTicks(ttl, crashed, k);
    PlayConcat(ttl, INITIAL, es, [Crash(w)] + Ticks(k));
    assert crashed.renewed.Keys == {};
  }

  lemma Single(ttl: nat, s: State, e: Event)
    requires Enabled(ttl, s, e)
    ensures Play(ttl, s, [e]) == Some(Apply(s, e))
  {
    assert [e][..0] == [];
  }

  lemma Two(ttl: nat, s: State, e: Event, f: Event)
    requires Enabled(ttl, s, e) && Enabled(ttl, Apply(s, e), f)
    ensures Play(ttl, s, [e, f]) == Some(Apply(Apply(s, e), f))
  {
    assert [e, f][..1] == [e];
    Single(ttl, s, e);
  }

  /** Dropping the guard frees the index as soon as the key is deleted, however fresh the lease. */
  lemma ReleasedIndexFrees(ttl: nat, es: seq<Event>, w: Worker, next: Worker)
    requires ExclusiveRun(ttl, es) && Play(ttl, INITIAL, es).Some?
    requires w in Play(ttl, INITIAL, es).value.holders
    ensures var freed := Play(ttl, INITIAL, es + [Drop(w), Delete(w)]);
      freed.Some? && freed.value.renewed == map[] && Enabled(ttl, freed.value, Claim(next))
  {
    RunSound(ttl, es);
    assert es[..|es|] == es;
    var s := Play(ttl, INITIAL, es).value;
    assert AtMostOne(s) && s.renewed.Keys == {w};
    Two(ttl, s, Drop(w), Delete(w));
    PlayConcat(ttl, INITIAL, es, [Drop(w), Delete(w)]);
    assert Apply(Apply(s, Drop(w)), Delete(w)).renewed.Keys == {};
  }

  // ---- Why the assumption is needed, of holders and of tasks about to delete ----

  /** A renewal gap of a full `ttl` lets a second holder in. */
  lemma LateRenewalOvertaken(ttl: nat) returns (es: seq<Event>)
    requires ttl > 0
    ensures Play(ttl, INITIAL, es).Some? && Play(ttl, INITIAL, es).value.holders == {0, 1}
  {
    var s := Apply(INITIAL, Claim(0));
    Single(ttl, INITIAL, Claim(0));
    PlayTicks(ttl, s, ttl);
    PlayConcat(ttl, INITIAL, [Claim(0)], Ticks(ttl));
    var lapsed := s.(now := ttl);
    Single(ttl, lapsed, Claim(1));
    es := [Claim(0)] + Ticks(ttl) + [Claim(1)];
    PlayConcat(ttl, INITIAL, [Claim(0)] + Ticks(ttl), [Claim(1)]);
  }

  /** A delete that comes a full `ttl` late removes its successor's key: a third worker gets in beside a holder that has
      not lapsed. */
  lemma LateDeleteOvertakes(ttl: nat) returns (es: seq<Event>)
    requires ttl > 0
    ensures Play(ttl, INITIAL, es).Some?
    ensures var s := Play(ttl, INITIAL, es).value;
      s.holders == {1, 2} && s.renewed.Keys == {1, 2} && !Lapsed(ttl, s, 1) && !Lapsed(ttl, s, 2)
  {
    var s := Apply(Apply(INITIAL, Claim(0)), Drop(0));
    Two(ttl, INITIAL, Claim(0), Drop(0));
    PlayTicks(ttl, s, ttl);
    PlayConcat(ttl, INITIAL, [Claim(0), Drop(0)], Ticks(ttl));
    var lapsed := s.(now := ttl);
    Two(ttl, lapsed, Claim(1), Delete(0));
    PlayConcat(ttl, INITIAL, [Claim(0), Drop(0)] + Ticks(ttl), [Claim(1), Delete(0)]);
    var deleted := Apply(Apply(lapsed, Claim(1)), Delete(0));
    Single(ttl, deleted, Claim(2));
    es := [Claim(0), Drop(0)] + Ticks(ttl) + [Claim(1), Delete(0)] + [Claim(2)];
    PlayConcat(ttl, INITIAL, [Claim(0), Drop(0)] + Ticks(ttl) + [Claim(1), Delete(0)], [Claim(2)]);
  }

  /** A renewal that comes late takes the key back from the successor, who goes on holding the index as well. */
  lemma LateRenewalOverwrites(ttl: nat) returns (es: seq<Event>)
    requires ttl > 0
    ensures Play(ttl, INITIAL, es).Some?
    ensures var s := Play(ttl, INITIAL, es).value;
      s.holders == {0, 1} && s.entry == Some(Entry(0, s.now)) && s.renewed == map[0 := s.now, 1 := s.now]
  {
    var s := Apply(INITIAL, Claim(0));
    Single(ttl, INITIAL, Claim(0));
    PlayTicks(ttl, s, ttl);
    PlayConcat(ttl, INITIAL, [Claim(0)], Ticks(ttl));
    var lapsed := s.(now := ttl);
    Two(ttl, lapsed, Claim(1), Renew(0));
    es := [Claim(0)] + Ticks(ttl) + [Claim(1), Renew(0)];
    PlayConcat(ttl, INITIAL, [Claim(0)] + Ticks(ttl), [Claim(1), Renew(0)]);
  }
}
