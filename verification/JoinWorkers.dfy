/** A join split over workers by its partitions: what they complete together. */
module JoinWorkers {
  import opened Wrappers
  import opened Records
  import opened Routing
  import opened JoinModel
  import opened JoinCompletes
  import opened WindowsIntoJoin
  import PipelineGraphs

  /** The worker a record is routed to on an edge keyed by `groupBy`. */
  function WorkerOf(pc: PartitionConfig, groupBy: seq<Str>, rec: Record): u32
    requires pc.Validate().Ok?
  {
    KeyedPartition(rec, groupBy, pc.partitions) % pc.workers
  }

  /** Records of one join group are routed to one worker: window outputs have no resource, only labels. */
  lemma OneWorker(pc: PartitionConfig, groupBy: seq<Str>, a: Record, b: Record)
    requires pc.Validate().Ok? && a.resource == b.resource && KeyOf(a) == KeyOf(b)
    ensures WorkerOf(pc, groupBy, a) == WorkerOf(pc, groupBy, b)
  {
    hide KeyOf;
    SameKey(a, b);
    PipelineGraphs.SameFields(a, b, groupBy);
  }

  /** Each worker joins its share of every input, in its own order and interleaving. */
  ghost predicate Shared(pc: PartitionConfig, groupBy: seq<Str>, n: nat, ms: seq<Message>, workers: seq<seq<Message>>) {
    && pc.Validate().Ok? && |workers| == pc.workers && Tagged(n, ms)
    && (forall j :: 0 <= j < |ms| ==> ms[j].rec.resource == map[])
    && forall w :: 0 <= w < |workers| ==> Tagged(n, workers[w]) && ShareOf(pc, groupBy, n, ms, w, workers[w])
  }

  ghost predicate ShareOf(pc: PartitionConfig, groupBy: seq<Str>, n: nat, ms: seq<Message>, w: u32, own: seq<Message>)
    requires pc.Validate().Ok?
  {
    forall i :: 0 <= i < n ==> multiset(InputOf(own, i)) == multiset(Share(pc, groupBy, InputOf(ms, i), w))
  }

  lemma {:induction false} ShareMember(pc: PartitionConfig, groupBy: seq<Str>, rs: seq<Record>, w: u32, r: Record)
    requires pc.Validate().Ok?
    ensures r in Share(pc, groupBy, rs, w) <==> r in rs && WorkerOf(pc, groupBy, r) == w
  {
    hide KeyedPartition;
    if rs != [] {
      var n := |rs| - 1;
      ShareMember(pc, groupBy, rs[..n], w, r);
      assert rs == rs[..n] + [rs[n]];
    }
  }

  /** A worker receives exactly those records of an input that are routed to it. */
  lemma WorkerReceives(pc: PartitionConfig, groupBy: seq<Str>, n: nat, ms: seq<Message>, workers: seq<seq<Message>>,
      w: nat, i: nat, r: Record)
    requires Shared(pc, groupBy, n, ms, workers) && w < |workers| && i < n
    ensures r in InputOf(workers[w], i) <==> r in InputOf(ms, i) && WorkerOf(pc, groupBy, r) == w
  {
    ShareMember(pc, groupBy, InputOf(ms, i), w, r);
    assert ShareOf(pc, groupBy, n, ms, w, workers[w]);
    hide Share, InputOf, WorkerOf;
    assert r in InputOf(workers[w], i) <==> r in multiset(InputOf(workers[w], i));
    assert r in Share(pc, groupBy, InputOf(ms, i), w) <==> r in multiset(Share(pc, groupBy, InputOf(ms, i), w));
  }

  /** What input `i` has sent for the group of `rec`, as a record of the input. */
  lemma SentRecord(ms: seq<Message>, i: nat, rec: Record) returns (r: Record)
    requires Sent(ms, i, KeyOf(rec))
    ensures r in InputOf(ms, i) && KeyOf(r) == KeyOf(rec)
  {
    hide KeyOf;
    var j :| 0 <= j < |ms| && ms[j].input == i && KeyOf(ms[j].rec) == KeyOf(rec);
    r := ms[j].rec;
    InputHolds(ms, j);
  }

  lemma RecordSent(ms: seq<Message>, i: nat, r: Record)
    requires r in InputOf(ms, i)
    ensures Sent(ms, i, KeyOf(r))
  {
    hide KeyOf;
    var j := InputFrom(ms, i, r);
  }

  lemma NoResource(pc: PartitionConfig, groupBy: seq<Str>, n: nat, ms: seq<Message>, workers: seq<seq<Message>>, i: nat,
      r: Record)
    requires Shared(pc, groupBy, n, ms, workers) && r in InputOf(ms, i)
    ensures r.resource == map[]
  {
    var j := InputFrom(ms, i, r);
  }

  lemma WorkerSent(pc: PartitionConfig, groupBy: seq<Str>, n: nat, ms: seq<Message>, workers: seq<seq<Message>>, w: nat,
      i: nat, rec: Record)
    requires Shared(pc, groupBy, n, ms, workers) && w < |workers| && i < n && rec.resource == map[]
    ensures Sent(workers[w], i, KeyOf(rec)) <==> Sent(ms, i, KeyOf(rec)) && WorkerOf(pc, groupBy, rec) == w
  {
    assert pc.Validate().Ok?;
    hide KeyOf, WorkerOf, InputOf, Sent;
    if Sent(workers[w], i, KeyOf(rec)) {
      var r := SentRecord(workers[w], i, rec);
      WorkerReceives(pc, groupBy, n, ms, workers, w, i, r);
      NoResource(pc, groupBy, n, ms, workers, i, r);
      OneWorker(pc, groupBy, r, rec);
      RecordSent(ms, i, r);
    }
    if Sent(ms, i, KeyOf(rec)) {
      var r := SentRecord(ms, i, rec);
      NoResource(pc, groupBy, n, ms, workers, i, r);
      OneWorker(pc, groupBy, r, rec);
      WorkerReceives(pc, groupBy, n, ms, workers, w, i, r);
      if WorkerOf(pc, groupBy, rec) == w { RecordSent(workers[w], i, r); }
    }
  }

  /** All inputs supply a group to a worker exactly when all inputs supply it and the worker owns it. */
  lemma WorkerSupplied(pc: PartitionConfig, groupBy: seq<Str>, n: nat, ms: seq<Message>, workers: seq<seq<Message>>,
      w: nat, rec: Record)
    requires Shared(pc, groupBy, n, ms, workers) && w < |workers| && n > 0 && rec.resource == map[]
    ensures AllSent(n, workers[w], KeyOf(rec)) <==> AllSent(n, ms, KeyOf(rec)) && WorkerOf(pc, groupBy, rec) == w
  {
    hide KeyOf, WorkerOf, Sent, ShareOf;
    forall i | 0 <= i < n
      ensures Sent(workers[w], i, KeyOf(rec)) <==> Sent(ms, i, KeyOf(rec)) && WorkerOf(pc, groupBy, rec) == w
    {
      WorkerSent(pc, groupBy, n, ms, workers, w, i, rec);
    }
    assert AllSent(n, workers[w], KeyOf(rec)) ==> Sent(workers[w], 0, KeyOf(rec));
  }

  /** In whatever order shares arrive: a group is completed by its owner alone, and only if all inputs supply it. */
  lemma OnlyOwnerCompletes(pc: PartitionConfig, groupBy: seq<Str>, n: nat, ms: seq<Message>, workers: seq<seq<Message>>,
      w: nat, rec: Record)
    requires Shared(pc, groupBy, n, ms, workers) && w < |workers| && n >= 2 && rec.resource == map[]
    requires GroupCompletes(n, workers[w], rec)
    ensures WorkerOf(pc, groupBy, rec) == w && AllSent(n, ms, KeyOf(rec))
  {
    hide KeyOf, WorkerOf, GroupCompletes, AllSent, FirstFull, NewestEnd, ShareOf;
    GroupCompletesIff(n, workers[w], rec);
    WorkerSupplied(pc, groupBy, n, ms, workers, w, rec);
  }

  /** Window ends strictly increase on every input, of the whole and of each worker's share. */
  ghost predicate AllStrict(ms: seq<Message>, workers: seq<seq<Message>>) {
    StrictEnds(ms) && forall w :: 0 <= w < |workers| ==> StrictEnds(workers[w])
  }

  /** With one record per window end and input, a worker completes exactly those groups that a single join completes and
      that it owns. */
  lemma WorkerCompletesIff(pc: PartitionConfig, groupBy: seq<Str>, n: nat, ms: seq<Message>, workers: seq<seq<Message>>,
      w: nat, rec: Record)
    requires Shared(pc, groupBy, n, ms, workers) && AllStrict(ms, workers)
    requires w < |workers| && n >= 2 && rec.resource == map[]
    ensures GroupCompletes(n, workers[w], rec) <==> GroupCompletes(n, ms, rec) && WorkerOf(pc, groupBy, rec) == w
  {
    hide KeyOf, WorkerOf, GroupCompletes, AllSent, ShareOf, StrictEnds;
    StrictCompletesIff(n, ms, rec);
    StrictCompletesIff(n, workers[w], rec);
    WorkerSupplied(pc, groupBy, n, ms, workers, w, rec);
  }

  // ---- And they complete them with the same values ----

  predicate SameContent(b: Bucket, c: Bucket) {
    b.start == c.start && b.end == c.end && b.labels == c.labels && b.values == c.values
  }

  /** The record that a completed bucket has its slot `i` from. */
  lemma SlotFrom(n: nat, ms: seq<Message>, x: nat, i: nat) returns (r: Record)
    requires n >= 2 && Tagged(n, ms) && i < n && x < |Feed(n, None, ms).completed|
    ensures var b := Feed(n, None, ms).completed[x];
      && |b.values| == n && b.values[i] == Some(r.value) && IsGroup(b, r) && r in InputOf(ms, i)
  {
    hide KeyOf, Feed, Completes, CompletingSteps;
    CompletedExactly(n, ms);
    StepsComplete(n, ms, |ms|);
    var b, q := Feed(n, None, ms).completed[x], CompletingSteps(n, ms, |ms|)[x];
    assert IsCompletion(n, ms, q, b) && b.values[i].Some?;
    var j := LastValueFrom(ms[..q + 1], i, KeyOf(ms[q].rec));
    r := ms[j].rec;
    SameKey(r, ms[q].rec);
    InputHolds(ms, j);
  }

  lemma OneRecord(ms: seq<Message>, i: nat, a: Record, b: Record)
    requires NoRepeats(ms) && a in InputOf(ms, i) && b in InputOf(ms, i) && KeyOf(a) == KeyOf(b)
    ensures a == b
  {
    hide KeyOf, InputOf;
    var j := InputFrom(ms, i, a);
    var l := InputFrom(ms, i, b);
    assert j == l || j < l || l < j;
  }

  lemma SameSlots(pc: PartitionConfig, groupBy: seq<Str>, n: nat, ms: seq<Message>, workers: seq<seq<Message>>, w: nat,
      x: nat, y: nat)
    requires Shared(pc, groupBy, n, ms, workers) && NoRepeats(ms) && w < |workers| && n >= 2
    requires x < |Feed(n, None, ms).completed| && y < |Feed(n, None, workers[w]).completed|
    requires var (b, c) := (Feed(n, None, ms).completed[x], Feed(n, None, workers[w]).completed[y]);
      b.start == c.start && b.end == c.end && b.labels == c.labels
    ensures SameContent(Feed(n, None, ms).completed[x], Feed(n, None, workers[w]).completed[y])
  {
    hide KeyOf, Feed, InputOf, NoRepeats, ShareOf;
    var b, c := Feed(n, None, ms).completed[x], Feed(n, None, workers[w]).completed[y];
    forall i | 0 <= i < n ensures |b.values| == |c.values| == n && b.values[i] == c.values[i] {
      var r := SlotFrom(n, ms, x, i);
      var q := SlotFrom(n, workers[w], y, i);
      WorkerReceives(pc, groupBy, n, ms, workers, w, i, q);
      SameGroup(b, r, q);
      OneRecord(ms, i, r, q);
    }
    var _ := SlotFrom(n, ms, x, 0);
    var _ := SlotFrom(n, workers[w], y, 0);
  }

  ghost predicate CompletedIn(n: nat, ms: seq<Message>, b: Bucket)
    requires Tagged(n, ms)
  {
    var done := Feed(n, None, ms).completed;
    exists x :: 0 <= x < |done| && SameContent(done[x], b)
  }

  /** The workers of a join complete together exactly what a single join completes, each bucket with the same values;
      as no join completes a group twice, each bucket once. */
  lemma WorkersJoinAlike(pc: PartitionConfig, groupBy: seq<Str>, n: nat, ms: seq<Message>, workers: seq<seq<Message>>,
      b: Bucket)
    requires Shared(pc, groupBy, n, ms, workers) && AllStrict(ms, workers) && n >= 2
    ensures CompletedIn(n, ms, b) <==> exists w :: 0 <= w < |workers| && CompletedIn(n, workers[w], b)
  {
    hide KeyOf, Feed, WorkerOf, StrictEnds, NoRepeats, ShareOf, GroupCompletes, InputOf;
    StrictNeverRepeats(ms);
    if CompletedIn(n, ms, b) {
      var w := OwnerCompletes(pc, groupBy, n, ms, workers, b);
    }
    if w :| 0 <= w < |workers| && CompletedIn(n, workers[w], b) {
      SingleCompletes(pc, groupBy, n, ms, workers, w, b);
    }
  }

  lemma OwnerCompletes(pc: PartitionConfig, groupBy: seq<Str>, n: nat, ms: seq<Message>, workers: seq<seq<Message>>,
      b: Bucket) returns (w: nat)
    requires Shared(pc, groupBy, n, ms, workers) && AllStrict(ms, workers) && NoRepeats(ms) && n >= 2
    requires CompletedIn(n, ms, b)
    ensures w < |workers| && CompletedIn(n, workers[w], b)
  {
    hide KeyOf, Feed, StrictEnds, NoRepeats, ShareOf, InputOf, KeyedPartition;
    var x :| 0 <= x < |Feed(n, None, ms).completed| && SameContent(Feed(n, None, ms).completed[x], b);
    var r := SlotFrom(n, ms, x, 0);
    NoResource(pc, groupBy, n, ms, workers, 0, r);
    w := WorkerOf(pc, groupBy, r);
    assert GroupCompletes(n, ms, r);
    WorkerCompletesIff(pc, groupBy, n, ms, workers, w, r);
    var done := Feed(n, None, workers[w]).completed;
    var y :| 0 <= y < |done| && IsGroup(done[y], r);
    SameSlots(pc, groupBy, n, ms, workers, w, x, y);
    assert SameContent(done[y], b);
  }

  lemma SingleCompletes(pc: PartitionConfig, groupBy: seq<Str>, n: nat, ms: seq<Message>, workers: seq<seq<Message>>,
      w: nat, b: Bucket)
    requires Shared(pc, groupBy, n, ms, workers) && AllStrict(ms, workers) && NoRepeats(ms) && n >= 2
    requires w < |workers| && CompletedIn(n, workers[w], b)
    ensures CompletedIn(n, ms, b)
  {
    hide KeyOf, Feed, StrictEnds, NoRepeats, ShareOf, InputOf, WorkerOf;
    var own := Feed(n, None, workers[w]).completed;
    var y :| 0 <= y < |own| && SameContent(own[y], b);
    var r := SlotFrom(n, workers[w], y, 0);
    WorkerReceives(pc, groupBy, n, ms, workers, w, 0, r);
    NoResource(pc, groupBy, n, ms, workers, 0, r);
    assert GroupCompletes(n, workers[w], r);
    WorkerCompletesIff(pc, groupBy, n, ms, workers, w, r);
    var done := Feed(n, None, ms).completed;
    var x :| 0 <= x < |done| && IsGroup(done[x], r);
    SameSlots(pc, groupBy, n, ms, workers, w, x, y);
    assert SameContent(done[x], b);
  }
}
