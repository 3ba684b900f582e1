/** The join as a state machine over one merged, tagged stream. */
module JoinModel {
  import opened Wrappers
  import opened Numbers
  import opened Records
  import opened Keys

  datatype Bucket = Bucket(start: u64, end: u64, labels: Attrs, values: seq<Option<real>>, filled: nat)

  type Buckets = map<Bytes, Bucket>

  /** A record tagged with the index of the input it came from. */
  datatype Message = Message(input: nat, rec: Record)

  function StartOf(rec: Record): u64 {
    if rec.startTs.Some? then rec.startTs.value else rec.ts
  }

  function KeyOf(rec: Record): Bytes {
    BucketKeyBytes(StartOf(rec), rec.ts, rec.attrs)
  }

  function Least(s: seq<nat>): nat {
    if s == [] then 0
    else if |s| == 1 then s[0]
    else
      var rest := Least(s[1..]);
      if s[0] < rest then s[0] else rest
  }

  /** Open buckets, and the newest window end each input has sent. */
  datatype State = State(buckets: Buckets, maxEnd: seq<nat>)

  /** A run so far. Completed buckets are in order; `evicted` holds what each step evicted. */
  datatype Trace = Trace(st: State, completed: seq<Bucket>, evicted: seq<Buckets>, capped: nat, overwritten: nat)

  function Start(n: nat): Trace {
    Trace(State(map[], seq(n, _ => 0)), [], [], 0, 0)
  }

  function NoValues(n: nat): seq<Option<real>> {
    seq(n, _ => None)
  }

  function NewBucket(n: nat, rec: Record): Bucket {
    Bucket(StartOf(rec), rec.ts, rec.attrs, NoValues(n), 0)
  }

  /** The bucket with input `i`'s value in its slot. */
  function Fill(b: Bucket, i: nat, v: real): Bucket
    requires i < |b.values|
  {
    b.(values := b.values[i := Some(v)], filled := if b.values[i].None? then b.filled + 1 else b.filled)
  }

  /** The bucket a message falls in, with the message's value in it. */
  function Filled(n: nat, buckets: Buckets, m: Message): Bucket
    requires m.input < n && forall k :: k in buckets ==> |buckets[k].values| == n
  {
    Fill(BucketFor(n, buckets, m.rec), m.input, m.rec.value)
  }

  function BucketFor(n: nat, buckets: Buckets, rec: Record): Bucket {
    if KeyOf(rec) in buckets then buckets[KeyOf(rec)] else NewBucket(n, rec)
  }

  function StaleIn(buckets: Buckets, watermark: nat): Buckets {
    map k | k in buckets && buckets[k].end <= watermark :: buckets[k]
  }

  function Refused(cap: Option<nat>, buckets: Buckets, key: Bytes): bool {
    key !in buckets && cap.Some? && |buckets| >= cap.value
  }

  /** Every open bucket has one slot per input. */
  ghost predicate Shaped(n: nat, st: State) {
    |st.maxEnd| == n && forall k :: k in st.buckets ==> |st.buckets[k].values| == n
  }

  /** One message taken into its bucket; eviction not yet done. */
  function Take(n: nat, cap: Option<nat>, t: Trace, m: Message): Trace
    requires Shaped(n, t.st) && m.input < n
  {
    var st := t.st.(maxEnd := t.st.maxEnd[m.input := Later(t.st.maxEnd[m.input], m.rec.ts)]);
    var key := KeyOf(m.rec);
    if Refused(cap, st.buckets, key) then t.(st := st, capped := t.capped + 1)
    else
      var filled := Filled(n, st.buckets, m);
      var was := BucketFor(n, st.buckets, m.rec).values[m.input];
      var overwritten := t.overwritten + (if was.Some? then 1 else 0);
      if filled.filled == n then
        t.(st := st.(buckets := st.buckets - {key}), completed := t.completed + [filled], overwritten := overwritten)
      else
        t.(st := st.(buckets := st.buckets[key := filled]), overwritten := overwritten)
  }

  /** Removing the buckets every input has reached the end of. */
  function Evict(t: Trace): Trace {
    var stale := StaleIn(t.st.buckets, Least(t.st.maxEnd));
    t.(st := t.st.(buckets := t.st.buckets - stale.Keys), evicted := t.evicted + [stale])
  }

  lemma TakeKeepsShape(n: nat, cap: Option<nat>, t: Trace, m: Message)
    requires Shaped(n, t.st) && m.input < n
    ensures Shaped(n, Take(n, cap, t, m).st) && Shaped(n, Evict(Take(n, cap, t, m)).st)
  {
  }

  ghost predicate Tagged(n: nat, ms: seq<Message>) {
    forall j :: 0 <= j < |ms| ==> ms[j].input < n
  }

  ghost function Feed(n: nat, cap: Option<nat>, ms: seq<Message>): (t: Trace)
    requires Tagged(n, ms)
    ensures Shaped(n, t.st)
  {
    if ms == [] then Start(n)
    else
      var t := Feed(n, cap, ms[..|ms| - 1]);
      TakeKeepsShape(n, cap, t, ms[|ms| - 1]);
      Evict(Take(n, cap, t, ms[|ms| - 1]))
  }
}
