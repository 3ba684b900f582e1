/** The join's loop and what it emits. */
module JoinNode {
  import opened Wrappers
  import opened Numbers
  import opened Records
  import opened Keys
  import opened JoinModel
  import JoinTheory
  import opened Outlets
  import opened ExprModel
  import opened ExprPrinter

  /** The node's settings. `store` is the 64-bit pattern a value is carried as in an attribute. */
  datatype Spec<!F> = Spec(
    name: Str,
    inputs: seq<Str>,
    expr: Option<Node>,
    cap: Option<nat>,
    store: real -> u64,
    ar: Arith<F>)

  /** `attrs` extended by one entry per input, id to stored value, from the first input to the last. */
  ghost function Carried(store: real -> u64, attrs: Attrs, inputs: seq<Str>, values: seq<Option<real>>): Attrs
    requires |inputs| == |values| && forall v :: v in values ==> v.Some?
  {
    if inputs == [] then attrs
    else
      var n := |inputs| - 1;
      assert values[n] in values;
      Carried(store, attrs, inputs[..n], values[..n])[inputs[n] := Double(store(values[n].value))]
  }

  ghost predicate Complete(n: nat, b: Bucket) {
    |b.values| == n && forall v :: v in b.values ==> v.Some?
  }

  function Output(name: Str, b: Bucket, value: real, attrs: Attrs): Record {
    Record(b.end, Some(b.start), map[], None, name, value, attrs)
  }

  /** The record a complete bucket becomes, unless its expression has no finite value. */
  ghost function Emitted<F>(spec: Spec<F>, b: Bucket): Option<Record>
    requires Complete(|spec.inputs|, b)
  {
    var carried := Carried(spec.store, b.labels, spec.inputs, b.values);
    match spec.expr
    case None => Some(Output(spec.name, b, 0.0, carried))
    case Some(e) =>
      match Eval(spec.ar, e, Output(spec.name, b, 0.0, carried))
      case Err(_) => None
      case Ok(v) =>
        match spec.ar.finite(v)
        case None => None
        case Some(x) => Some(Output(spec.name, b, x, b.labels))
  }

  ghost predicate AllComplete(n: nat, bs: seq<Bucket>) {
    forall b :: b in bs ==> Complete(n, b)
  }

  ghost function EmittedAll<F>(spec: Spec<F>, bs: seq<Bucket>): seq<Record>
    requires AllComplete(|spec.inputs|, bs)
  {
    if bs == [] then []
    else
      var last := bs[|bs| - 1];
      assert last in bs;
      EmittedAll(spec, bs[..|bs| - 1]) + (if Emitted(spec, last).Some? then [Emitted(spec, last).value] else [])
  }

  ghost function Evictions(evicted: seq<Buckets>): nat {
    if evicted == [] then 0 else Evictions(evicted[..|evicted| - 1]) + |evicted[|evicted| - 1]|
  }

  // ---- The node ----

  method CarryInputs(store: real -> u64, attrs: Attrs, inputs: seq<Str>, values: seq<Option<real>>) returns (r: Attrs)
    requires |inputs| == |values| && forall v :: v in values ==> v.Some?
    ensures r == Carried(store, attrs, inputs, values)
  {
    r := attrs;
    var i := 0;
    while i < |inputs|
      invariant 0 <= i <= |inputs|
      invariant r == Carried(store, attrs, inputs[..i], values[..i])
    {
      assert inputs[..i + 1][..i] == inputs[..i] && values[..i + 1][..i] == values[..i];
      assert values[i] in values;
      r := r[inputs[i] := Double(store(values[i].value))];
      i := i + 1;
    }
    assert inputs[..i] == inputs && values[..i] == values;
  }

  method Emit<F>(spec: Spec<F>, b: Bucket) returns (r: Option<Record>)
    requires Complete(|spec.inputs|, b)
    ensures r == Emitted(spec, b)
  {
    match spec.expr {
      case Some(e) =>
        var probe := CarryInputs(spec.store, b.labels, spec.inputs, b.values);
        var v := Eval(spec.ar, e, Output(spec.name, b, 0.0, probe));
        if v.Err? || spec.ar.finite(v.value).None? {
          return None;
        }
        r := Some(Output(spec.name, b, spec.ar.finite(v.value).value, b.labels));
      case None =>
        var attrs := CarryInputs(spec.store, b.labels, spec.inputs, b.values);
        r := Some(Output(spec.name, b, 0.0, attrs));
    }
  }

  method Watermark(maxEnd: array<nat>) returns (w: nat)
    ensures w == Least(maxEnd[..])
  {
    if maxEnd.Length == 0 {
      return 0;
    }
    w := maxEnd[0];
    var i := 1;
    while i < maxEnd.Length
      invariant 1 <= i <= maxEnd.Length
      invariant forall j :: 0 <= j < i ==> w <= maxEnd[j]
      invariant exists j :: 0 <= j < i && w == maxEnd[j]
    {
      if maxEnd[i] < w {
        w := maxEnd[i];
      }
      i := i + 1;
    }
    JoinTheory.LeastBound(maxEnd[..]);
  }

  method EvictStale(buckets: Buckets, watermark: nat) returns (r: Buckets, incomplete: nat)
    ensures r == buckets - StaleIn(buckets, watermark).Keys
    ensures incomplete == |StaleIn(buckets, watermark)|
  {
    var stale := set k | k in buckets && buckets[k].end <= watermark;
    assert stale == StaleIn(buckets, watermark).Keys;
    assert |StaleIn(buckets, watermark)| == |stale|;
    r, incomplete := buckets, 0;
    ghost var all := stale;
    while stale != {}
      invariant stale <= all
      invariant r == buckets - (all - stale)
      invariant incomplete + |stale| == |all|
      decreases |stale|
    {
      var k :| k in stale;
      r := r - {k};
      stale := stale - {k};
      incomplete := incomplete + 1;
    }
    assert all - stale == all;
  }

  lemma EvictionsSnoc(evicted: seq<Buckets>, last: Buckets)
    ensures Evictions(evicted + [last]) == Evictions(evicted) + |last|
  {
    assert (evicted + [last])[..|evicted|] == evicted;
  }

  lemma EmittedSnoc<F>(spec: Spec<F>, bs: seq<Bucket>, b: Bucket)
    requires AllComplete(|spec.inputs|, bs) && Complete(|spec.inputs|, b)
    ensures AllComplete(|spec.inputs|, bs + [b])
    ensures EmittedAll(spec, bs + [b])
         == EmittedAll(spec, bs) + (if Emitted(spec, b).Some? then [Emitted(spec, b).value] else [])
  {
    hide Emitted;
    assert (bs + [b])[..|bs|] == bs;
  }

  lemma FullIsComplete(n: nat, k: Bytes, b: Bucket)
    requires JoinTheory.Counted(n, k, b) && b.filled == n
    ensures Complete(n, b)
  {
    JoinTheory.CountBound(b.values);
  }

  /** One message folded into the buckets: what the loop does before it evicts. */
  method FoldMessage<F>(spec: Spec<F>, m: Message, buckets: Buckets, maxEnd: array<nat>, ghost t: Trace)
    returns (after: Buckets, emitted: Option<Bucket>, refused: bool)
    requires Shaped(|spec.inputs|, t.st) && m.input < |spec.inputs| && JoinTheory.Fillable(|spec.inputs|, buckets)
    requires buckets == t.st.buckets && maxEnd[..] == t.st.maxEnd
    modifies maxEnd
    ensures var u := Take(|spec.inputs|, spec.cap, t, m);
      && after == u.st.buckets && maxEnd[..] == u.st.maxEnd
      && u.capped == t.capped + (if refused then 1 else 0)
      && u.completed == t.completed + (if emitted.Some? then [emitted.value] else [])
    ensures emitted.Some? ==> Complete(|spec.inputs|, emitted.value)
  {
    hide Least, JoinTheory.Counted;
    var n := |spec.inputs|;
    JoinTheory.FilledCounted(n, buckets, m);
    var start, end := StartOf(m.rec), m.rec.ts;
    assert maxEnd[..][m.input] == maxEnd[m.input];
    if maxEnd[m.input] < end {
      maxEnd[m.input] := end;
    }
    assert maxEnd[..] == t.st.maxEnd[m.input := Later(t.st.maxEnd[m.input], end)];
    after, emitted, refused := buckets, None, false;
    var key := BucketKey(start, end, m.rec.attrs);
    if key !in buckets && spec.cap.Some? && |buckets| >= spec.cap.value {
      refused := true;
    } else {
      var bucket := if key in buckets then buckets[key] else Bucket(start, end, m.rec.attrs, NoValues(n), 0);
      if bucket.values[m.input].None? {
        bucket := bucket.(filled := bucket.filled + 1);
      }
      bucket := bucket.(values := bucket.values[m.input := Some(m.rec.value)]);
      assert bucket == Filled(n, buckets, m);
      if bucket.filled == n {
        FullIsComplete(n, key, bucket);
        emitted := Some(bucket);
        after := buckets - {key};
      } else {
        after := buckets[key := bucket];
      }
    }
  }

  lemma StepFacts(n: nat, cap: Option<nat>, ms: seq<Message>, i: nat)
    requires Tagged(n, ms) && i < |ms|
    ensures Tagged(n, ms[..i]) && Tagged(n, ms[..i + 1])
    ensures var t := Feed(n, cap, ms[..i]);
      && JoinTheory.Fillable(n, t.st.buckets)
      && Shaped(n, t.st)
      && Feed(n, cap, ms[..i + 1]) == Evict(Take(n, cap, t, ms[i]))
  {
    hide Take, Evict, KeyOf, Least;
    assert ms[..i + 1][..i] == ms[..i];
    JoinTheory.LoopInvariant(n, cap, ms[..i]);
  }

  lemma EvictFacts(t: Trace)
    ensures var (u, stale) := (Evict(t), StaleIn(t.st.buckets, Least(t.st.maxEnd)));
      && u.st.buckets == t.st.buckets - stale.Keys && u.st.maxEnd == t.st.maxEnd
      && u.completed == t.completed && u.capped == t.capped && u.evicted == t.evicted + [stale]
  {
  }

  /** The next message completes a bucket that becomes a record. */
  ghost predicate EmitsNext<F>(spec: Spec<F>, t: Trace, m: Message)
    requires Shaped(|spec.inputs|, t.st) && m.input < |spec.inputs|
  {
    var done := Take(|spec.inputs|, spec.cap, t, m).completed;
    exists b :: done == t.completed + [b] && Complete(|spec.inputs|, b) && Emitted(spec, b).Some?
  }

  /** The node on a whole merged stream: it emits the completed buckets in order, and counts as invalid those whose
      expression has no finite value, as capped what it refused and as incomplete what it evicted. It stops early
      only at a record it cannot send. */
  method Run<F>(spec: Spec<F>, ms: seq<Message>, tx: Outlet)
    returns (invalid: nat, capped: nat, incomplete: nat, ghost handled: nat)
    requires Tagged(|spec.inputs|, ms) && tx.sent == []
    modifies tx
    ensures handled <= |ms| && Tagged(|spec.inputs|, ms[..handled])
    ensures var t := Feed(|spec.inputs|, spec.cap, ms[..handled]);
      && AllComplete(|spec.inputs|, t.completed)
      && tx.sent == EmittedAll(spec, t.completed)
      && invalid == |t.completed| - |tx.sent|
      && capped == t.capped
      && incomplete == Evictions(t.evicted)
      && (handled < |ms| ==> tx.Gone() && EmitsNext(spec, t, ms[handled]))
      && (spec.expr.None? ==> AllAligned(spec, t.completed, tx.sent))
  {
    hide Take, Evict, KeyOf, Least, Emitted, EmittedAll, Evictions, StaleIn, JoinTheory.Fillable, Feed, AllAligned;
    var n := |spec.inputs|;
    var buckets: Buckets := map[];
    var maxEnd := new nat[n](_ => 0);
    invalid, capped, incomplete := 0, 0, 0;
    ghost var t := Start(n);
    NothingYet(spec);
    assert maxEnd[..] == t.st.maxEnd;
    assert ms[..0] == [];
    var i := 0;
    while i < |ms|
      invariant 0 <= i <= |ms| && maxEnd.Length == n
      invariant Tagged(n, ms[..i]) && t == Feed(n, spec.cap, ms[..i])
      invariant buckets == t.st.buckets && maxEnd[..] == t.st.maxEnd
      invariant AllComplete(n, t.completed) && tx.sent == EmittedAll(spec, t.completed)
      invariant invalid + |tx.sent| == |t.completed|
      invariant capped == t.capped && incomplete == Evictions(t.evicted)
    {
      StepFacts(n, spec.cap, ms, i);
      var after, emitted, refused := FoldMessage(spec, ms[i], buckets, maxEnd, t);
      ghost var u := Take(n, spec.cap, t, ms[i]);
      TakeLeavesEvicted(n, spec.cap, t, ms[i]);
      if refused {
        capped := capped + 1;
      }
      if emitted.Some? {
        EmittedSnoc(spec, t.completed, emitted.value);
        var record := Emit(spec, emitted.value);
        if record.Some? {
          var ok := tx.Send(record.value);
          if !ok {
            NotRefused(spec, t, ms[i]);
            if spec.expr.None? { AlignOnlyAll(spec, t.completed); }
            return invalid, capped, incomplete, i;
          }
        } else {
          invalid := invalid + 1;
        }
      }
      var watermark := Watermark(maxEnd);
      var gone;
      buckets, gone := EvictStale(after, watermark);
      incomplete := incomplete + gone;
      assert t.completed + [] == t.completed;
      EvictFacts(u);
      EvictionsSnoc(u.evicted, StaleIn(u.st.buckets, Least(u.st.maxEnd)));
      t := Evict(u);
      i := i + 1;
    }
    assert ms[..|ms|] == ms;
    if spec.expr.None? { AlignOnlyAll(spec, t.completed); }
    handled := |ms|;
  }

  /** A message that completes a bucket was not refused. */
  lemma NotRefused<F>(spec: Spec<F>, t: Trace, m: Message)
    requires Shaped(|spec.inputs|, t.st) && m.input < |spec.inputs|
    requires |Take(|spec.inputs|, spec.cap, t, m).completed| > |t.completed|
    ensures Take(|spec.inputs|, spec.cap, t, m).capped == t.capped
  {
    hide Filled, KeyOf;
  }

  lemma NothingYet<F>(spec: Spec<F>)
    ensures Feed(|spec.inputs|, spec.cap, []) == Start(|spec.inputs|)
    ensures AllComplete(|spec.inputs|, []) && EmittedAll(spec, []) == [] && Evictions([]) == 0
  {
  }

  lemma TakeLeavesEvicted(n: nat, cap: Option<nat>, t: Trace, m: Message)
    requires Shaped(n, t.st) && m.input < n
    ensures Take(n, cap, t, m).evicted == t.evicted
  {
    hide KeyOf, Filled;
  }

  // ---- What is emitted ----

  /** Without an expression the record of a bucket has the bucket's bounds and the value zero, and carries the labels
      and every input's value. */
  ghost predicate IsAligned<F>(spec: Spec<F>, b: Bucket, r: Record)
    requires Complete(|spec.inputs|, b)
  {
    && r.ts == b.end && r.startTs == Some(b.start) && r.resource == map[] && r.scope == None
    && r.name == spec.name && r.value == 0.0
    && Carries(spec.store, b.labels, spec.inputs, b.values, r.attrs)
  }

  lemma AlignOnly<F>(spec: Spec<F>, b: Bucket)
    requires Complete(|spec.inputs|, b) && spec.expr.None?
    ensures Emitted(spec, b).Some? && IsAligned(spec, b, Emitted(spec, b).value)
  {
    CarriedAt(spec.store, b.labels, spec.inputs, b.values);
    hide Carries, Carried;
  }

  ghost predicate AllAligned<F>(spec: Spec<F>, bs: seq<Bucket>, rs: seq<Record>)
    requires AllComplete(|spec.inputs|, bs)
  {
    |rs| == |bs| && forall i :: 0 <= i < |bs| ==> bs[i] in bs && IsAligned(spec, bs[i], rs[i])
  }

  /** So every completed bucket becomes such a record, in order. */
  lemma {:induction false} AlignOnlyAll<F>(spec: Spec<F>, bs: seq<Bucket>)
    requires AllComplete(|spec.inputs|, bs) && spec.expr.None?
    ensures AllAligned(spec, bs, EmittedAll(spec, bs))
  {
    hide Emitted, IsAligned, Complete;
    if bs != [] {
      var n := |bs| - 1;
      assert bs[n] in bs && bs == bs[..n] + [bs[n]];
      AlignOnlyAll(spec, bs[..n]);
      AlignOnly(spec, bs[n]);
    }
  }

  /** Slot `i` is the last one under its id. */
  ghost predicate LastOfId(ids: seq<Str>, i: nat)
    requires i < |ids|
  {
    ids[i] !in ids[i + 1..]
  }

  /** `c` holds each input's value under the input's id, and is otherwise `attrs`. */
  ghost predicate Carries(store: real -> u64, attrs: Attrs, inputs: seq<Str>, values: seq<Option<real>>, c: Attrs)
    requires |inputs| == |values| && forall v :: v in values ==> v.Some?
  {
    && (forall k :: k in c <==> k in attrs || k in inputs)
    && (forall i :: 0 <= i < |inputs| && LastOfId(inputs, i) ==>
          inputs[i] in c && values[i] in values && c[inputs[i]] == Double(store(values[i].value)))
    && (forall k :: k in attrs && k !in inputs ==> k in c && c[k] == attrs[k])
  }

  lemma {:induction false} CarriedAt(store: real -> u64, attrs: Attrs, inputs: seq<Str>, values: seq<Option<real>>)
    requires |inputs| == |values| && forall v :: v in values ==> v.Some?
    ensures Carries(store, attrs, inputs, values, Carried(store, attrs, inputs, values))
  {
    hide LastOfId, Carries;
    if inputs == [] {
      NothingCarried(store, attrs);
      assert values == [];
    } else {
      var n := |inputs| - 1;
      CarriedAt(store, attrs, inputs[..n], values[..n]);
      var was := Carried(store, attrs, inputs[..n], values[..n]);
      assert inputs == inputs[..n] + [inputs[n]] && values == values[..n] + [values[n]] && values[n] in values;
      CarriesOne(store, attrs, inputs[..n], values[..n], was, inputs[n], values[n]);
    }
  }

  lemma NothingCarried(store: real -> u64, attrs: Attrs)
    ensures Carries(store, attrs, [], [], attrs)
  {
  }

  lemma CarriesOne(store: real -> u64, attrs: Attrs, inputs: seq<Str>, values: seq<Option<real>>, c: Attrs, id: Str,
      v: Option<real>)
    requires |inputs| == |values| && v.Some? && forall x :: x in values ==> x.Some?
    requires Carries(store, attrs, inputs, values, c)
    ensures Carries(store, attrs, inputs + [id], values + [v], c[id := Double(store(v.value))])
  {
    hide LastOfId;
    forall i | 0 <= i <= |inputs| && LastOfId(inputs + [id], i)
      ensures i < |inputs| ==> LastOfId(inputs, i) && inputs[i] != id
    {
      if i < |inputs| { LastOfIdSnoc(inputs, id, i); }
    }
  }

  lemma LastOfIdSnoc(ids: seq<Str>, id: Str, i: nat)
    requires i < |ids|
    ensures LastOfId(ids + [id], i) <==> LastOfId(ids, i) && ids[i] != id
  {
    assert (ids + [id])[i + 1..] == ids[i + 1..] + [id];
  }

  /** The last slot under an id. */
  ghost function LastSlot(inputs: seq<Str>, id: Str): (i: nat)
    requires id in inputs
    ensures i < |inputs| && inputs[i] == id && LastOfId(inputs, i)
  {
    var n := |inputs| - 1;
    if inputs[n] == id then n
    else
      assert inputs == inputs[..n] + [inputs[n]];
      var i := LastSlot(inputs[..n], id);
      LastOfIdSnoc(inputs[..n], inputs[n], i);
      i
  }

  /** What a name stands for in the join's expression: an input's value, failing that a numeric label. The reserved name
      is the value of a record that has none yet. */
  ghost function ReadId(inputs: seq<Str>, b: Bucket, id: Str): Result<real, Fault>
    requires Complete(|inputs|, b)
  {
    if id == VALUE then Ok(0.0)
    else if id in inputs then
      var v := b.values[LastSlot(inputs, id)];
      assert v in b.values;
      Ok(v.value)
    else if id !in b.labels then Err(Missing)
    else if AsNumber(b.labels[id]).None? then Err(Invalid)
    else Ok(AsNumber(b.labels[id]).value)
  }

  ghost function ReadName(inputs: seq<Str>, b: Bucket, name: string): Result<real, Fault>
    requires Complete(|inputs|, b)
  {
    if |name| >= 0x8000_0000_0000_0000 then Err(Missing) else ReadId(inputs, b, NameBytes(name))
  }

  /** The expression's value, or the first fault met from the left. */
  ghost function Computed<F>(ar: Arith<F>, inputs: seq<Str>, b: Bucket, e: Node): Result<F, Fault>
    requires Complete(|inputs|, b)
  {
    match e
    case Num(n) => Ok(ar.of(n))
    case Value => Ok(ar.of(0.0))
    case Field(name) =>
      var v :- ReadName(inputs, b, name);
      Ok(ar.of(v))
    case Neg(x) =>
      var v :- Computed(ar, inputs, b, x);
      Ok(ar.neg(v))
    case Bin(op, l, r) =>
      var v :- Computed(ar, inputs, b, l);
      var w :- Computed(ar, inputs, b, r);
      Ok(ar.bin(op, v, w))
  }

  /** Every value survives being carried as an attribute. */
  ghost predicate StoresExactly(store: real -> u64, values: seq<Option<real>>) {
    forall i :: 0 <= i < |values| && values[i].Some? ==> DoubleValue(store(values[i].value)) == values[i].value
  }

  ghost function Probe<F>(spec: Spec<F>, b: Bucket): Record
    requires Complete(|spec.inputs|, b)
  {
    Output(spec.name, b, 0.0, Carried(spec.store, b.labels, spec.inputs, b.values))
  }

  lemma ProbeReads<F>(spec: Spec<F>, b: Bucket, id: Str)
    requires Complete(|spec.inputs|, b) && StoresExactly(spec.store, b.values)
    ensures Numeric(Probe(spec, b), Some(id)) == ReadId(spec.inputs, b, id)
  {
    hide DoubleValue, Carried, LastOfId;
    CarriedAt(spec.store, b.labels, spec.inputs, b.values);
  }

  lemma {:induction false} EvalIsComputed<F>(spec: Spec<F>, b: Bucket, e: Node)
    requires Complete(|spec.inputs|, b) && StoresExactly(spec.store, b.values)
    ensures Eval(spec.ar, e, Probe(spec, b)) == Computed(spec.ar, spec.inputs, b, e)
  {
    hide DoubleValue, Carried, NameBytes, Numeric, ReadId, StoresExactly, Complete;
    match e
    case Num(_) =>
    case Value =>
    case Field(name) =>
      if |name| < 0x8000_0000_0000_0000 { ProbeReads(spec, b, NameBytes(name)); }
    case Neg(x) =>
      EvalIsComputed(spec, b, x);
    case Bin(_, l, r) =>
      EvalIsComputed(spec, b, l);
      EvalIsComputed(spec, b, r);
  }

  /** With an expression the join emits a record exactly when the expression has a finite value over the inputs and the
      numeric labels; the record carries that value and keeps the group's labels and window, so it falls in the same
      group of a later join. */
  lemma ReducesInputs<F>(spec: Spec<F>, b: Bucket)
    requires Complete(|spec.inputs|, b) && StoresExactly(spec.store, b.values) && spec.expr.Some?
    ensures var value := Computed(spec.ar, spec.inputs, b, spec.expr.value);
      if value.Err? || spec.ar.finite(value.value).None? then Emitted(spec, b).None?
      else
        && Emitted(spec, b).Some? && Some(Emitted(spec, b).value.value) == spec.ar.finite(value.value)
        && Emitted(spec, b).value.name == spec.name && Emitted(spec, b).value.attrs == b.labels
        && Emitted(spec, b).value.resource == map[] && Emitted(spec, b).value.scope == None
        && KeyOf(Emitted(spec, b).value) == BucketKeyBytes(b.start, b.end, b.labels)
  {
    hide BucketKeyBytes;
    EvalIsComputed(spec, b, spec.expr.value);
  }

  lemma {:induction false} SameReads<F>(ar: Arith<F>, inputs: seq<Str>, b: Bucket, c: Bucket, e: Node)
    requires Complete(|inputs|, b) && Complete(|inputs|, c)
    requires forall name :: Mentions(e, name) ==> ReadName(inputs, b, name) == ReadName(inputs, c, name)
    ensures Computed(ar, inputs, b, e) == Computed(ar, inputs, c, e)
  {
    hide ReadName, Complete;
    match e
    case Field(name) => assert Mentions(e, name);
    case Neg(x) =>
      assert forall name :: Mentions(x, name) ==> Mentions(e, name);
      SameReads(ar, inputs, b, c, x);
    case Bin(_, l, r) =>
      assert forall name :: Mentions(l, name) || Mentions(r, name) ==> Mentions(e, name);
      SameReads(ar, inputs, b, c, l);
      SameReads(ar, inputs, b, c, r);
    case _ =>
  }

  /** An expression that names inputs only is a function of their values alone, whatever the labels. */
  lemma LabelsDoNotMatter<F>(ar: Arith<F>, inputs: seq<Str>, b: Bucket, c: Bucket, e: Node)
    requires Complete(|inputs|, b) && Complete(|inputs|, c) && b.values == c.values
    requires forall name :: Mentions(e, name) ==> |name| < 0x8000_0000_0000_0000 && NameBytes(name) in inputs
    ensures Computed(ar, inputs, b, e) == Computed(ar, inputs, c, e)
  {
    hide NameBytes;
    SameReads(ar, inputs, b, c, e);
  }

  /** An operator between two inputs combines their values, the left one first. */
  lemma Combines<F>(ar: Arith<F>, inputs: seq<Str>, b: Bucket, op: Op, x: string, i: nat, y: string, j: nat)
    requires Complete(|inputs|, b) && i < |inputs| && j < |inputs| && LastOfId(inputs, i) && LastOfId(inputs, j)
    requires Spells(x, inputs[i]) && Spells(y, inputs[j]) && inputs[i] != VALUE && inputs[j] != VALUE
    ensures b.values[i] in b.values && b.values[j] in b.values
    ensures Computed(ar, inputs, b, Bin(op, Field(x), Field(y)))
         == Ok(ar.bin(op, ar.of(b.values[i].value), ar.of(b.values[j].value)))
    ensures Computed(ar, inputs, b, Neg(Field(x))) == Ok(ar.neg(ar.of(b.values[i].value)))
  {
    hide NameBytes;
    LastSlotIs(inputs, i);
    LastSlotIs(inputs, j);
  }

  // ---- Which inputs an expression can read ----

  /** The id is what some identifier is looked up by, other than the one that stands for the value. */
  ghost predicate Nameable(id: Str) {
    exists name :: IsName(name) && name != "value" && Spells(name, id)
  }

  predicate Spells(name: string, id: Str) {
    |name| < 0x8000_0000_0000_0000 && NameBytes(name) == id
  }

  /** An accepted text that reads the input in slot `i`, when that is the last under its id and the id is an
      identifier: for every bucket its value is the input's. */
  lemma NameableIsRead<F>(ar: Arith<F>, inputs: seq<Str>, i: nat) returns (text: string, e: Node)
    requires i < |inputs| && LastOfId(inputs, i) && Nameable(inputs[i])
    ensures Parsed(text) == Ok(e)
    ensures forall b :: Complete(|inputs|, b) ==>
      (b.values[i] in b.values && Computed(ar, inputs, b, e) == Ok(ar.of(b.values[i].value)))
  {
    hide Parsed, NameBytes, IsName;
    var name :| IsName(name) && name != "value" && Spells(name, inputs[i]);
    ReadableIff(name);
    text :| Parsed(text) == Ok(Field(name));
    e := Field(name);
    ReservedIsNotNameable();
    forall b | Complete(|inputs|, b)
      ensures b.values[i] in b.values && Computed(ar, inputs, b, e) == Ok(ar.of(b.values[i].value))
    {
      LastSlotIs(inputs, i);
    }
  }

  lemma LastSlotIs(inputs: seq<Str>, i: nat)
    requires i < |inputs| && LastOfId(inputs, i)
    ensures LastSlot(inputs, inputs[i]) == i
  {
    hide LastSlot;
    LaterIds(inputs, i);
    LaterIds(inputs, LastSlot(inputs, inputs[i]));
  }

  lemma LaterIds(ids: seq<Str>, i: nat)
    requires i < |ids|
    ensures forall j :: i < j < |ids| ==> ids[j] in ids[i + 1..]
  {
    assert forall j :: i < j < |ids| ==> ids[j] == ids[i + 1..][j - i - 1];
  }

  /** Otherwise no accepted text reads it: whatever the expression, the input's value makes no difference to what the
      join emits. */
  lemma UnnameableIsIgnored<F>(spec: Spec<F>, b: Bucket, c: Bucket, i: nat, text: string)
    requires Complete(|spec.inputs|, b) && Complete(|spec.inputs|, c) && i < |spec.inputs|
    requires StoresExactly(spec.store, b.values) && StoresExactly(spec.store, c.values)
    requires c.labels == b.labels && c.values == b.values[i := c.values[i]]
    requires !Nameable(spec.inputs[i]) && Parsed(text).Ok?
    ensures Computed(spec.ar, spec.inputs, b, Parsed(text).value)
      == Computed(spec.ar, spec.inputs, c, Parsed(text).value)
    ensures (spec.expr == Some(Parsed(text).value) && b.start == c.start && b.end == c.end) ==>
      Emitted(spec, b) == Emitted(spec, c)
  {
    hide Parsed, NameBytes, IsName, Written, Printable;
    var e := Parsed(text).value;
    AcceptedTextReprints(text);
    forall name | Mentions(e, name) ensures ReadName(spec.inputs, b, name) == ReadName(spec.inputs, c, name) {
      MentionedIsName(e, name);
      assert |name| < 0x8000_0000_0000_0000 ==> NameBytes(name) != spec.inputs[i];
    }
    SameReads(spec.ar, spec.inputs, b, c, e);
    EvalIsComputed(spec, b, e);
    EvalIsComputed(spec, c, e);
  }

  lemma {:induction false} IdentCharacters(s: string)
    requires IdentLength(s) == |s|
    ensures forall i :: 0 <= i < |s| ==> s[i] as nat < 128
  {
    if s != "" { IdentCharacters(s[1..]); }
  }

  lemma SpellingIsUnique(name: string, other: string)
    requires IsName(name) && |name| < 0x8000_0000_0000_0000 && |other| < 0x8000_0000_0000_0000
    requires (forall i :: 0 <= i < |other| ==> other[i] as nat < 128) && NameBytes(name) == NameBytes(other)
    ensures name == other
  {
    IdentCharacters(name);
    forall i | 0 <= i < |name| ensures name[i] == other[i] {
      assert NameBytes(name)[i] == NameBytes(other)[i];
    }
  }

  /** An ASCII id is nameable exactly when it is an identifier and not the reserved name. */
  lemma NameableIff(id: string)
    requires |id| < 0x8000_0000_0000_0000 && forall i :: 0 <= i < |id| ==> id[i] as nat < 128
    ensures Nameable(NameBytes(id)) <==> IsName(id) && id != "value"
  {
    hide NameBytes, IsName;
    if name :| IsName(name) && name != "value" && Spells(name, NameBytes(id)) {
      SpellingIsUnique(name, id);
    }
    assert IsName(id) && id != "value" ==> Spells(id, NameBytes(id));
  }

  /** Two ids a node may have and no expression can read. */
  lemma UnreadableIds()
    ensures !Nameable(VALUE) && !Nameable(NameBytes("cpu-a"))
  {
    ReservedIsNotNameable();
    NameableIff("cpu-a");
    DashedIsNoName();
  }

  lemma ReservedIsNotNameable()
    ensures !Nameable(VALUE)
  {
    NameableIff("value");
    assert NameBytes("value") == VALUE;
  }

  /** With one input a message completes its own bucket. */
  lemma SingleStep(cap: Option<nat>, t: Trace, m: Message)
    requires Shaped(1, t.st) && m.input == 0 && t.st.buckets == map[] && (cap.Some? ==> cap.value >= 1)
    ensures var u := Evict(Take(1, cap, t, m));
      && u.st.buckets == map[] && u.capped == t.capped && u.overwritten == t.overwritten
      && u.completed == t.completed + [Bucket(StartOf(m.rec), m.rec.ts, m.rec.attrs, [Some(m.rec.value)], 1)]
      && u.evicted == t.evicted + [map[]]
  {
    hide KeyOf, Least;
    assert Filled(1, map[], m).values == [Some(m.rec.value)];
    var u := Take(1, cap, t, m);
    assert u.st.buckets == map[];
    assert StaleIn(map[], Least(u.st.maxEnd)) == map[];
  }

  /** With a single input every record completes its own bucket at once, so nothing is ever held or evicted. */
  lemma {:induction false} SingleInputPasses(cap: Option<nat>, ms: seq<Message>)
    requires Tagged(1, ms) && (cap.Some? ==> cap.value >= 1)
    ensures var t := Feed(1, cap, ms);
      && t.st.buckets == map[] && t.capped == 0 && t.overwritten == 0 && Evictions(t.evicted) == 0
      && |t.completed| == |ms|
      && forall j :: 0 <= j < |ms| ==>
           t.completed[j] == Bucket(StartOf(ms[j].rec), ms[j].rec.ts, ms[j].rec.attrs, [Some(ms[j].rec.value)], 1)
  {
    hide KeyOf, Least, Take, Evict;
    if ms != [] {
      var n := |ms| - 1;
      SingleInputPasses(cap, ms[..n]);
      var t := Feed(1, cap, ms[..n]);
      SingleStep(cap, t, ms[n]);
      EvictionsSnoc(t.evicted, map[]);
    }
  }
}
