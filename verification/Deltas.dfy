/** Cumulative sums turned into per-interval deltas. */
module Deltas {
  import opened Wrappers
  import opened Records
  import opened Keys

  type Readings = map<Bytes, real>

  /** The last reading of every cumulative series. */
  class Normalizer {
    var last: Readings

    constructor ()
      ensures last == map[]
    {
      last := map[];
    }

    /** The increment since the series' last reading; `None` for its first. */
    method Delta(series: Bytes, value: real, monotonic: bool) returns (delta: Option<real>)
      modifies this
      ensures last == old(last)[series := value]
      ensures delta == Increment(old(last), series, value, monotonic)
    {
      var prev := if series in last then Some(last[series]) else None;
      last := last[series := value];
      match prev {
        case None => delta := None;
        case Some(p) => delta := if monotonic && value < p then Some(value) else Some(value - p);
      }
    }
  }

  function Increment(last: Readings, series: Bytes, value: real, monotonic: bool): Option<real> {
    if series !in last then None
    else if monotonic && value < last[series] then Some(value)
    else Some(value - last[series])
  }

  // ---- Decoding a metric ----

  datatype Point = Point(ts: u64, startTs: u64, attrs: Attrs, value: Option<real>)

  datatype Data = Gauge(points: seq<Point>) | Sum(points: seq<Point>, temporality: int, monotonic: bool) | Unhandled

  datatype Metric = Metric(name: Str, data: Data)

  /** The OTLP code of cumulative temporality. */
  const CUMULATIVE: int := 2

  /** One data point that has a number. `cumulative` says whether, and how, it is a running total. */
  datatype Reading = Reading(ts: u64, startTs: u64, series: Series, value: real, cumulative: Option<bool>) {
    function Key(): Bytes {
      SeriesKeyBytes(series)
    }
  }

  function After(last: Readings, r: Reading): Readings {
    if r.cumulative.Some? then last[r.Key() := r.value] else last
  }

  function Worth(last: Readings, r: Reading): Option<real> {
    match r.cumulative
    case None => Some(r.value)
    case Some(monotonic) => Increment(last, r.Key(), r.value, monotonic)
  }

  function RecordOf(r: Reading, value: real): Record {
    var startTs := if r.startTs != 0 then Some(r.startTs) else None;
    Record(r.ts, startTs, r.series.resource, r.series.scope, r.series.name, value, r.series.attrs)
  }

  function AfterAll(last: Readings, rs: seq<Reading>): Readings {
    if rs == [] then last else After(AfterAll(last, rs[..|rs| - 1]), rs[|rs| - 1])
  }

  /** The records that readings become, in order. */
  function Decoded(last: Readings, rs: seq<Reading>): seq<Record> {
    if rs == [] then []
    else
      var n := |rs| - 1;
      Decoded(last, rs[..n]) + Emits(AfterAll(last, rs[..n]), rs[n])
  }

  function Emits(last: Readings, r: Reading): seq<Record> {
    var v := Worth(last, r);
    if v.Some? then [RecordOf(r, v.value)] else []
  }

  function Temporality(d: Data): Option<bool> {
    if d.Sum? && d.temporality == CUMULATIVE then Some(d.monotonic) else None
  }

  function PointReading(p: Point, m: Metric, resource: Attrs, scope: Option<Str>): seq<Reading> {
    if p.value.None? then []
    else [Reading(p.ts, p.startTs, Series(resource, scope, m.name, p.attrs), p.value.value, Temporality(m.data))]
  }

  function PointReadings(points: seq<Point>, m: Metric, resource: Attrs, scope: Option<Str>): seq<Reading> {
    if points == [] then []
    else
      var n := |points| - 1;
      PointReadings(points[..n], m, resource, scope) + PointReading(points[n], m, resource, scope)
  }

  /** The readings of a metric; only gauges and sums are handled. */
  function ReadingsOf(m: Metric, resource: Attrs, scope: Option<Str>): seq<Reading> {
    if m.data.Unhandled? then [] else PointReadings(m.data.points, m, resource, scope)
  }

  method DecodeMetric(m: Metric, resource: Attrs, scope: Option<Str>, norm: Normalizer, before: seq<Record>)
    returns (out: seq<Record>)
    modifies norm
    ensures out == before + Decoded(old(norm.last), ReadingsOf(m, resource, scope))
    ensures norm.last == AfterAll(old(norm.last), ReadingsOf(m, resource, scope))
  {
    hide SeriesKeyBytes, Decoded, AfterAll, PointReadings;
    NothingYet(norm.last, m, resource, scope);
    out := before;
    var points, cumulative := [], None;
    match m.data {
      case Gauge(ps) =>
        points := ps;
      case Sum(ps, temporality, monotonic) =>
        points := ps;
        if temporality == CUMULATIVE {
          cumulative := Some(monotonic);
        }
      case Unhandled =>
        return;
    }
    ghost var last := norm.last;
    ghost var rs: seq<Reading> := [];
    assert points[..0] == [];
    for i := 0 to |points|
      invariant rs == PointReadings(points[..i], m, resource, scope)
      invariant out == before + Decoded(last, rs) && norm.last == AfterAll(last, rs)
    {
      var p := points[i];
      PointsSnoc(points, i, m, resource, scope);
      if p.value.None? {
        continue;
      }
      ghost var r := Reading(p.ts, p.startTs, Series(resource, scope, m.name, p.attrs), p.value.value, cumulative);
      Snoc(last, rs, r);
      rs := rs + [r];
      var value := Some(p.value.value);
      if cumulative.Some? {
        var key := SeriesKey(Series(resource, scope, m.name, p.attrs));
        value := norm.Delta(key, p.value.value, cumulative.value);
      }
      if value.Some? {
        var startTs := if p.startTs != 0 then Some(p.startTs) else None;
        out := out + [Record(p.ts, startTs, resource, scope, m.name, value.value, p.attrs)];
      }
    }
    assert points[..|points|] == points;
  }

  lemma NothingYet(last: Readings, m: Metric, resource: Attrs, scope: Option<Str>)
    ensures PointReadings([], m, resource, scope) == [] && Decoded(last, []) == [] && AfterAll(last, []) == last
  {
  }

  lemma PointsSnoc(points: seq<Point>, i: nat, m: Metric, resource: Attrs, scope: Option<Str>)
    requires i < |points|
    ensures PointReadings(points[..i + 1], m, resource, scope)
         == PointReadings(points[..i], m, resource, scope) + PointReading(points[i], m, resource, scope)
  {
    assert points[..i + 1][..i] == points[..i];
  }

  lemma Snoc(last: Readings, rs: seq<Reading>, r: Reading)
    ensures AfterAll(last, rs + [r]) == After(AfterAll(last, rs), r)
    ensures Decoded(last, rs + [r]) == Decoded(last, rs) + Emits(AfterAll(last, rs), r)
  {
    hide After, Emits;
    assert (rs + [r])[..|rs|] == rs;
  }

  // ---- Whole requests, one after another ----

  datatype ScopeMetrics = ScopeMetrics(scope: Option<Str>, metrics: seq<Metric>)

  datatype ResourceMetrics = ResourceMetrics(resource: Attrs, scopes: seq<ScopeMetrics>)

  type Request = seq<ResourceMetrics>

  function ScopeReadings(metrics: seq<Metric>, resource: Attrs, scope: Option<Str>): seq<Reading> {
    if metrics == [] then []
    else
      var n := |metrics| - 1;
      ScopeReadings(metrics[..n], resource, scope) + ReadingsOf(metrics[n], resource, scope)
  }

  function ResourceReadings(scopes: seq<ScopeMetrics>, resource: Attrs): seq<Reading> {
    if scopes == [] then []
    else
      var n := |scopes| - 1;
      ResourceReadings(scopes[..n], resource) + ScopeReadings(scopes[n].metrics, resource, scopes[n].scope)
  }

  function RequestReadings(req: Request): seq<Reading> {
    if req == [] then []
    else RequestReadings(req[..|req| - 1]) + ResourceReadings(req[|req| - 1].scopes, req[|req| - 1].resource)
  }

  /** Decoding in two goes with one normalizer is decoding in one. */
  lemma {:induction false} DecodedConcat(last: Readings, a: seq<Reading>, b: seq<Reading>)
    ensures AfterAll(last, a + b) == AfterAll(AfterAll(last, a), b)
    ensures Decoded(last, a + b) == Decoded(last, a) + Decoded(AfterAll(last, a), b)
  {
    hide After, Emits, AfterAll, Decoded;
    if b == [] {
      assert a + b == a;
      NoReadings(AfterAll(last, a));
    } else {
      var n := |b| - 1;
      DecodedConcat(last, a, b[..n]);
      assert a + b == (a + b[..n]) + [b[n]] && b == b[..n] + [b[n]];
      Snoc(last, a + b[..n], b[n]);
      Snoc(AfterAll(last, a), b[..n], b[n]);
    }
  }

  method DecodeScope(sm: ScopeMetrics, resource: Attrs, norm: Normalizer, before: seq<Record>)
    returns (out: seq<Record>)
    modifies norm
    ensures out == before + Decoded(old(norm.last), ScopeReadings(sm.metrics, resource, sm.scope))
    ensures norm.last == AfterAll(old(norm.last), ScopeReadings(sm.metrics, resource, sm.scope))
  {
    hide Decoded, AfterAll, ReadingsOf;
    NoReadings(norm.last);
    out := before;
    ghost var last := norm.last;
    for i := 0 to |sm.metrics|
      invariant var rs := ScopeReadings(sm.metrics[..i], resource, sm.scope);
        out == before + Decoded(last, rs) && norm.last == AfterAll(last, rs)
    {
      assert sm.metrics[..i + 1][..i] == sm.metrics[..i];
      ghost var rs := ScopeReadings(sm.metrics[..i], resource, sm.scope);
      DecodedConcat(last, rs, ReadingsOf(sm.metrics[i], resource, sm.scope));
      out := DecodeMetric(sm.metrics[i], resource, sm.scope, norm, out);
    }
    assert sm.metrics[..|sm.metrics|] == sm.metrics;
  }

  /** The records of a request: one normalizer, metric after metric. */
  method Decode(req: Request, norm: Normalizer) returns (out: seq<Record>)
    modifies norm
    ensures out == Decoded(old(norm.last), RequestReadings(req))
    ensures norm.last == AfterAll(old(norm.last), RequestReadings(req))
  {
    hide Decoded, AfterAll, ScopeReadings;
    NoReadings(norm.last);
    out := [];
    ghost var last := norm.last;
    for i := 0 to |req|
      invariant var rs := RequestReadings(req[..i]);
        out == Decoded(last, rs) && norm.last == AfterAll(last, rs)
    {
      assert req[..i + 1][..i] == req[..i];
      ghost var rs := RequestReadings(req[..i]);
      var rm := req[i];
      ghost var here := norm.last;
      ghost var before := out;
      NoReadings(here);
      for j := 0 to |rm.scopes|
        invariant var more := ResourceReadings(rm.scopes[..j], rm.resource);
          out == before + Decoded(here, more) && norm.last == AfterAll(here, more)
      {
        assert rm.scopes[..j + 1][..j] == rm.scopes[..j];
        ghost var more := ResourceReadings(rm.scopes[..j], rm.resource);
        DecodedConcat(here, more, ScopeReadings(rm.scopes[j].metrics, rm.resource, rm.scopes[j].scope));
        out := DecodeScope(rm.scopes[j], rm.resource, norm, out);
      }
      assert rm.scopes[..|rm.scopes|] == rm.scopes;
      DecodedConcat(last, rs, ResourceReadings(rm.scopes, rm.resource));
    }
    assert req[..|req|] == req;
  }

  lemma NoReadings(last: Readings)
    ensures Decoded(last, []) == [] && AfterAll(last, []) == last
  {
  }

  /** The readings of requests decoded one after another with one normalizer. */
  function AllReadings(reqs: seq<Request>): seq<Reading> {
    if reqs == [] then [] else AllReadings(reqs[..|reqs| - 1]) + RequestReadings(reqs[|reqs| - 1])
  }

  /** The records that successive calls yield, taken together. */
  function AllDecoded(reqs: seq<Request>): seq<Record> {
    if reqs == [] then []
    else
      var n := |reqs| - 1;
      AllDecoded(reqs[..n]) + Decoded(AfterAll(map[], AllReadings(reqs[..n])), RequestReadings(reqs[n]))
  }

  lemma {:induction false} CallsAreOneRun(reqs: seq<Request>)
    ensures AllDecoded(reqs) == Decoded(map[], AllReadings(reqs))
  {
    hide Decoded, AfterAll, RequestReadings;
    if reqs == [] {
      NoReadings(map[]);
    } else {
      var n := |reqs| - 1;
      CallsAreOneRun(reqs[..n]);
      DecodedConcat(map[], AllReadings(reqs[..n]), RequestReadings(reqs[n]));
    }
  }

  // ---- One series at a time ----

  function KeyOfRecord(rec: Record): Bytes {
    SeriesKeyBytes(Series(rec.resource, rec.scope, rec.name, rec.attrs))
  }

  /** The values of the records under one series key, in order. */
  function ValuesOf(out: seq<Record>, key: Bytes): seq<real> {
    if out == [] then []
    else
      var last := out[|out| - 1];
      ValuesOf(out[..|out| - 1], key) + (if KeyOfRecord(last) == key then [last.value] else [])
  }

  function Only(rs: seq<Reading>, key: Bytes): seq<Reading> {
    if rs == [] then []
    else
      var last := rs[|rs| - 1];
      Only(rs[..|rs| - 1], key) + (if last.Key() == key then [last] else [])
  }

  lemma ValuesSnoc(out: seq<Record>, rec: Record, key: Bytes)
    ensures ValuesOf(out + [rec], key) == ValuesOf(out, key) + (if KeyOfRecord(rec) == key then [rec.value] else [])
  {
    hide KeyOfRecord;
    assert (out + [rec])[..|out|] == out;
  }

  /** Two memories that agree on a series give its readings the same worth. */
  ghost predicate AgreeOn(a: Readings, b: Readings, key: Bytes) {
    (key in a <==> key in b) && (key in a ==> a[key] == b[key])
  }

  /** What is emitted for a series depends on that series' readings alone, however others are interleaved. */
  lemma {:induction false} SeriesIndependent(rs: seq<Reading>, key: Bytes)
    ensures AgreeOn(AfterAll(map[], rs), AfterAll(map[], Only(rs, key)), key)
    ensures ValuesOf(Decoded(map[], rs), key) == ValuesOf(Decoded(map[], Only(rs, key)), key)
  {
    hide AgreeOn, After, AfterAll, Decoded, ValuesOf, Only, Emits, Reading.Key, Gain;
    if rs == [] {
      NothingRead(key);
    } else {
      var n := |rs| - 1;
      var before, r := rs[..n], rs[n];
      assert rs == before + [r];
      SeriesIndependent(before, key);
      var (all, own) := (AfterAll(map[], before), AfterAll(map[], Only(before, key)));
      AgreeStep(all, own, r, key);
      Snoc(map[], before, r);
      EmitsGain(all, Decoded(map[], before), r, key);
      OnlySnoc(before, r, key);
      if r.Key() == key {
        Snoc(map[], Only(before, key), r);
        EmitsGain(own, Decoded(map[], Only(before, key)), r, key);
      } else {
        assert ValuesOf(Decoded(map[], before), key) + [] == ValuesOf(Decoded(map[], before), key);
      }
    }
  }

  lemma NothingRead(key: Bytes)
    ensures Only([], key) == [] && AfterAll(map[], []) == map[] && AgreeOn(map[], map[], key)
    ensures ValuesOf(Decoded(map[], []), key) == []
  {
  }

  lemma OnlySnoc(rs: seq<Reading>, r: Reading, key: Bytes)
    ensures Only(rs + [r], key) == if r.Key() == key then Only(rs, key) + [r] else Only(rs, key)
  {
    hide Reading.Key;
    assert (rs + [r])[..|rs|] == rs;
  }

  /** What a reading adds to the values of a series. */
  function Gain(last: Readings, r: Reading, key: Bytes): seq<real> {
    var v := Worth(last, r);
    if r.Key() == key && v.Some? then [v.value] else []
  }

  lemma AgreeStep(a: Readings, b: Readings, r: Reading, key: Bytes)
    requires AgreeOn(a, b, key)
    ensures Gain(a, r, key) == Gain(b, r, key)
    ensures r.Key() == key ==> AgreeOn(After(a, r), After(b, r), key)
    ensures r.Key() != key ==> AgreeOn(After(a, r), b, key) && Gain(a, r, key) == []
  {
    hide SeriesKeyBytes;
  }

  lemma EmitsGain(last: Readings, out: seq<Record>, r: Reading, key: Bytes)
    ensures ValuesOf(out + Emits(last, r), key) == ValuesOf(out, key) + Gain(last, r, key)
  {
    hide SeriesKeyBytes, Worth;
    var v := Worth(last, r);
    if v.Some? { ValuesSnoc(out, RecordOf(r, v.value), key); } else { assert out + [] == out; }
  }

  // ---- The deltas of a series add up ----

  function Total(vs: seq<real>): real {
    if vs == [] then 0.0 else Total(vs[..|vs| - 1]) + vs[|vs| - 1]
  }

  lemma TotalSnoc(vs: seq<real>, v: real)
    ensures Total(vs + [v]) == Total(vs) + v
  {
    assert (vs + [v])[..|vs|] == vs;
  }

  /** All readings are running totals of one series. */
  ghost predicate OneCumulative(rs: seq<Reading>, key: Bytes) {
    forall i :: 0 <= i < |rs| ==> rs[i].Key() == key && rs[i].cumulative.Some?
  }

  /** A monotonic reading below the one before it: the counter started over. */
  predicate ResetAt(rs: seq<Reading>, i: nat)
    requires 0 < i < |rs|
  {
    rs[i].cumulative == Some(true) && rs[i].value < rs[i - 1].value
  }

  /** The sum of the readings that a reset followed at once: what the resets wiped out. */
  function WipedOut(rs: seq<Reading>): real {
    if |rs| <= 1 then 0.0
    else WipedOut(rs[..|rs| - 1]) + (if ResetAt(rs, |rs| - 1) then rs[|rs| - 2].value else 0.0)
  }

  lemma {:induction false} LastReading(rs: seq<Reading>, key: Bytes)
    requires OneCumulative(rs, key)
    ensures rs == [] ==> AfterAll(map[], rs) == map[]
    ensures rs != [] ==> AfterAll(map[], rs) == map[key := rs[|rs| - 1].value]
  {
    hide SeriesKeyBytes;
    if rs != [] { LastReading(rs[..|rs| - 1], key); }
  }

  /** The deltas of a cumulative series add up to its last reading less its first, plus what resets wiped out. */
  lemma {:induction false} DeltasTelescope(rs: seq<Reading>, key: Bytes)
    requires OneCumulative(rs, key)
    ensures Total(ValuesOf(Decoded(map[], rs), key))
         == if rs == [] then 0.0 else rs[|rs| - 1].value - rs[0].value + WipedOut(rs)
    ensures rs != [] ==> |ValuesOf(Decoded(map[], rs), key)| == |rs| - 1
  {
    hide Emits, Gain, SeriesKeyBytes, ValuesOf;
    NoValues(key);
    if rs != [] {
      var n := |rs| - 1;
      var before := rs[..n];
      DeltasTelescope(before, key);
      LastReading(before, key);
      var last := AfterAll(map[], before);
      EmitsGain(last, Decoded(map[], before), rs[n], key);
      if n == 0 {
        assert Gain(map[], rs[0], key) == [] by { FirstGain(rs[0], key); }
      } else {
        NextGain(before[n - 1].value, rs[n], key);
        TotalSnoc(ValuesOf(Decoded(map[], before), key), Gain(last, rs[n], key)[0]);
      }
    }
  }

  lemma NoValues(key: Bytes)
    ensures ValuesOf([], key) == []
  {
  }

  lemma FirstGain(r: Reading, key: Bytes)
    requires r.cumulative.Some?
    ensures Gain(map[], r, key) == []
  {
  }

  /** The increment of a series whose last reading was `prev`. */
  lemma NextGain(prev: real, r: Reading, key: Bytes)
    requires r.Key() == key && r.cumulative.Some?
    ensures Gain(map[key := prev], r, key)
         == [if r.cumulative.value && r.value < prev then r.value else r.value - prev]
  {
    hide SeriesKeyBytes;
  }

  ghost predicate Monotonic(rs: seq<Reading>) {
    forall i :: 0 <= i < |rs| ==> rs[i].cumulative == Some(true) && rs[i].value >= 0.0
  }

  /** A counter's deltas are never negative. */
  lemma {:induction false} CounterDeltasNonNegative(rs: seq<Reading>, key: Bytes)
    requires OneCumulative(rs, key) && Monotonic(rs)
    ensures forall i :: 0 <= i < |ValuesOf(Decoded(map[], rs), key)| ==> ValuesOf(Decoded(map[], rs), key)[i] >= 0.0
  {
    hide Emits, Gain, SeriesKeyBytes, ValuesOf;
    NoValues(key);
    if rs != [] {
      var n := |rs| - 1;
      var before := rs[..n];
      assert rs == before + [rs[n]];
      CounterDeltasNonNegative(before, key);
      LastReading(before, key);
      Snoc(map[], before, rs[n]);
      EmitsGain(AfterAll(map[], before), Decoded(map[], before), rs[n], key);
      if n == 0 { FirstGain(rs[0], key); } else { NextGain(before[n - 1].value, rs[n], key); }
    }
  }

  /** A sum that is not monotonic never resets. */
  lemma {:induction false} NoResets(rs: seq<Reading>)
    requires forall i :: 0 <= i < |rs| ==> rs[i].cumulative == Some(false)
    ensures WipedOut(rs) == 0.0
  {
    if |rs| > 1 { NoResets(rs[..|rs| - 1]); }
  }

  // ---- Over a whole run of interleaved series ----

  lemma {:induction false} OnlyMembers(rs: seq<Reading>, key: Bytes)
    ensures forall r :: r in Only(rs, key) <==> r in rs && r.Key() == key
  {
    hide SeriesKeyBytes;
    if rs != [] {
      var n := |rs| - 1;
      OnlyMembers(rs[..n], key);
      assert rs == rs[..n] + [rs[n]];
    }
  }

  /** Under any interleaving with other series, the deltas emitted for a cumulative series add up to its last reading
      less its first plus what its resets wiped out; a counter's are never negative, and a sum that is not monotonic
      never resets. */
  lemma ReadingsTelescope(rs: seq<Reading>, key: Bytes)
    requires forall r :: r in rs && r.Key() == key ==> r.cumulative.Some?
    requires Only(rs, key) != []
    ensures var (own, values) := (Only(rs, key), ValuesOf(Decoded(map[], rs), key));
      && |values| == |own| - 1
      && Total(values) == own[|own| - 1].value - own[0].value + WipedOut(own)
      && (Monotonic(own) ==> forall i :: 0 <= i < |values| ==> values[i] >= 0.0)
      && ((forall r :: r in own ==> r.cumulative == Some(false)) ==> WipedOut(own) == 0.0)
  {
    hide SeriesKeyBytes, Only, ValuesOf, Decoded, WipedOut, Total;
    var own := Only(rs, key);
    OnlyMembers(rs, key);
    assert forall i :: 0 <= i < |own| ==> own[i] in own;
    SeriesIndependent(rs, key);
    DeltasTelescope(own, key);
    if Monotonic(own) { CounterDeltasNonNegative(own, key); }
    if forall r :: r in own ==> r.cumulative == Some(false) { NoResets(own); }
  }

  /** So over any sequence of requests decoded with one normalizer, whatever series they interleave. */
  lemma SeriesTelescopes(reqs: seq<Request>, key: Bytes)
    requires forall r :: r in AllReadings(reqs) && r.Key() == key ==> r.cumulative.Some?
    requires Only(AllReadings(reqs), key) != []
    ensures var (own, values) := (Only(AllReadings(reqs), key), ValuesOf(AllDecoded(reqs), key));
      && |values| == |own| - 1
      && Total(values) == own[|own| - 1].value - own[0].value + WipedOut(own)
      && (Monotonic(own) ==> forall i :: 0 <= i < |values| ==> values[i] >= 0.0)
      && ((forall r :: r in own ==> r.cumulative == Some(false)) ==> WipedOut(own) == 0.0)
  {
    hide SeriesKeyBytes, Only, ValuesOf, Decoded, AllReadings, AllDecoded, WipedOut, Total;
    CallsAreOneRun(reqs);
    ReadingsTelescope(AllReadings(reqs), key);
  }

  // ---- Readings that are not running totals ----

  function ReadingValues(rs: seq<Reading>): seq<real> {
    seq(|rs|, i requires 0 <= i < |rs| => rs[i].value)
  }

  lemma {:induction false} PlainReadings(rs: seq<Reading>, key: Bytes)
    requires forall r :: r in rs && r.Key() == key ==> r.cumulative.None?
    ensures ValuesOf(Decoded(map[], rs), key) == ReadingValues(Only(rs, key))
  {
    hide Emits, AfterAll, Reading.Key, ValuesOf;
    if rs == [] {
      NoValues(key);
    } else {
      var n := |rs| - 1;
      var before, r := rs[..n], rs[n];
      assert rs == before + [r] && r in rs;
      PlainReadings(before, key);
      Snoc(map[], before, r);
      EmitsGain(AfterAll(map[], before), Decoded(map[], before), r, key);
      PlainGain(AfterAll(map[], before), r, key);
    }
  }

  lemma PlainGain(last: Readings, r: Reading, key: Bytes)
    requires r.Key() == key ==> r.cumulative.None?
    ensures Gain(last, r, key) == if r.Key() == key then [r.value] else []
  {
    hide SeriesKeyBytes;
  }

  /** Over any sequence of requests, a series none of whose readings is a running total (a gauge, a delta sum) is
      emitted reading by reading, in order. */
  lemma PlainSeriesPass(reqs: seq<Request>, key: Bytes)
    requires forall r :: r in AllReadings(reqs) && r.Key() == key ==> r.cumulative.None?
    ensures ValuesOf(AllDecoded(reqs), key) == ReadingValues(Only(AllReadings(reqs), key))
  {
    hide SeriesKeyBytes, Only, ValuesOf, Decoded, AllReadings, AllDecoded;
    CallsAreOneRun(reqs);
    PlainReadings(AllReadings(reqs), key);
  }

  // ---- One metric at a time ----

  /** The points that have a number. */
  function Numbered(points: seq<Point>): seq<Point> {
    if points == [] then []
    else
      var n := |points| - 1;
      Numbered(points[..n]) + (if points[n].value.Some? then [points[n]] else [])
  }

  lemma {:induction false} NumberedPoints(points: seq<Point>)
    ensures forall p :: p in Numbered(points) <==> p in points && p.value.Some?
  {
    if points != [] {
      var n := |points| - 1;
      NumberedPoints(points[..n]);
      assert points == points[..n] + [points[n]];
    }
  }

  /** The record tells the point's times, a start of zero being none, its attributes, and where it comes from. */
  predicate Describes(x: Record, p: Point, name: Str, resource: Attrs, scope: Option<Str>) {
    && x.ts == p.ts && (x.startTs == if p.startTs == 0 then None else Some(p.startTs))
    && x.attrs == p.attrs && x.name == name && x.resource == resource && x.scope == scope
  }

  lemma PlainEmits(last: Readings, p: Point, m: Metric, resource: Attrs, scope: Option<Str>)
    requires Temporality(m.data).None? && p.value.Some?
    ensures |PointReading(p, m, resource, scope)| == 1
    ensures var r := PointReading(p, m, resource, scope)[0];
      && After(last, r) == last && |Emits(last, r)| == 1
      && p.value == Some(Emits(last, r)[0].value) && Describes(Emits(last, r)[0], p, m.name, resource, scope)
  {
  }

  lemma {:induction false} PlainPoints(m: Metric, points: seq<Point>, resource: Attrs, scope: Option<Str>,
      last: Readings)
    requires Temporality(m.data).None?
    ensures var rs := PointReadings(points, m, resource, scope);
      && AfterAll(last, rs) == last
      && |Decoded(last, rs)| == |Numbered(points)|
      && forall i :: 0 <= i < |Numbered(points)| ==>
           && Numbered(points)[i].value == Some(Decoded(last, rs)[i].value)
           && Describes(Decoded(last, rs)[i], Numbered(points)[i], m.name, resource, scope)
  {
    hide Decoded, AfterAll, After, Emits, PointReading, Describes, Temporality;
    if points == [] {
      NoReadings(last);
    } else {
      var n := |points| - 1;
      var before := PointReadings(points[..n], m, resource, scope);
      PlainPoints(m, points[..n], resource, scope, last);
      if points[n].value.Some? {
        PlainEmits(last, points[n], m, resource, scope);
        var r := PointReading(points[n], m, resource, scope)[0];
        assert PointReading(points[n], m, resource, scope) == [r];
        assert PointReadings(points, m, resource, scope) == before + [r];
        Snoc(last, before, r);
      } else {
        NoPointReading(points[n], m, resource, scope);
        assert PointReadings(points, m, resource, scope) == before;
      }
    }
  }

  lemma NoPointReading(p: Point, m: Metric, resource: Attrs, scope: Option<Str>)
    requires p.value.None?
    ensures PointReading(p, m, resource, scope) == []
  {
  }

  /** A gauge, or a sum of delta temporality, whose OTLP code is 1, yields one record for each point with a number, with
      that number, and leaves the normalizer alone. */
  lemma PlainMetric(m: Metric, resource: Attrs, scope: Option<Str>, last: Readings)
    requires m.data.Gauge? || (m.data.Sum? && m.data.temporality == 1)
    ensures var (rs, points) := (ReadingsOf(m, resource, scope), Numbered(m.data.points));
      && AfterAll(last, rs) == last
      && |Decoded(last, rs)| == |points|
      && forall i :: 0 <= i < |points| ==>
           && points[i].value == Some(Decoded(last, rs)[i].value)
           && Describes(Decoded(last, rs)[i], points[i], m.name, resource, scope)
  {
    PlainPoints(m, m.data.points, resource, scope, last);
  }

  /** A sum of cumulative temporality, whose OTLP code is 2, has one running total for each point with a number, under
      the point's series; other kinds of data have no readings. */
  lemma CumulativeMetric(m: Metric, resource: Attrs, scope: Option<Str>)
    ensures m.data.Unhandled? ==> ReadingsOf(m, resource, scope) == []
    ensures m.data.Sum? && m.data.temporality == 2 ==>
      var (rs, points) := (ReadingsOf(m, resource, scope), Numbered(m.data.points));
      && |rs| == |points|
      && forall i :: 0 <= i < |points| ==>
           && rs[i].cumulative == Some(m.data.monotonic) && points[i].value == Some(rs[i].value)
           && rs[i].series == Series(resource, scope, m.name, points[i].attrs)
           && rs[i].ts == points[i].ts && rs[i].startTs == points[i].startTs
  {
    if m.data.Sum? { CumulativePoints(m, m.data.points, resource, scope); }
  }

  lemma {:induction false} CumulativePoints(m: Metric, points: seq<Point>, resource: Attrs, scope: Option<Str>)
    requires m.data.Sum?
    ensures var rs := PointReadings(points, m, resource, scope);
      && |rs| == |Numbered(points)|
      && forall i :: 0 <= i < |rs| ==>
           && rs[i].cumulative == (if m.data.temporality == 2 then Some(m.data.monotonic) else None)
           && Numbered(points)[i].value == Some(rs[i].value)
           && rs[i].series == Series(resource, scope, m.name, Numbered(points)[i].attrs)
           && rs[i].ts == Numbered(points)[i].ts && rs[i].startTs == Numbered(points)[i].startTs
  {
    if points != [] { CumulativePoints(m, points[..|points| - 1], resource, scope); }
  }

  /** Every record tells its reading's times and series. */
  lemma {:induction false} RecordsTell(last: Readings, rs: seq<Reading>, i: nat) returns (r: Reading)
    requires i < |Decoded(last, rs)|
    ensures r in rs
    ensures var x := Decoded(last, rs)[i];
      && x.ts == r.ts && (x.startTs == if r.startTs == 0 then None else Some(r.startTs))
      && Series(x.resource, x.scope, x.name, x.attrs) == r.series
  {
    hide Worth, AfterAll;
    var n := |rs| - 1;
    if i < |Decoded(last, rs[..n])| {
      r := RecordsTell(last, rs[..n], i);
    } else {
      r := rs[n];
    }
  }

  /** With unambiguous keys the readings that share a delta state are exactly those of the same series. */
  lemma StateIsPerSeries(rs: seq<Reading>, s: Series)
    requires UnambiguousSeries(s) && forall r :: r in rs ==> UnambiguousSeries(r.series)
    ensures forall r :: r in Only(rs, SeriesKeyBytes(s)) <==> r in rs && SameSeries(r.series, s)
  {
    hide SeriesKeyBytes, Only, UnambiguousSeries;
    OnlyMembers(rs, SeriesKeyBytes(s));
    forall r | r in rs ensures r.Key() == SeriesKeyBytes(s) <==> SameSeries(r.series, s) {
      if r.Key() == SeriesKeyBytes(s) { SeriesKeyInjective(r.series, s); }
      if SameSeries(r.series, s) { SameSeriesSameKey(r.series, s); }
    }
  }

  lemma SameSeriesSameKey(a: Series, b: Series)
    requires SameSeries(a, b)
    ensures SeriesKeyBytes(a) == SeriesKeyBytes(b)
  {
  }

  /** Without that, two series can share a state: the first reading of one is then taken for an increment of the
      other. */
  lemma CollidingSeriesMix(m: nat, name: Str, x: real, y: real) returns (a: Reading, b: Reading)
    requires m < 0x1_0000_0000_0000
    ensures a.series == Series(a.series.resource, None, name, map[]) && AsciiAttrs(a.series.resource)
    ensures b.series == Series(map[], None, name, b.series.attrs) && AsciiAttrs(b.series.attrs)
    ensures !SameSeries(a.series, b.series) && a.value == x && b.value == y
    ensures Worth(After(map[], a), b) == Some(y - x) && Worth(map[], b) == None
  {
    hide SeriesKeyBytes, AsciiAttrs;
    var s, t, key := SeriesKeyCollision(m, name, None);
    assert s.resource.Keys == {key} && t.resource.Keys == {};
    a := Reading(0, 0, s, x, Some(false));
    b := Reading(0, 0, t, y, Some(false));
  }
}
