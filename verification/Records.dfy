/** The record that flows between nodes, its attributes, and how a field is read from it. */
module Records {
  import opened Wrappers
  import opened Ordered

  const U64_LIMIT: nat := 0x1_0000_0000_0000_0000

  type u64 = x: nat | x < U64_LIMIT
  type i64 = x: int | -0x8000_0000_0000_0000 <= x < 0x8000_0000_0000_0000

  newtype byte = x: int | 0 <= x < 256

  /** A string, as its UTF-8 bytes. No allocation is longer than `isize::MAX` bytes. */
  type Str = s: seq<byte> | |s| < 0x8000_0000_0000_0000

  /** An attribute value. A double is its 64-bit pattern, so that equality is identity of keys. */
  datatype AttrValue = Bool(b: bool) | Int(i: i64) | Double(bits: u64) | Text(s: Str)

  type Attrs = map<Str, AttrValue>

  datatype Record = Record(
    ts: u64,
    startTs: Option<u64>,
    resource: Attrs,
    scope: Option<Str>,
    name: Str,
    value: real,
    attrs: Attrs)

  datatype Fault = Missing | Invalid

  /** The field name that stands for a record's own value: the bytes of "value". */
  const VALUE: Str := [118, 97, 108, 117, 101]

  function Lookup(rec: Record, key: Str): Option<AttrValue> {
    if key in rec.attrs then Some(rec.attrs[key])
    else if key in rec.resource then Some(rec.resource[key])
    else None
  }

  function Pow2(n: nat): (p: real)
    ensures p > 0.0
  {
    if n == 0 then 1.0 else 2.0 * Pow2(n - 1)
  }

  /** The number a finite 64-bit pattern stands for; infinities and NaN are not modelled. */
  function DoubleValue(bits: u64): real {
    var sign := if bits < 0x8000_0000_0000_0000 then 1.0 else -1.0;
    var exponent := bits / 0x10_0000_0000_0000 % 2048;
    var fraction := bits % 0x10_0000_0000_0000;
    if exponent == 0 then sign * fraction as real / Pow2(1074)
    else
      var mantissa := sign * (0x10_0000_0000_0000 + fraction) as real;
      if exponent >= 1075 then mantissa * Pow2(exponent - 1075) else mantissa / Pow2(1075 - exponent)
  }

  function AsNumber(v: AttrValue): Option<real> {
    match v
    case Int(i) => Some(i as real)
    case Double(bits) => Some(DoubleValue(bits))
    case Bool(_) => None
    case Text(_) => None
  }

  function Numeric(rec: Record, field: Option<Str>): Result<real, Fault> {
    if field.None? || field.value == VALUE then Ok(rec.value)
    else
      match Lookup(rec, field.value)
      case None => Err(Missing)
      case Some(v) =>
        match AsNumber(v)
        case Some(x) => Ok(x)
        case None => Err(Invalid)
  }

  /** Byte-wise lexicographic order: the order in which an attribute map lists its keys. */
  predicate LexLe(a: seq<byte>, b: seq<byte>) {
    a == [] || (b != [] && (a[0] < b[0] || (a[0] == b[0] && LexLe(a[1..], b[1..]))))
  }

  const STR_ORDER: (Str, Str) -> bool := (a: Str, b: Str) => LexLe(a, b)

  lemma {:induction false} LexReflexive(a: seq<byte>)
    ensures LexLe(a, a)
  {
    if a != [] { LexReflexive(a[1..]); }
  }

  lemma {:induction false} LexAntisymmetric(a: seq<byte>, b: seq<byte>)
    requires LexLe(a, b) && LexLe(b, a)
    ensures a == b
  {
    if a != [] {
      LexAntisymmetric(a[1..], b[1..]);
      assert a == [a[0]] + a[1..] && b == [b[0]] + b[1..];
    }
  }

  lemma {:induction false} LexTransitive(a: seq<byte>, b: seq<byte>, c: seq<byte>)
    requires LexLe(a, b) && LexLe(b, c)
    ensures LexLe(a, c)
  {
    if a != [] && a[0] == b[0] == c[0] { LexTransitive(a[1..], b[1..], c[1..]); }
  }

  lemma {:induction false} LexTotal(a: seq<byte>, b: seq<byte>)
    ensures LexLe(a, b) || LexLe(b, a)
  {
    if a != [] && b != [] && a[0] == b[0] { LexTotal(a[1..], b[1..]); }
  }

  lemma StrOrderIsTotal()
    ensures TotalOrder(STR_ORDER)
  {
    forall x: Str ensures STR_ORDER(x, x) { LexReflexive(x); }
    forall x: Str, y: Str | STR_ORDER(x, y) && STR_ORDER(y, x) ensures x == y { LexAntisymmetric(x, y); }
    forall x: Str, y: Str, z: Str | STR_ORDER(x, y) && STR_ORDER(y, z) ensures STR_ORDER(x, z) {
      LexTransitive(x, y, z);
    }
    forall x: Str, y: Str ensures STR_ORDER(x, y) || STR_ORDER(y, x) { LexTotal(x, y); }
  }

  function AscendingKeys(keys: set<Str>): (r: seq<Str>)
    ensures forall k :: k in r <==> k in keys
    ensures forall i, j :: 0 <= i < j < |r| ==> LexLe(r[i], r[j]) && r[i] != r[j]
  {
    StrOrderIsTotal();
    var r := Ascending(keys, STR_ORDER);
    assert forall i, j :: 0 <= i < j < |r| ==> STR_ORDER(r[i], r[j]) && r[i] != r[j];
    r
  }

  /** The entries of an attribute map in iteration order. */
  function Entries(m: Attrs): seq<(Str, AttrValue)> {
    var keys := AscendingKeys(m.Keys);
    seq(|keys|, i requires 0 <= i < |keys| => assert keys[i] in keys; (keys[i], m[keys[i]]))
  }

  /** Every entry is listed once, and keys ascend. */
  lemma EntriesList(m: Attrs)
    ensures forall i :: 0 <= i < |Entries(m)| ==> Entries(m)[i].0 in m && m[Entries(m)[i].0] == Entries(m)[i].1
    ensures (set i | 0 <= i < |Entries(m)| :: Entries(m)[i].0) == m.Keys
    ensures forall i, j :: 0 <= i < j < |Entries(m)| ==>
      LexLe(Entries(m)[i].0, Entries(m)[j].0) && Entries(m)[i].0 != Entries(m)[j].0
  {
    var keys := AscendingKeys(m.Keys);
    var e := Entries(m);
    assert |e| == |keys| && forall i :: 0 <= i < |keys| ==> keys[i] in keys && e[i] == (keys[i], m[keys[i]]);
    forall k | k in m.Keys ensures k in (set i | 0 <= i < |e| :: e[i].0) {
      var i :| 0 <= i < |keys| && keys[i] == k;
      assert e[i].0 == k;
    }
  }

  /** A map is recovered from its entries, so two maps with the same entries are the same map. */
  lemma EntriesInjective(a: Attrs, b: Attrs)
    requires Entries(a) == Entries(b)
    ensures a == b
  {
    EntriesList(a);
    EntriesList(b);
    assert a.Keys == b.Keys;
    forall k | k in a.Keys ensures a[k] == b[k] {
      var i :| 0 <= i < |Entries(a)| && Entries(a)[i].0 == k;
    }
  }

  // ---- What reading a field comes to ----

  /** An attribute is read from the record's own attributes, whatever the resource holds, and from the resource only if
      the record has none; an integer is read as itself, and neither a boolean nor a text is a number. The reserved name
      and no name stand for the record's value, whatever its attributes. */
  lemma FieldReads(rec: Record, f: Str, i: i64, b: bool, s: Str)
    ensures Numeric(rec, None) == Ok(rec.value) && Numeric(rec, Some(VALUE)) == Ok(rec.value)
    ensures f in rec.attrs ==> Lookup(rec, f) == Some(rec.attrs[f])
    ensures f !in rec.attrs && f in rec.resource ==> Lookup(rec, f) == Some(rec.resource[f])
    ensures f != VALUE ==>
      && Numeric(rec.(attrs := rec.attrs[f := Int(i)]), Some(f)) == Ok(i as real)
      && Numeric(rec.(attrs := rec.attrs[f := Bool(b)]), Some(f)) == Err(Invalid)
      && Numeric(rec.(attrs := rec.attrs[f := Text(s)]), Some(f)) == Err(Invalid)
    ensures f != VALUE && f !in rec.attrs ==>
      && Numeric(rec.(resource := rec.resource[f := Int(i)]), Some(f)) == Ok(i as real)
      && Numeric(rec.(resource := rec.resource - {f}), Some(f)) == Err(Missing)
  {
  }

  lemma {:induction false} Pow2Adds(a: nat, b: nat)
    ensures Pow2(a + b) == Pow2(a) * Pow2(b)
  {
    if a > 0 { Pow2Adds(a - 1, b); }
  }

  lemma Pow2Known()
    ensures Pow2(51) == 2251799813685248.0 && Pow2(52) == 4503599627370496.0 && Pow2(1) == 2.0
  {
    assert Pow2(3) == 8.0;
    Pow2Adds(3, 3);
    Pow2Adds(6, 6);
    Pow2Adds(12, 12);
    Pow2Adds(24, 24);
    Pow2Adds(48, 3);
    Pow2Adds(1, 51);
  }

  /** A normal double by its sign, exponent and fraction. */
  lemma NormalDouble(bits: u64, exponent: nat, fraction: nat)
    requires 0 < exponent < 2048 && fraction < 0x10_0000_0000_0000
    requires bits == exponent * 0x10_0000_0000_0000 + fraction
    ensures DoubleValue(bits) == Scaled((0x10_0000_0000_0000 + fraction) as real, exponent)
    ensures bits + 0x8000_0000_0000_0000 < U64_LIMIT
    ensures DoubleValue(bits + 0x8000_0000_0000_0000) == -Scaled((0x10_0000_0000_0000 + fraction) as real, exponent)
  {
    hide Pow2;
    assert bits / 0x10_0000_0000_0000 == exponent && bits % 0x10_0000_0000_0000 == fraction;
    var top := bits + 0x8000_0000_0000_0000;
    assert top == (exponent + 2048) * 0x10_0000_0000_0000 + fraction;
    assert top / 0x10_0000_0000_0000 == exponent + 2048 && top % 0x10_0000_0000_0000 == fraction;
  }

  /** A mantissa moved by an exponent, which is biased by 1075. */
  function Scaled(mantissa: real, exponent: nat): real {
    if exponent >= 1075 then mantissa * Pow2(exponent - 1075) else mantissa / Pow2(1075 - exponent)
  }

  lemma ScaledDoubles(mantissa: real, exponent: nat)
    ensures Scaled(mantissa, exponent + 1) == 2.0 * Scaled(mantissa, exponent)
  {
    if exponent >= 1075 {
      assert Pow2(exponent + 1 - 1075) == 2.0 * Pow2(exponent - 1075);
      Reassociate(mantissa, 2.0, Pow2(exponent - 1075));
    } else {
      assert Pow2(1075 - exponent) == 2.0 * Pow2(1074 - exponent);
      Halve(mantissa, Pow2(1074 - exponent));
      assert Pow2(0) == 1.0;
    }
  }

  lemma Reassociate(a: real, b: real, c: real)
    ensures a * (b * c) == b * (a * c)
  {
  }

  lemma Halve(a: real, b: real)
    requires b > 0.0
    ensures a / b == 2.0 * (a / (2.0 * b))
  {
    var q := a / (2.0 * b);
    assert q * (2.0 * b) == a;
    assert (2.0 * q) * b == a;
  }

  /** IEEE 754 doubles by some of their patterns: 0, 1, 2.5, -2.5 and 2^53 + 2. */
  lemma KnownDoubles()
    ensures DoubleValue(0) == 0.0
    ensures DoubleValue(0x3ff0_0000_0000_0000) == 1.0
    ensures DoubleValue(0x4004_0000_0000_0000) == 2.5 && DoubleValue(0xc004_0000_0000_0000) == -2.5
    ensures DoubleValue(0x4340_0000_0000_0001) == 9007199254740994.0
  {
    hide DoubleValue, Pow2;
    ZeroDouble();
    Pow2Known();
    NormalDouble(0x3ff0_0000_0000_0000, 1023, 0);
    NormalDouble(0x4004_0000_0000_0000, 1024, 0x4_0000_0000_0000);
    NormalDouble(0x4340_0000_0000_0001, 1076, 1);
  }

  lemma ZeroDouble()
    ensures DoubleValue(0) == 0.0
  {
    hide Pow2;
    ZeroOver(Pow2(1074));
  }

  lemma ZeroOver(p: real)
    requires p > 0.0
    ensures 1.0 * 0.0 / p == 0.0
  {
  }

  /** One more in the exponent is twice the value, and the top bit is the sign, of every normal double. */
  lemma DoubleScales(exponent: nat, fraction: nat)
    requires 0 < exponent < 2047 && fraction < 0x10_0000_0000_0000
    ensures var bits := exponent * 0x10_0000_0000_0000 + fraction;
      && bits + 0x8000_0000_0000_0000 < U64_LIMIT
      && DoubleValue(bits + 0x8000_0000_0000_0000) == -DoubleValue(bits)
      && DoubleValue(bits + 0x10_0000_0000_0000) == 2.0 * DoubleValue(bits)
  {
    hide DoubleValue, Scaled;
    var bits := exponent * 0x10_0000_0000_0000 + fraction;
    NormalDouble(bits, exponent, fraction);
    NormalDouble(bits + 0x10_0000_0000_0000, exponent + 1, fraction);
    ScaledDoubles((0x10_0000_0000_0000 + fraction) as real, exponent);
  }
}
