/** The byte keys of state and routing, and why distinct identities never share one. */
module Keys {
  import opened Wrappers
  import opened Records
  import opened Numbers
  import opened Ordered

  type Bytes = seq<byte>

  /** The `n` low-order bytes of `x`, least significant first. */
  function LittleEndian(x: nat, n: nat): (r: Bytes)
    ensures |r| == n
  {
    if n == 0 then [] else [(x % 256) as byte] + LittleEndian(x / 256, n - 1)
  }

  /** The width of a `u64`, as a function so that proofs do not unroll encodings byte by byte. */
  function WordBytes(): (n: nat)
    ensures n == 8
  {
    8
  }

  function LE64(x: u64): (r: Bytes)
    ensures |r| == 8
  {
    LittleEndian(x, WordBytes())
  }

  /** Two's complement. */
  function SignedBits(i: i64): u64 {
    if i >= 0 then i else i + U64_LIMIT
  }

  function ValueBytes(v: AttrValue): Bytes {
    match v
    case Bool(b) => [1, if b then 1 else 0]
    case Int(i) => [2] + LE64(SignedBits(i))
    case Double(bits) => [3] + LE64(bits)
    case Text(s) => [4] + TextBytes(s)
  }

  /** A group_by field's bytes; an absent field has a tag of its own. */
  function FieldBytes(f: Option<AttrValue>): Bytes {
    if f.None? then [0] else ValueBytes(f.value)
  }

  function AllFieldBytes(fs: seq<Option<AttrValue>>): Bytes {
    if fs == [] then [] else FieldBytes(fs[0]) + AllFieldBytes(fs[1..])
  }

  function TextBytes(s: Str): Bytes {
    LE64(|s|) + s
  }

  function EntryBytes(e: (Str, AttrValue)): Bytes {
    TextBytes(e.0) + ValueBytes(e.1)
  }

  function AllEntryBytes(es: seq<(Str, AttrValue)>): Bytes {
    if es == [] then [] else EntryBytes(es[0]) + AllEntryBytes(es[1..])
  }

  // ---- The keys, as the code builds them ----

  /** A byte vector that key builders append to. */
  class KeyBuffer {
    var bytes: Bytes

    constructor ()
      ensures bytes == []
    {
      bytes := [];
    }

    method Push(b: byte)
      modifies this
      ensures bytes == old(bytes) + [b]
    {
      bytes := bytes + [b];
    }

    method Extend(s: Bytes)
      modifies this
      ensures bytes == old(bytes) + s
    {
      bytes := bytes + s;
    }

    method WriteKeyBytes(v: AttrValue)
      modifies this
      ensures bytes == old(bytes) + ValueBytes(v)
    {
      match v
      case Bool(b) =>
        Push(1);
        Push(if b then 1 else 0);
        assert bytes == old(bytes) + ([1] + [if b then 1 else 0]);
      case Int(i) =>
        Push(2);
        Extend(LE64(SignedBits(i)));
        assert bytes == old(bytes) + ([2] + LE64(SignedBits(i)));
      case Double(bits) =>
        Push(3);
        Extend(LE64(bits));
        assert bytes == old(bytes) + ([3] + LE64(bits));
      case Text(s) =>
        Push(4);
        Extend(LE64(|s|));
        Extend(s);
        assert bytes == old(bytes) + ([4] + TextBytes(s));
    }

    method WriteText(s: Str)
      modifies this
      ensures bytes == old(bytes) + TextBytes(s)
    {
      Extend(LE64(|s|));
      Extend(s);
      Assoc(old(bytes), LE64(|s|), s);
    }

    method WriteSection(mark: byte, m: Attrs)
      modifies this
      ensures bytes == old(bytes) + ([mark] + AllEntryBytes(Entries(m)))
    {
      Push(mark);
      WriteEntries(m);
      Assoc(old(bytes), [mark], AllEntryBytes(Entries(m)));
    }

    method WriteEntries(m: Attrs)
      modifies this
      ensures bytes == old(bytes) + AllEntryBytes(Entries(m))
    {
      var entries := Entries(m);
      for i := 0 to |entries|
        invariant bytes + AllEntryBytes(entries[i..]) == old(bytes) + AllEntryBytes(entries)
      {
        ghost var before := bytes;
        var (key, val) := entries[i];
        WriteText(key);
        WriteKeyBytes(val);
        Assoc(before, TextBytes(key), ValueBytes(val));
        Assoc(before, EntryBytes(entries[i]), AllEntryBytes(entries[i + 1..]));
        assert entries[i..][1..] == entries[i + 1..];
      }
      Empty(bytes);
    }
  }

  function Fields(rec: Record, groupBy: seq<Str>): seq<Option<AttrValue>> {
    seq(|groupBy|, i requires 0 <= i < |groupBy| => Lookup(rec, groupBy[i]))
  }

  /** The routing key of a record. */
  method KeyBytes(rec: Record, groupBy: seq<Str>) returns (key: Bytes)
    ensures key == AllFieldBytes(Fields(rec, groupBy))
  {
    var buf := new KeyBuffer();
    var fields := Fields(rec, groupBy);
    for i := 0 to |groupBy|
      invariant fresh(buf)
      invariant buf.bytes + AllFieldBytes(fields[i..]) == AllFieldBytes(fields)
    {
      ghost var before := buf.bytes;
      match Lookup(rec, groupBy[i]) {
        case None => buf.Push(0);
        case Some(v) => buf.WriteKeyBytes(v);
      }
      assert buf.bytes == before + FieldBytes(fields[i]);
      Assoc(before, FieldBytes(fields[i]), AllFieldBytes(fields[i + 1..]));
      assert fields[i..][1..] == fields[i + 1..];
    }
    Empty(buf.bytes);
    key := buf.bytes;
  }

  function BucketKeyBytes(start: u64, end: u64, labels: Attrs): Bytes {
    LE64(start) + (LE64(end) + AllEntryBytes(Entries(labels)))
  }

  /** The key of a join bucket. */
  method BucketKey(start: u64, end: u64, labels: Attrs) returns (key: Bytes)
    ensures key == BucketKeyBytes(start, end, labels)
  {
    hide AllEntryBytes, Entries, LE64;
    var buf := new KeyBuffer();
    buf.Extend(LE64(start));
    buf.Extend(LE64(end));
    buf.WriteEntries(labels);
    Assoc(LE64(start), LE64(end), AllEntryBytes(Entries(labels)));
    key := buf.bytes;
  }

  /** What identifies a metric series; an absent scope is the empty one. */
  datatype Series = Series(resource: Attrs, scope: Option<Str>, name: Str, attrs: Attrs) {
    function ScopeName(): Str {
      if scope.Some? then scope.value else []
    }
  }

  const RESOURCE_MARK: byte := 114
  const ATTRS_MARK: byte := 97

  function SeriesKeyBytes(s: Series): Bytes {
    TextBytes(s.name) + (TextBytes(s.ScopeName()) + ([RESOURCE_MARK] + SectionsBytes(s.resource, s.attrs)))
  }

  function SectionsBytes(resource: Attrs, attrs: Attrs): Bytes {
    AllEntryBytes(Entries(resource)) + ([ATTRS_MARK] + AllEntryBytes(Entries(attrs)))
  }

  /** The key of a metric series. */
  method SeriesKey(s: Series) returns (key: Bytes)
    ensures key == SeriesKeyBytes(s)
  {
    var buf := new KeyBuffer();
    buf.WriteText(s.name);
    Prepend(TextBytes(s.name));
    buf.WriteText(s.ScopeName());
    ghost var prefix := buf.bytes;
    ghost var r, a :=
      [RESOURCE_MARK] + AllEntryBytes(Entries(s.resource)), [ATTRS_MARK] + AllEntryBytes(Entries(s.attrs));
    var sections := [(RESOURCE_MARK, s.resource), (ATTRS_MARK, s.attrs)];
    for i := 0 to 2
      invariant fresh(buf)
      invariant i == 0 ==> buf.bytes == prefix
      invariant i == 1 ==> buf.bytes == prefix + r
      invariant i == 2 ==> buf.bytes == prefix + r + a
    {
      buf.WriteSection(sections[i].0, sections[i].1);
    }
    key := buf.bytes;
    SectionsInOrder(s);
  }

  lemma SectionsInOrder(s: Series)
    ensures SeriesKeyBytes(s) == TextBytes(s.name) + TextBytes(s.ScopeName())
      + ([RESOURCE_MARK] + AllEntryBytes(Entries(s.resource)))
      + ([ATTRS_MARK] + AllEntryBytes(Entries(s.attrs)))
  {
    GlueSections(TextBytes(s.name), TextBytes(s.ScopeName()), [RESOURCE_MARK], AllEntryBytes(Entries(s.resource)),
                 [ATTRS_MARK] + AllEntryBytes(Entries(s.attrs)));
  }

  lemma GlueSections(n: Bytes, c: Bytes, r: Bytes, rs: Bytes, a: Bytes)
    ensures n + c + (r + rs) + a == n + (c + (r + (rs + a)))
  {
    Assoc(n + c, r + rs, a);
    Assoc(r, rs, a);
    Assoc(n, c, r + (rs + a));
  }

  lemma Empty(a: Bytes)
    ensures a + [] == a
  {
  }

  lemma Assoc(a: Bytes, b: Bytes, c: Bytes)
    ensures a + b + c == a + (b + c)
  {
  }

  // ---- Prefix codes: an encoding followed by anything is decoded one way only ----

  lemma CutPrefix(a: Bytes, r: Bytes, b: Bytes, s: Bytes)
    requires a + r == b + s && |a| == |b|
    ensures a == b && r == s
  {
    assert a == (a + r)[..|a|] && b == (b + s)[..|b|];
    assert r == (a + r)[|a|..] && s == (b + s)[|b|..];
  }

  function Pow256(n: nat): nat {
    if n == 0 then 1 else 256 * Pow256(n - 1)
  }

  lemma {:induction false} LittleEndianInjective(x: nat, y: nat, n: nat)
    requires LittleEndian(x, n) == LittleEndian(y, n)
    requires x < Pow256(n) && y < Pow256(n)
    ensures x == y
  {
    if n > 0 {
      assert LittleEndian(x, n)[0] == LittleEndian(y, n)[0];
      assert LittleEndian(x / 256, n - 1) == LittleEndian(x, n)[1..];
      assert LittleEndian(y / 256, n - 1) == LittleEndian(y, n)[1..];
      LittleEndianInjective(x / 256, y / 256, n - 1);
    }
  }

  lemma LE64Injective(x: u64, y: u64)
    requires LE64(x) == LE64(y)
    ensures x == y
  {
    PowersOf256();
    LittleEndianInjective(x, y, WordBytes());
  }

  lemma TextPrefixFree(a: Str, r: Bytes, b: Str, s: Bytes)
    requires TextBytes(a) + r == TextBytes(b) + s
    ensures a == b && r == s
  {
    Assoc(LE64(|a|), a, r);
    Assoc(LE64(|b|), b, s);
    CutPrefix(LE64(|a|), a + r, LE64(|b|), b + s);
    LE64Injective(|a|, |b|);
    CutPrefix(a, r, b, s);
  }

  lemma FieldPrefixFree(a: Option<AttrValue>, r: Bytes, b: Option<AttrValue>, s: Bytes)
    requires FieldBytes(a) + r == FieldBytes(b) + s
    ensures a == b && r == s
  {
    assert FieldBytes(a)[0] == (FieldBytes(a) + r)[0] == FieldBytes(b)[0];
    if a.None? {
      CutPrefix([0], r, [0], s);
    } else {
      match a.value
      case Bool(_) => CutPrefix(FieldBytes(a), r, FieldBytes(b), s);
        assert FieldBytes(a)[1] == FieldBytes(b)[1];
      case Int(i) =>
        CutPrefix(FieldBytes(a), r, FieldBytes(b), s);
        CutPrefix([2], LE64(SignedBits(i)), [2], LE64(SignedBits(b.value.i)));
        LE64Injective(SignedBits(i), SignedBits(b.value.i));
      case Double(bits) =>
        CutPrefix(FieldBytes(a), r, FieldBytes(b), s);
        CutPrefix([3], LE64(bits), [3], LE64(b.value.bits));
        LE64Injective(bits, b.value.bits);
      case Text(t) =>
        var u := b.value.s;
        Assoc([4], TextBytes(t), r);
        Assoc([4], TextBytes(u), s);
        CutPrefix([4], TextBytes(t) + r, [4], TextBytes(u) + s);
        TextPrefixFree(t, r, u, s);
    }
  }

  /** Field lists of one length have equal bytes only when they are equal. */
  lemma {:induction false} AllFieldBytesInjective(a: seq<Option<AttrValue>>, b: seq<Option<AttrValue>>)
    requires |a| == |b| && AllFieldBytes(a) == AllFieldBytes(b)
    ensures a == b
  {
    if a != [] {
      FieldPrefixFree(a[0], AllFieldBytes(a[1..]), b[0], AllFieldBytes(b[1..]));
      AllFieldBytesInjective(a[1..], b[1..]);
      assert a == [a[0]] + a[1..] && b == [b[0]] + b[1..];
    }
  }

  lemma EntryPrefixFree(a: (Str, AttrValue), r: Bytes, b: (Str, AttrValue), s: Bytes)
    requires EntryBytes(a) + r == EntryBytes(b) + s
    ensures a == b && r == s
  {
    Assoc(TextBytes(a.0), ValueBytes(a.1), r);
    Assoc(TextBytes(b.0), ValueBytes(b.1), s);
    TextPrefixFree(a.0, ValueBytes(a.1) + r, b.0, ValueBytes(b.1) + s);
    FieldPrefixFree(Some(a.1), r, Some(b.1), s);
  }

  lemma {:induction false} AllEntryBytesInjective(a: seq<(Str, AttrValue)>, b: seq<(Str, AttrValue)>)
    requires AllEntryBytes(a) == AllEntryBytes(b)
    ensures a == b
  {
    if a != [] && b != [] {
      EntryPrefixFree(a[0], AllEntryBytes(a[1..]), b[0], AllEntryBytes(b[1..]));
      AllEntryBytesInjective(a[1..], b[1..]);
      assert a == [a[0]] + a[1..] && b == [b[0]] + b[1..];
    } else {
    }
  }

  /** Buckets of different windows or different labels never share a key. */
  lemma BucketKeyInjective(s0: u64, e0: u64, l0: Attrs, s1: u64, e1: u64, l1: Attrs)
    requires BucketKeyBytes(s0, e0, l0) == BucketKeyBytes(s1, e1, l1)
    ensures s0 == s1 && e0 == e1 && l0 == l1
  {
    var t0, t1 := AllEntryBytes(Entries(l0)), AllEntryBytes(Entries(l1));
    CutPrefix(LE64(s0), LE64(e0) + t0, LE64(s1), LE64(e1) + t1);
    CutPrefix(LE64(e0), t0, LE64(e1), t1);
    LE64Injective(s0, s1);
    LE64Injective(e0, e1);
    AllEntryBytesInjective(Entries(l0), Entries(l1));
    EntriesInjective(l0, l1);
  }

  // ---- Series keys: no entry count is written, so a resource key can imitate the mark ----

  /** A resource key whose length bytes begin like the attribute mark and which goes on with NUL. */
  predicate ImitatesMark(key: Str) {
    |key| % 256 == ATTRS_MARK as int && key[0] == 0
  }

  predicate UnambiguousSeries(s: Series) {
    && (forall k :: k in s.resource ==> !ImitatesMark(k))
    && (forall k :: k in s.attrs ==> |k| < 0x100_0000_0000_0000)
  }

  /** The first and the last byte of an encoded length. */
  lemma LE64Split(x: u64)
    ensures LE64(x) == [(x % 256) as byte] + LittleEndian(x / 256, WordBytes() - 1)
    ensures LE64(x) == LittleEndian(x, WordBytes() - 1) + [(x / 0x100_0000_0000_0000) as byte]
  {
    hide LittleEndian, Pow256;
    FirstByte(x, WordBytes());
    LittleEndianSplit(x, WordBytes() - 1);
    PowersOf256();
    TopByte(x);
  }

  lemma FirstByte(x: nat, n: nat)
    requires n > 0
    ensures LittleEndian(x, n) == [(x % 256) as byte] + LittleEndian(x / 256, n - 1)
  {
  }

  lemma TopByte(x: u64)
    ensures x / 0x100_0000_0000_0000 % 256 == x / 0x100_0000_0000_0000
  {
  }

  lemma PowersOf256()
    ensures Pow256(WordBytes() - 1) == 0x100_0000_0000_0000
    ensures Pow256(WordBytes()) == U64_LIMIT
  {
    assert Pow256(3) == 256 * (256 * (256 * Pow256(0)));
    assert Pow256(6) == 256 * (256 * (256 * Pow256(3)));
    assert Pow256(7) == 256 * Pow256(6);
    assert Pow256(8) == 256 * Pow256(7);
  }

  lemma {:induction false} LittleEndianSplit(x: nat, n: nat)
    ensures Pow256(n) > 0
    ensures LittleEndian(x, n + 1) == LittleEndian(x, n) + [(x / Pow256(n) % 256) as byte]
  {
    if n > 0 {
      LittleEndianSplit(x / 256, n - 1);
      DivDiv(x, Pow256(n - 1));
      assert x / 256 / Pow256(n - 1) == x / Pow256(n);
    } else {
      assert LittleEndian(x, 1) == [(x % 256) as byte] + LittleEndian(x / 256, 0);
    }
  }

  lemma DivDiv(x: nat, p: nat)
    requires p > 0
    ensures x / 256 / p == x / (256 * p)
  {
    var q := x / 256 / p;
    assert q * p <= x / 256 < q * p + p;
    assert q * (256 * p) == 256 * (q * p);
    DivideUnique(x, 256 * p, q, x - 256 * (q * p));
  }

  /** The attribute mark and what follows is never an unambiguous resource entry. */
  lemma MarkIsNoEntry(e: (Str, AttrValue), r: Bytes, attrs: Attrs)
    requires !ImitatesMark(e.0)
    requires forall k :: k in attrs ==> |k| < 0x100_0000_0000_0000
    ensures EntryBytes(e) + r != [ATTRS_MARK] + AllEntryBytes(Entries(attrs))
  {
    var es := Entries(attrs);
    EntriesList(attrs);
    Assoc(TextBytes(e.0), ValueBytes(e.1), r);
    TextIsNoMark(e.0, ValueBytes(e.1) + r, es);
  }

  lemma TextIsNoMark(key: Str, rest: Bytes, es: seq<(Str, AttrValue)>)
    requires rest != [] && !ImitatesMark(key)
    requires es != [] ==> |es[0].0| < 0x100_0000_0000_0000
    ensures TextBytes(key) + rest != [ATTRS_MARK] + AllEntryBytes(es)
  {
    hide LE64, LittleEndian, EntryBytes, TextBytes;
    var x := TextBytes(key) + rest;
    TextHead(key, rest);
    if es != [] {
      LeadingLength(es);
      var y := AllEntryBytes(es);
      assert ([ATTRS_MARK] + y)[8] == y[7] == 0;
    }
  }

  lemma TextHead(key: Str, rest: Bytes)
    requires rest != []
    ensures var x := TextBytes(key) + rest;
      |x| >= 9 && x[0] == (|key| % 256) as byte && (key != [] ==> x[8] == key[0])
  {
    LE64Split(|key|);
    Assoc(LE64(|key|), key, rest);
  }

  /** The eighth byte of an entry list is the high byte of the first key's length. */
  lemma LeadingLength(es: seq<(Str, AttrValue)>)
    requires es != []
    ensures |AllEntryBytes(es)| > 7 && AllEntryBytes(es)[7] == (|es[0].0| / 0x100_0000_0000_0000) as byte
  {
    var (key, val) := es[0];
    LE64Split(|key|);
    assert LE64(|key|)[7] == (|key| / 0x100_0000_0000_0000) as byte;
    Assoc(LE64(|key|), key, ValueBytes(val));
    Assoc(LE64(|key|), key + ValueBytes(val), AllEntryBytes(es[1..]));
  }

  lemma {:induction false} SectionsInjective(a: seq<(Str, AttrValue)>, am: Attrs, b: seq<(Str, AttrValue)>, bm: Attrs)
    requires forall i :: 0 <= i < |a| ==> !ImitatesMark(a[i].0)
    requires forall i :: 0 <= i < |b| ==> !ImitatesMark(b[i].0)
    requires forall k :: k in am ==> |k| < 0x100_0000_0000_0000
    requires forall k :: k in bm ==> |k| < 0x100_0000_0000_0000
    requires AllEntryBytes(a) + ([ATTRS_MARK] + AllEntryBytes(Entries(am)))
          == AllEntryBytes(b) + ([ATTRS_MARK] + AllEntryBytes(Entries(bm)))
    ensures a == b && am == bm
  {
    hide Entries, EntryBytes;
    var x := [ATTRS_MARK] + AllEntryBytes(Entries(am));
    var y := [ATTRS_MARK] + AllEntryBytes(Entries(bm));
    if a == [] && b == [] {
      assert AllEntryBytes(a) + x == x && AllEntryBytes(b) + y == y;
      CutPrefix([ATTRS_MARK], AllEntryBytes(Entries(am)), [ATTRS_MARK], AllEntryBytes(Entries(bm)));
      AllEntryBytesInjective(Entries(am), Entries(bm));
      EntriesInjective(am, bm);
    } else if a == [] {
      Assoc(EntryBytes(b[0]), AllEntryBytes(b[1..]), y);
      assert AllEntryBytes(a) + x == x;
      MarkIsNoEntry(b[0], AllEntryBytes(b[1..]) + y, am);
    } else if b == [] {
      Assoc(EntryBytes(a[0]), AllEntryBytes(a[1..]), x);
      assert AllEntryBytes(b) + y == y;
      MarkIsNoEntry(a[0], AllEntryBytes(a[1..]) + x, bm);
    } else {
      Assoc(EntryBytes(a[0]), AllEntryBytes(a[1..]), x);
      Assoc(EntryBytes(b[0]), AllEntryBytes(b[1..]), y);
      EntryPrefixFree(a[0], AllEntryBytes(a[1..]) + x, b[0], AllEntryBytes(b[1..]) + y);
      SectionsInjective(a[1..], am, b[1..], bm);
      assert a == [a[0]] + a[1..] && b == [b[0]] + b[1..];
    }
  }

  /** Two unambiguous series share a key only when they are the same series. */
  lemma SeriesKeyInjective(a: Series, b: Series)
    requires UnambiguousSeries(a) && UnambiguousSeries(b)
    requires SeriesKeyBytes(a) == SeriesKeyBytes(b)
    ensures a.name == b.name && a.ScopeName() == b.ScopeName() && a.resource == b.resource && a.attrs == b.attrs
  {
    hide AllEntryBytes, Entries;
    var ta := [RESOURCE_MARK] + SectionsBytes(a.resource, a.attrs);
    var tb := [RESOURCE_MARK] + SectionsBytes(b.resource, b.attrs);
    TextPrefixFree(a.name, TextBytes(a.ScopeName()) + ta, b.name, TextBytes(b.ScopeName()) + tb);
    TextPrefixFree(a.ScopeName(), ta, b.ScopeName(), tb);
    CutPrefix([RESOURCE_MARK], SectionsBytes(a.resource, a.attrs), [RESOURCE_MARK], SectionsBytes(b.resource, b.attrs));
    EntriesList(a.resource);
    EntriesList(b.resource);
    SectionsInjective(Entries(a.resource), a.attrs, Entries(b.resource), b.attrs);
    EntriesInjective(a.resource, b.resource);
  }

  lemma EntriesOne(k: Str, v: AttrValue)
    ensures Entries(map[k := v]) == [(k, v)]
  {
    StrOrderIsTotal();
    AscendingUnique(AscendingKeys({k}), [k], STR_ORDER);
    assert map[k := v].Keys == {k};
  }

  lemma EntriesTwo(k: Str, v: AttrValue, l: Str, w: AttrValue)
    requires LexLe(k, l) && k != l
    ensures Entries(map[k := v, l := w]) == [(k, v), (l, w)]
  {
    StrOrderIsTotal();
    assert STR_ORDER(k, l);
    AscendingUnique(AscendingKeys({k, l}), [k, l], STR_ORDER);
    assert map[k := v, l := w].Keys == {k, l};
  }

  lemma EntryBytesOfTwo(a: (Str, AttrValue), b: (Str, AttrValue))
    ensures AllEntryBytes([a]) == EntryBytes(a)
    ensures AllEntryBytes([a, b]) == EntryBytes(a) + EntryBytes(b)
  {
    hide EntryBytes;
    EntryBytesOfOne(a);
    EntryBytesOfOne(b);
    assert [a, b][1..] == [b];
  }

  lemma EntryBytesOfOne(a: (Str, AttrValue))
    ensures AllEntryBytes([a]) == EntryBytes(a)
  {
    hide EntryBytes;
    assert [a][1..] == [];
    Empty(EntryBytes(a));
  }

  // ---- Lengths whose bytes are all ASCII ----

  predicate Ascii(s: Bytes) {
    forall i :: 0 <= i < |s| ==> s[i] < 128
  }

  ghost predicate AsciiAttrs(m: Attrs) {
    forall k :: k in m ==> Ascii(k) && (m[k].Text? ==> Ascii(m[k].s))
  }

  /** One of three numbers that add up to `x` byte by byte; `r` says which. */
  function Third(x: nat, n: nat, r: nat): nat {
    if n == 0 then 0 else (x % 256 + r) / 3 + 256 * Third(x / 256, n - 1, r)
  }

  lemma {:induction false} ThirdsAddUp(x: nat, n: nat)
    requires x < Pow256(n)
    ensures Third(x, n, 0) + Third(x, n, 1) + Third(x, n, 2) == x
    ensures 3 * Third(x, n, 2) >= x
  {
    if n > 0 {
      ThirdsAddUp(x / 256, n - 1);
      DigitThirds(x % 256);
    }
  }

  lemma DigitThirds(d: nat)
    requires d < 256
    ensures d / 3 + (d + 1) / 3 + (d + 2) / 3 == d && 3 * ((d + 2) / 3) >= d
    ensures d / 3 <= 85 && (d + 1) / 3 <= 85 && (d + 2) / 3 <= 85
  {
  }

  lemma Digit(d: nat, rest: nat)
    requires d < 256
    ensures (d + 256 * rest) % 256 == d && (d + 256 * rest) / 256 == rest
  {
  }

  lemma {:induction false} ThirdIsAscii(x: nat, n: nat, r: nat)
    requires r <= 2
    ensures Ascii(LittleEndian(Third(x, n, r), n))
    ensures Third(x, n, r) % 256 <= 85
  {
    if n > 0 {
      ThirdIsAscii(x / 256, n - 1, r);
      DigitThirds(x % 256);
      assert r == 0 || r == 1 || r == 2;
      Digit((x % 256 + r) / 3, Third(x / 256, n - 1, r));
      FirstByte(Third(x, n, r), n);
      AsciiConcat([((x % 256 + r) / 3) as byte], LittleEndian(Third(x / 256, n - 1, r), n - 1));
    }
  }

  /** Adding one to a length with a small low byte leaves it ASCII. */
  lemma NextIsAscii(x: nat, n: nat)
    requires n > 0 && x % 256 < 127 && Ascii(LittleEndian(x, n))
    ensures Ascii(LittleEndian(x + 1, n))
  {
    FirstByte(x, n);
    FirstByte(x + 1, n);
    assert (x + 1) / 256 == x / 256;
    var was, now := LittleEndian(x, n), LittleEndian(x + 1, n);
    assert was[1..] == LittleEndian(x / 256, n - 1) == now[1..];
    forall i | 0 <= i < |now| ensures now[i] < 128 {
      if i > 0 { assert now[i] == now[1..][i - 1] == was[1..][i - 1] == was[i]; }
    }
  }

  lemma AsciiConcat(a: Bytes, b: Bytes)
    requires Ascii(a) && Ascii(b)
    ensures Ascii(a + b)
  {
  }

  // ---- The collision ----

  /** What the imitating key hides: the first attribute's value, the second's name, and the second's value up to
      the bytes that really belong to the key's own value and to the mark. */
  datatype Hidden = Hidden(attr: Str, first: Str, second: Str, tail: Str) {
    function LastText(): Bytes {
      tail + ([1, 1] + [ATTRS_MARK])
    }

    predicate Fits() {
      |LastText()| < 0x8000_0000_0000_0000
    }

    function SecondEntryStart(): Bytes
      requires Fits()
    {
      TextBytes(second) + ([4] + LE64(|LastText()|))
    }

    function Rest(): Bytes
      requires Fits()
    {
      attr + (([4] + TextBytes(first)) + (SecondEntryStart() + tail))
    }

    function Attributes(): Attrs
      requires Fits()
    {
      map[attr := Text(first), second := Text(LastText())]
    }
  }

  /** Lengths for the hidden parts that fill the key exactly and whose bytes are all ASCII. */
  lemma HiddenParts(m: nat) returns (h: Hidden)
    requires m < 0x1_0000_0000_0000
    ensures h.Fits() && |h.attr| == m && |h.Rest()| == 96 + 256 * m
    ensures LexLe(h.attr, h.second) && h.attr != h.second
    ensures Ascii(h.Rest()) && AsciiAttrs(h.Attributes())
    ensures forall k :: k in h.Attributes() ==> |k| < 0x100_0000_0000_0000
  {
    hide LittleEndian, Third, Pow256, LE64;
    var x, n := 72 + 255 * m, WordBytes();
    PowersOf256();
    ThirdsAddUp(x, n);
    var (a, b, c) := (Third(x, n, 0), Third(x, n, 1), Third(x, n, 2));
    ThirdIsAscii(x, n, 0);
    ThirdIsAscii(x, n, 1);
    ThirdIsAscii(x, n, 2);
    NextIsAscii(b, n);
    h := Hidden(Filler(0, m), Filler(0, a), Filler(97, b + 1), Filler(0, c - 3));
    LE64Is(a);
    LE64Is(b + 1);
    LE64Is(c);
    HiddenIsAscii(h);
  }

  function Filler(x: byte, n: nat): (r: Bytes)
    ensures |r| == n && forall i :: 0 <= i < n ==> r[i] == x
  {
    seq(n, _ => x)
  }

  lemma LE64Is(x: u64)
    ensures LE64(x) == LittleEndian(x, WordBytes())
  {
  }

  lemma HiddenIsAscii(h: Hidden)
    requires h.Fits() && Ascii(h.attr) && Ascii(h.first) && Ascii(h.second) && Ascii(h.tail)
    requires Ascii(LE64(|h.first|)) && Ascii(LE64(|h.second|)) && Ascii(LE64(|h.LastText()|))
    ensures Ascii(h.Rest()) && AsciiAttrs(h.Attributes())
  {
    hide Ascii, LE64;
    assert Ascii([4]) && Ascii([1, 1] + [ATTRS_MARK]) by { SmallAscii(); }
    AsciiConcat(LE64(|h.first|), h.first);
    AsciiConcat([4], TextBytes(h.first));
    AsciiConcat(LE64(|h.second|), h.second);
    AsciiConcat([4], LE64(|h.LastText()|));
    AsciiConcat(TextBytes(h.second), [4] + LE64(|h.LastText()|));
    AsciiConcat(h.SecondEntryStart(), h.tail);
    AsciiConcat([4] + TextBytes(h.first), h.SecondEntryStart() + h.tail);
    AsciiConcat(h.attr, ([4] + TextBytes(h.first)) + (h.SecondEntryStart() + h.tail));
    AsciiConcat(h.tail, [1, 1] + [ATTRS_MARK]);
  }

  lemma SmallAscii()
    ensures Ascii([4]) && Ascii([1, 1] + [ATTRS_MARK])
  {
  }

  /** For every length the mark can be imitated with, some key of that length, NUL followed by ASCII, makes a series
      share its key with a different series, whose texts are ASCII too. */
  lemma SeriesKeyCollision(m: nat, name: Str, scope: Option<Str>) returns (a: Series, b: Series, key: Str)
    requires m < 0x1_0000_0000_0000
    ensures |key| == 97 + 256 * m && ImitatesMark(key)
    ensures a == Series(map[key := Bool(true)], scope, name, map[]) && AsciiAttrs(a.resource)
    ensures b == Series(map[], scope, name, b.attrs) && AsciiAttrs(b.attrs)
    ensures forall k :: k in b.attrs ==> |k| < 0x100_0000_0000_0000
    ensures a != b && SeriesKeyBytes(a) == SeriesKeyBytes(b)
  {
    hide AsciiAttrs, SectionsBytes, Ascii, LexLe, Hidden.Rest, Hidden.Attributes;
    var h := HiddenParts(m);
    key := [0] + h.Rest();
    a := Series(map[key := Bool(true)], scope, name, map[]);
    b := Series(map[], scope, name, h.Attributes());
    assert key in a.resource && key !in b.resource;
    KeyIsAscii(h.Rest());
    CollidingSections(m, key, h);
  }

  /** The same series, an absent scope being the empty one. */
  predicate SameSeries(a: Series, b: Series) {
    a.name == b.name && a.ScopeName() == b.ScopeName() && a.resource == b.resource && a.attrs == b.attrs
  }

  /** Every resource key is empty or of a length and with a first byte that `ok` admits. */
  ghost predicate Admitted(ok: (nat, byte) -> bool, s: Series) {
    && (forall k :: k in s.resource && k != [] ==> ok(|k|, k[0]))
    && (forall k :: k in s.attrs ==> |k| < 0x100_0000_0000_0000)
  }

  ghost predicate TellsApart(ok: (nat, byte) -> bool) {
    forall a, b :: Admitted(ok, a) && Admitted(ok, b) && SeriesKeyBytes(a) == SeriesKeyBytes(b) ==> SameSeries(a, b)
  }

  /** Whatever lengths below 2^56 and first bytes are admitted in resource keys, series are told apart by their keys
      exactly if no key that starts with NUL has a length of 97 modulo 256. */
  lemma TellsApartIff(ok: (nat, byte) -> bool)
    requires forall l: nat, x :: ok(l, x) ==> l < 0x100_0000_0000_0000
    ensures TellsApart(ok) <==> forall l: nat :: ok(l, 0) ==> l % 256 != ATTRS_MARK as int
  {
    hide SeriesKeyBytes, AsciiAttrs;
    if forall l: nat :: ok(l, 0) ==> l % 256 != ATTRS_MARK as int {
      forall a, b | Admitted(ok, a) && Admitted(ok, b) && SeriesKeyBytes(a) == SeriesKeyBytes(b)
        ensures SameSeries(a, b)
      {
        SeriesKeyInjective(a, b);
      }
    }
    if l: nat :| ok(l, 0) && l % 256 == ATTRS_MARK as int {
      var a, b, key := SeriesKeyCollision(l / 256, [], None);
      assert |key| == l && Admitted(ok, a) && Admitted(ok, b);
      assert key in a.resource && key !in b.resource;
    }
  }

  lemma KeyIsAscii(rest: Bytes)
    requires Ascii(rest) && |rest| < 0x7000_0000_0000_0000
    ensures AsciiAttrs(map[[0] + rest := Bool(true)])
  {
  }

  lemma CollidingSections(m: nat, key: Str, h: Hidden)
    requires m < 0x1_0000_0000_0000 && h.Fits() && |h.attr| == m && LexLe(h.attr, h.second) && h.attr != h.second
    requires key == [0] + h.Rest() && |key| == 97 + 256 * m
    ensures SectionsBytes(map[key := Bool(true)], map[]) == SectionsBytes(map[], h.Attributes())
  {
    hide LE64, LittleEndian, Entries, AllEntryBytes, LexLe;
    var word := LittleEndian(m, WordBytes() - 1);
    CollidingLengths(m, key);
    EntriesOne(key, Bool(true));
    EntriesTwo(h.attr, Text(h.first), h.second, Text(h.LastText()));
    var (e, f) := ((h.attr, Text(h.first)), (h.second, Text(h.LastText())));
    EntryBytesOfTwo((key, Bool(true)), e);
    EntryBytesOfTwo(e, f);
    NoEntries();
    Empty([ATTRS_MARK]);
    Prepend([ATTRS_MARK] + (EntryBytes(e) + EntryBytes(f)));
    Regroup(word, h.attr, [4] + TextBytes(h.first), TextBytes(h.second), LE64(|h.LastText()|), h.tail);
  }

  lemma NoEntries()
    ensures AllEntryBytes(Entries(map[])) == []
  {
    assert Entries(map[]) == [];
  }

  /** The same bytes, read as one resource entry and the mark, and as the mark and two attributes. */
  lemma Regroup(word: Bytes, attr: Bytes, value: Bytes, second: Bytes, len: Bytes, tail: Bytes)
    ensures [97] + word + ([0] + (attr + (value + ((second + ([4] + len)) + tail)))) + [1, 1] + [97]
         == [97] + (((word + [0] + attr) + value) + (second + ([4] + (len + (tail + ([1, 1] + [97]))))))
  {
    var v, mark: Bytes := [1, 1], [97];
    var end := v + mark;
    var inner := (second + ([4] + len)) + tail;
    Assoc(mark + word + ([0] + (attr + (value + inner))), v, mark);
    Assoc(mark + word, [0] + (attr + (value + inner)), end);
    Assoc(mark, word, ([0] + (attr + (value + inner))) + end);
    Assoc([0], attr + (value + inner), end);
    Assoc(attr, value + inner, end);
    Assoc(value, inner, end);
    Assoc(second + ([4] + len), tail, end);
    Assoc(second, [4] + len, tail + end);
    Assoc([4], len, tail + end);
    var rest := second + ([4] + (len + (tail + end)));
    Assoc(word + [0] + attr, value, rest);
    Assoc(word + [0], attr, value + rest);
    Assoc(word, [0], attr + (value + rest));
  }

  lemma Prepend(a: Bytes)
    ensures [] + a == a
  {
  }

  lemma CollidingLengths(m: nat, key: Str)
    requires m < 0x1_0000_0000_0000 && |key| == 97 + 256 * m
    ensures LE64(|key|) == [97] + LittleEndian(m, WordBytes() - 1)
    ensures LE64(m) == LittleEndian(m, WordBytes() - 1) + [0]
  {
    hide LittleEndian;
    LE64Split(|key|);
    LE64Split(m);
    Digit(97, m);
  }

  // ---- The encodings, as bytes ----

  /** Tags and byte order: an absent field, the two booleans, an integer and a negative one in two's complement, a
      double's pattern and a text behind its length. */
  lemma KnownEncodings()
    ensures FieldBytes(None) == [0]
    ensures ValueBytes(Bool(false)) == [1, 0] && ValueBytes(Bool(true)) == [1, 1]
    ensures ValueBytes(Int(258)) == [2, 2, 1, 0, 0, 0, 0, 0, 0]
    ensures ValueBytes(Int(-2)) == [2, 254, 255, 255, 255, 255, 255, 255, 255]
    ensures ValueBytes(Double(0x3ff0_0000_0000_0000)) == [3, 0, 0, 0, 0, 0, 0, 240, 63]
    ensures ValueBytes(Text([97, 98])) == [4, 2, 0, 0, 0, 0, 0, 0, 0, 97, 98]
  {
    hide LE64, LittleEndian;
    TagAndWord(2, 258, [2, 1, 0, 0, 0, 0, 0, 0]) by { WordOf258(); }
    TagAndWord(2, U64_LIMIT - 2, [254, 255, 255, 255, 255, 255, 255, 255]) by { WordOfMinusTwo(); }
    TagAndWord(3, 0x3ff0_0000_0000_0000, [0, 0, 0, 0, 0, 0, 240, 63]) by { WordOfOne(); }
    TagAndWord(4, 2, [2, 0, 0, 0, 0, 0, 0, 0]) by { WordOfTwo(); }
  }

  lemma TagAndWord(tag: byte, x: u64, word: Bytes)
    requires LE64(x) == word && |word| == 8
    ensures [tag] + LE64(x) == [tag, word[0], word[1], word[2], word[3], word[4], word[5], word[6], word[7]]
  {
  }

  lemma WordOf258()
    ensures LE64(258) == [2, 1, 0, 0, 0, 0, 0, 0]
  {
    hide LE64;
    EightBytes(258, 2, 1, 0, 0, 0, 0, 0, 0);
  }

  lemma WordOfMinusTwo()
    ensures LE64(U64_LIMIT - 2) == [254, 255, 255, 255, 255, 255, 255, 255]
  {
    hide LE64;
    EightBytes(U64_LIMIT - 2, 254, 255, 255, 255, 255, 255, 255, 255);
  }

  lemma WordOfOne()
    ensures LE64(0x3ff0_0000_0000_0000) == [0, 0, 0, 0, 0, 0, 240, 63]
  {
    hide LE64;
    EightBytes(0x3ff0_0000_0000_0000, 0, 0, 0, 0, 0, 0, 240, 63);
  }

  lemma WordOfTwo()
    ensures LE64(2) == [2, 0, 0, 0, 0, 0, 0, 0]
  {
    hide LE64;
    EightBytes(2, 2, 0, 0, 0, 0, 0, 0, 0);
  }

  lemma EightBytes(x: u64, a: byte, b: byte, c: byte, d: byte, e: byte, f: byte, g: byte, h: byte)
    requires x == a as nat + 256 * (b as nat + 256 * (c as nat + 256 * (d as nat + 256 * (e as nat + 256 *
      (f as nat + 256 * (g as nat + 256 * h as nat))))))
    ensures LE64(x) == [a, b, c, d, e, f, g, h]
  {
    hide LittleEndian;
    var x7: nat := h as nat;
    var x6: nat := g as nat + 256 * x7;
    var x5: nat := f as nat + 256 * x6;
    var x4: nat := e as nat + 256 * x5;
    var x3: nat := d as nat + 256 * x4;
    var x2: nat := c as nat + 256 * x3;
    var x1: nat := b as nat + 256 * x2;
    NextByte(a, x1, 7);
    NextByte(b, x2, 6);
    NextByte(c, x3, 5);
    NextByte(d, x4, 4);
    NextByte(e, x5, 3);
    NextByte(f, x6, 2);
    NextByte(g, x7, 1);
    NextByte(h, 0, 0);
    NoBytes();
  }

  lemma NoBytes()
    ensures LittleEndian(0, 0) == []
  {
  }

  lemma NextByte(b: byte, rest: nat, n: nat)
    ensures LittleEndian(b as nat + 256 * rest, n + 1) == [b] + LittleEndian(rest, n)
  {
    var x := b as nat + 256 * rest;
    assert x % 256 == b as nat && x / 256 == rest;
  }
}
