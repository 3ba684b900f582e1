/** Where a record goes: keys, partitions and owners, and why N workers together are one window. */
module Routing {
  import opened Wrappers
  import opened Numbers
  import opened Records
  import opened Keys
  import opened Tallies
  import opened WindowModel
  import opened WindowTheory
  import opened WindowRuns

  type u32 = x: nat | x < 0x1_0000_0000

  datatype PartitionError = NoPartitions | NoWorkers | IndexOutOfRange | MoreWorkersThanPartitions

  datatype PartitionConfig = PartitionConfig(partitions: u32, workers: u32, index: u32) {
    function Validate(): (r: Result<(), PartitionError>)
      ensures r.Ok? <==> 1 <= workers <= partitions && index < workers
      ensures r == Err(NoPartitions) <==> partitions == 0
      ensures r == Err(MoreWorkersThanPartitions) <==> 0 < partitions < workers && index < workers
    {
      if partitions == 0 then Err(NoPartitions)
      else if workers == 0 then Err(NoWorkers)
      else if index >= workers then Err(IndexOutOfRange)
      else if workers > partitions then Err(MoreWorkersThanPartitions)
      else Ok(())
    }

    /** The partitions this worker owns, ascending. */
    function Owned(): (owned: seq<u32>)
      requires workers > 0
    {
      OwnedBelow(partitions)
    }

    function OwnedBelow(n: u32): (owned: seq<u32>)
      requires workers > 0
      ensures forall p: u32 :: p in owned <==> p < n && p % workers == index
    {
      if n == 0 then []
      else OwnedBelow(n - 1) + (if (n - 1) % workers == index then [n - 1] else [])
    }
  }

  /** Over the workers of one valid shape, every partition has exactly one owner and no worker is idle. */
  lemma OwnersPartition(c: PartitionConfig, p: u32)
    requires c.Validate().Ok? && p < c.partitions
    ensures forall i: u32 :: i < c.workers ==> (p in c.(index := i).Owned() <==> i == p % c.workers)
    ensures forall i: u32 :: i < c.workers ==> i in c.(index := i).Owned()
  {
    forall i: u32 | i < c.workers ensures i in c.(index := i).Owned() {
      DivideUnique(i, c.workers, 0, i);
    }
  }

  // ---- The partition of a key: FNV-1a, 64 bits, wrapping ----

  const FNV_OFFSET: u64 := 0xcbf2_9ce4_8422_2325
  const FNV_PRIME: nat := 0x100_0000_01b3

  /** Exclusive or of the `n` low-order bits. */
  function XorBits(a: nat, b: nat, n: nat): nat {
    if n == 0 then 0 else (if a % 2 == b % 2 then 0 else 1) + 2 * XorBits(a / 2, b / 2, n - 1)
  }

  /** Exclusive or with a byte, which touches the low-order byte only. */
  function XorByte(h: u64, b: byte): (r: nat) {
    h - h % 256 + XorBits(h % 256, b as nat, 8)
  }

  function Fnv(key: Bytes): u64 {
    if key == [] then FNV_OFFSET else FnvStep(Fnv(key[..|key| - 1]), key[|key| - 1])
  }

  function FnvStep(h: u64, b: byte): u64 {
    XorByte(h, b) * FNV_PRIME % U64_LIMIT
  }

  lemma FnvSnoc(key: Bytes, i: nat)
    requires i < |key|
    ensures Fnv(key[..i + 1]) == FnvStep(Fnv(key[..i]), key[i])
  {
    hide FnvStep;
    assert key[..i + 1][..i] == key[..i];
  }

  function PartitionOf(key: Bytes, partitions: u32): (p: u32)
    requires partitions > 0
    ensures p < partitions
  {
    Fnv(key) % partitions
  }

  method Partition(key: Bytes, partitions: u32) returns (p: u32)
    requires partitions > 0
    ensures p == PartitionOf(key, partitions)
  {
    hide FnvStep;
    var h := FNV_OFFSET;
    for i := 0 to |key|
      invariant h == Fnv(key[..i])
    {
      FnvSnoc(key, i);
      h := FnvStep(h, key[i]);
    }
    assert key[..|key|] == key;
    p := h % partitions;
  }

  lemma {:induction false} XorBitsFits(a: nat, b: nat, n: nat)
    ensures XorBits(a, b, n) < Pow2Nat(n)
  {
    if n > 0 { XorBitsFits(a / 2, b / 2, n - 1); }
  }

  function Pow2Nat(n: nat): nat {
    if n == 0 then 1 else 2 * Pow2Nat(n - 1)
  }

  lemma {:induction false} XorBitsInjective(a: nat, b: nat, c: nat, n: nat)
    requires b < Pow2Nat(n) && c < Pow2Nat(n) && XorBits(a, b, n) == XorBits(a, c, n)
    ensures b == c
  {
    if n > 0 { XorBitsInjective(a / 2, b / 2, c / 2, n - 1); }
  }

  lemma XorByteFits(h: u64, b: byte)
    ensures h - h % 256 <= XorByte(h, b) < h - h % 256 + 256 && XorByte(h, b) < U64_LIMIT
  {
    hide XorBits;
    XorBitsFits(h % 256, b as nat, 8);
    assert Pow2Nat(8) == 256 by { assert Pow2Nat(4) == 16; }
    var q := h / 256;
    assert h - h % 256 == 256 * q && q < 0x100_0000_0000_0000;
  }

  /** Multiplying by the prime, modulo 2^64, loses nothing: the prime has an inverse. */
  lemma PrimeInvertible(x: u64, y: u64)
    requires x * FNV_PRIME % U64_LIMIT == y * FNV_PRIME % U64_LIMIT
    ensures x == y
  {
    var a, b := x * FNV_PRIME / U64_LIMIT, y * FNV_PRIME / U64_LIMIT;
    Inverted(x - y, a - b);
  }

  lemma Inverted(d: int, k: int)
    requires d * 0x100_0000_01b3 == k * 0x1_0000_0000_0000_0000
    requires -0x1_0000_0000_0000_0000 < d < 0x1_0000_0000_0000_0000
    ensures d == 0
  {
    assert 0x100_0000_01b3 * 0xce96_5057_aff6_957b == 1 + 0xce_9650_590f * 0x1_0000_0000_0000_0000;
    assert d == (k * 0xce96_5057_aff6_957b - d * 0xce_9650_590f) * 0x1_0000_0000_0000_0000;
  }

  /** The last byte always shows: keys that differ in it alone have different hashes. */
  lemma LastByteShows(key: Bytes, a: byte, b: byte)
    requires Fnv(key + [a]) == Fnv(key + [b])
    ensures a == b
  {
    hide XorByte, XorBits;
    assert (key + [a])[..|key|] == key && (key + [b])[..|key|] == key;
    var h := Fnv(key);
    XorByteFits(h, a);
    XorByteFits(h, b);
    PrimeInvertible(XorByte(h, a), XorByte(h, b));
    SameXor(h, a, b);
  }

  lemma SameXor(h: u64, a: byte, b: byte)
    requires XorByte(h, a) == XorByte(h, b)
    ensures a == b
  {
    hide XorBits;
    assert Pow2Nat(8) == 256 by { assert Pow2Nat(4) == 16; }
    XorBitsInjective(h % 256, a as nat, b as nat, 8);
  }

  /** The published hashes of the empty key and of the letter a, and a partition of each. */
  lemma KnownHashes()
    ensures Fnv([]) == 0xcbf2_9ce4_8422_2325 && Fnv([97]) == 0xaf63_dc4c_8601_ec8c
    ensures PartitionOf([], 1000) == 37 && PartitionOf([97], 1000) == 996
  {
    hide XorBits;
    assert [97][..0] == [];
    XorKnown();
  }

  lemma XorKnown()
    ensures XorBits(37, 97, 8) == 68
  {
    assert XorBits(0, 1, 2) == 1 && XorBits(2, 6, 4) == 4 && XorBits(9, 24, 6) == 17;
  }

  datatype KeySpec = Keyed(fields: seq<Str>) | Unkeyed

  /** The partition a record is sent to under `fields`. */
  function KeyedPartition(rec: Record, fields: seq<Str>, partitions: u32): u32
    requires partitions > 0
  {
    PartitionOf(AllFieldBytes(Fields(rec, fields)), partitions)
  }

  /** A producer's side of an edge, with its round-robin cursor. */
  class Router {
    const key: KeySpec
    const partitions: u32
    var cursor: u32

    constructor (key: KeySpec, partitions: u32)
      requires partitions > 0
      ensures this.key == key && this.partitions == partitions && cursor == 0
    {
      this.key, this.partitions, this.cursor := key, partitions, 0;
    }

    method Route(rec: Record) returns (p: u32)
      requires partitions > 0
      modifies this
      ensures p < partitions
      ensures key.Keyed? ==> p == KeyedPartition(rec, key.fields, partitions) && cursor == old(cursor)
      ensures key.Unkeyed? ==> p == old(cursor) % partitions && cursor == (old(cursor) + 1) % 0x1_0000_0000
    {
      match key {
        case Keyed(fields) =>
          var bytes := KeyBytes(rec, fields);
          p := Partition(bytes, partitions);
        case Unkeyed =>
          p := cursor % partitions;
          cursor := (cursor + 1) % 0x1_0000_0000;
      }
    }
  }

  // ---- Group keys and routing keys name the same groups ----

  function KeyFields(key: GroupKey): seq<Option<AttrValue>> {
    seq(|key|, i requires 0 <= i < |key| => AttrOf(key[i]))
  }

  lemma FieldsOfKey(rec: Record, groupBy: seq<Str>)
    ensures Fields(rec, groupBy) == KeyFields(GroupKeyOf(rec, groupBy))
  {
  }

  /** Two records are in one window group exactly when their routing bytes are equal. */
  lemma SameGroupIffSameBytes(a: Record, b: Record, groupBy: seq<Str>)
    ensures GroupKeyOf(a, groupBy) == GroupKeyOf(b, groupBy)
      <==> AllFieldBytes(Fields(a, groupBy)) == AllFieldBytes(Fields(b, groupBy))
  {
    FieldsOfKey(a, groupBy);
    FieldsOfKey(b, groupBy);
    if AllFieldBytes(Fields(a, groupBy)) == AllFieldBytes(Fields(b, groupBy)) {
      AllFieldBytesInjective(Fields(a, groupBy), Fields(b, groupBy));
      var ka, kb := GroupKeyOf(a, groupBy), GroupKeyOf(b, groupBy);
      forall i | 0 <= i < |groupBy| ensures ka[i] == kb[i] {
        assert Fields(a, groupBy)[i] == Fields(b, groupBy)[i];
      }
      assert ka == kb;
    }
  }

  /** The record a group becomes has the group key, the labels and the partition of every record folded into it. */
  lemma OutputKeepsKey(c: Config, rec: Record, start: nat, agg: Agg, partitions: u32)
    requires start + c.size < U64_LIMIT && partitions > 0
    requires agg.attrs == LabelsOf(rec, c.groupBy)
    requires OutputOf(c, start, agg).Some?
    ensures var r := OutputOf(c, start, agg).value;
      && GroupKeyOf(r, c.groupBy) == GroupKeyOf(rec, c.groupBy)
      && KeyedPartition(r, c.groupBy, partitions) == KeyedPartition(rec, c.groupBy, partitions)
  {
    var r := OutputOf(c, start, agg).value;
    LabelsHoldFields(rec, c.groupBy);
    forall i | 0 <= i < |c.groupBy| ensures Lookup(r, c.groupBy[i]) == Lookup(rec, c.groupBy[i]) {
      var f := c.groupBy[i];
      assert Lookup(rec, f).Some? <==> f in r.attrs;
    }
    assert Fields(r, c.groupBy) == Fields(rec, c.groupBy);
    assert GroupKeyOf(r, c.groupBy) == GroupKeyOf(rec, c.groupBy);
  }

  /** Over whole runs, capped or not: what a fired group becomes has the group key and the partition of every record of
      that group. */
  lemma FiredKeepsKey(c: Config, events: seq<Event>, i: nat, k: GroupKey, rec: Record, partitions: u32)
    requires c.Valid() && i < |Stream(c, events)| && k in Stream(c, events)[i].groups && partitions > 0
    requires GroupKeyOf(rec, c.groupBy) == k
    requires var f := Stream(c, events)[i];
      f.start + c.size < U64_LIMIT && OutputOf(c, f.start, f.groups[k]).Some?
    ensures var f := Stream(c, events)[i];
      var r := OutputOf(c, f.start, f.groups[k]).value;
      && GroupKeyOf(r, c.groupBy) == k
      && KeyedPartition(r, c.groupBy, partitions) == KeyedPartition(rec, c.groupBy, partitions)
  {
    hide Stream, OutputOf, KeyedPartition;
    StreamSound(c, events);
    var f := Stream(c, events)[i];
    assert GroupsSound(c, f.groups) && AggSound(c, k, f.groups[k]);
    LabelsAreKeyLabels(rec, c.groupBy);
    OutputKeepsKey(c, rec, f.start, f.groups[k], partitions);
  }

  // ---- N workers refine one window ----

  /** The worker that owns a group's partition. */
  function OwnerOf(pc: PartitionConfig, key: GroupKey): u32
    requires pc.Validate().Ok?
  {
    PartitionOf(AllFieldBytes(KeyFields(key)), pc.partitions) % pc.workers
  }

  /** The records routed to worker `w`, in order. */
  function Share(pc: PartitionConfig, groupBy: seq<Str>, rs: seq<Record>, w: u32): seq<Record>
    requires pc.Validate().Ok?
  {
    if rs == [] then []
    else
      var n := |rs| - 1;
      Share(pc, groupBy, rs[..n], w) +
      (if KeyedPartition(rs[n], groupBy, pc.partitions) % pc.workers == w then [rs[n]] else [])
  }

  lemma {:induction false} ShareMembers(pc: PartitionConfig, c: Config, rs: seq<Record>, w: u32, s: nat, k: GroupKey)
    requires pc.Validate().Ok? && c.Valid()
    ensures Members(c, Share(pc, c.groupBy, rs, w), s, k) == if OwnerOf(pc, k) == w then Members(c, rs, s, k) else []
  {
    hide Members, KeyedPartition, OwnerOf;
    NoMembers(c, s, k);
    if rs != [] {
      var n := |rs| - 1;
      var x := [rs[n]];
      var share := Share(pc, c.groupBy, rs[..n], w);
      ShareMembers(pc, c, rs[..n], w, s, k);
      assert rs == rs[..n] + x;
      MembersConcat(c, rs[..n], x, s, k);
      MembersConcat(c, share, x, s, k);
      MemberIsOwned(pc, c, rs[n], s, k);
      assert Share(pc, c.groupBy, rs, w) == share + x || Share(pc, c.groupBy, rs, w) == share + [] == share;
    }
  }

  lemma NoMembers(c: Config, s: nat, k: GroupKey)
    requires c.Valid()
    ensures Members(c, [], s, k) == []
  {
  }

  lemma MemberIsOwned(pc: PartitionConfig, c: Config, r: Record, s: nat, k: GroupKey)
    requires pc.Validate().Ok? && c.Valid()
    ensures Members(c, [r], s, k) != [] ==> KeyedPartition(r, c.groupBy, pc.partitions) % pc.workers == OwnerOf(pc, k)
  {
    hide StartsOf, Numeric, Fnv, AllFieldBytes;
    assert [r][..0] == [];
    if Belongs(c, r, s, k) {
      FieldsOfKey(r, c.groupBy);
    } else {
      assert Members(c, [r], s, k) == [];
    }
  }

  /** Each worker runs its own window over its share of the records, in any order within the lateness. */
  ghost predicate Partitioned(pc: PartitionConfig, c: Config, single: seq<Event>, workers: seq<seq<Event>>) {
    && pc.Validate().Ok? && c.Valid() && c.maxGroups.None?
    && InTimeRun(c, single)
    && |workers| == pc.workers
    && forall w :: 0 <= w < |workers| ==>
      && InTimeRun(c, workers[w])
      && multiset(Arrivals(workers[w])) == multiset(Share(pc, c.groupBy, Arrivals(single), w))
  }

  ghost predicate InTimeRun(c: Config, events: seq<Event>) {
    NoIdle(events) && Clean(c, events) && InLateness(c, Arrivals(events))
  }

  /** A worker sees all of a group's samples when it owns the group, and none otherwise. */
  lemma WorkerSamples(pc: PartitionConfig, c: Config, single: seq<Event>, workers: seq<seq<Event>>, w: nat, s: nat,
      k: GroupKey)
    requires Partitioned(pc, c, single, workers) && w < |workers|
    ensures OwnerOf(pc, k) == w ==>
      TallyOf(Samples(c, Arrivals(workers[w]), s, k)) == TallyOf(Samples(c, Arrivals(single), s, k))
    ensures Samples(c, Arrivals(workers[w]), s, k) != [] <==>
      OwnerOf(pc, k) == w && Samples(c, Arrivals(single), s, k) != []
  {
    var rs, own := Arrivals(single), Arrivals(workers[w]);
    hide Members, Samples;
    SamplesInTime(c, rs, s, k);
    SamplesInTime(c, own, s, k);
    MembersPermutation(c, own, Share(pc, c.groupBy, rs, w), s, k);
    ShareMembers(pc, c, rs, w, s, k);
    TallyOfPermutation(Members(c, own, s, k), Members(c, Share(pc, c.groupBy, rs, w), s, k));
    assert |multiset(Members(c, own, s, k))| == |multiset(Members(c, Share(pc, c.groupBy, rs, w), s, k))|;
  }

  // ---- The output as a set of rows ----

  type Row = (nat, GroupKey)

  ghost function Rows(out: seq<Firing>): set<Row> {
    set i, k | 0 <= i < |out| && k in out[i].groups :: (out[i].start, k)
  }

  /** The records of one row of the batch group-by of `rs`. */
  ghost function RowRecords(c: Config, rs: seq<Record>, row: Row): multiset<Record>
    requires c.Valid()
  {
    if row.0 + c.size < U64_LIMIT && |row.1| == |c.groupBy|
    then RecordsOf(c, row.0, Agg([], KeyLabels(c.groupBy, row.1), TallyOf(Samples(c, rs, row.0, row.1))))
    else multiset{}
  }

  ghost function AnyRow(rows: set<Row>): Row
    requires rows != {}
    ensures AnyRow(rows) in rows
  {
    var row :| row in rows;
    row
  }

  ghost function SumRows(c: Config, rs: seq<Record>, rows: set<Row>): multiset<Record>
    requires c.Valid()
  {
    if rows == {} then multiset{}
    else
      var row := AnyRow(rows);
      SumRows(c, rs, rows - {row}) + RowRecords(c, rs, row)
  }

  lemma {:induction false} SumRowsTake(c: Config, rs: seq<Record>, rows: set<Row>, row: Row)
    requires c.Valid() && row in rows
    ensures SumRows(c, rs, rows) == SumRows(c, rs, rows - {row}) + RowRecords(c, rs, row)
    decreases |rows|
  {
    hide RowRecords;
    var any := AnyRow(rows);
    if any != row {
      SumRowsTake(c, rs, rows - {any}, row);
      SumRowsTake(c, rs, rows - {row}, any);
      assert rows - {any} - {row} == rows - {row} - {any};
    }
  }

  lemma {:induction false} SumRowsUnion(c: Config, rs: seq<Record>, a: set<Row>, b: set<Row>)
    requires c.Valid() && a !! b
    ensures SumRows(c, rs, a + b) == SumRows(c, rs, a) + SumRows(c, rs, b)
    decreases |b|
  {
    hide RowRecords;
    if b == {} {
      assert a + b == a;
    } else {
      var row := AnyRow(b);
      SumRowsUnion(c, rs, a, b - {row});
      SumRowsTake(c, rs, a + b, row);
      assert a + b - {row} == a + (b - {row});
    }
  }

  lemma {:induction false} SumRowsSame(c: Config, ra: seq<Record>, rb: seq<Record>, rows: set<Row>)
    requires c.Valid()
    requires forall row :: row in rows ==>
      TallyOf(Samples(c, ra, row.0, row.1)) == TallyOf(Samples(c, rb, row.0, row.1))
    ensures SumRows(c, ra, rows) == SumRows(c, rb, rows)
    decreases |rows|
  {
    if rows != {} {
      SumRowsSame(c, ra, rb, rows - {AnyRow(rows)});
    }
  }

  ghost function GroupRows(start: nat, groups: Groups): set<Row> {
    set k | k in groups :: (start, k)
  }

  lemma RowOfGroup(c: Config, rs: seq<Record>, start: nat, k: GroupKey, agg: Agg)
    requires c.Valid() && c.name.Some? && start + c.size < U64_LIMIT
    requires AggSound(c, k, agg) && agg.tally == TallyOf(Samples(c, rs, start, k))
    ensures RowRecords(c, rs, (start, k)) == RecordsOf(c, start, agg)
  {
    hide Samples, TallyOf;
  }

  lemma {:induction false} GroupRecordsAreRows(c: Config, rs: seq<Record>, start: nat, groups: Groups)
    requires c.Valid() && c.name.Some? && start + c.size < U64_LIMIT
    requires forall k :: k in groups ==>
      AggSound(c, k, groups[k]) && groups[k].tally == TallyOf(Samples(c, rs, start, k))
    ensures GroupRecords(c, start, groups) == SumRows(c, rs, GroupRows(start, groups))
    decreases |groups|
  {
    hide Samples, TallyOf, AggSound, RecordsOf, RowRecords;
    if groups != map[] {
      var k := AnyKey(groups);
      assert groups.Keys == (groups - {k}).Keys + {k};
      GroupRecordsAreRows(c, rs, start, groups - {k});
      assert GroupRows(start, groups) - {(start, k)} == GroupRows(start, groups - {k});
      SumRowsTake(c, rs, GroupRows(start, groups), (start, k));
      RowOfGroup(c, rs, start, k, groups[k]);
    } else {
      assert GroupRows(start, groups) == {};
    }
  }

  lemma RowsSnoc(out: seq<Firing>, n: nat)
    requires |out| == n + 1 && Ascends(out)
    ensures Rows(out) == Rows(out[..n]) + GroupRows(out[n].start, out[n].groups)
    ensures Rows(out[..n]) !! GroupRows(out[n].start, out[n].groups)
  {
    forall row ensures row in Rows(out) <==> row in Rows(out[..n]) + GroupRows(out[n].start, out[n].groups) {
      if row in Rows(out) {
        var i, k :| 0 <= i < |out| && k in out[i].groups && row == (out[i].start, k);
        assert i < n ==> out[..n][i] == out[i];
      }
      if row in Rows(out[..n]) {
        var i, k :| 0 <= i < n && k in out[..n][i].groups && row == (out[..n][i].start, k);
        assert out[..n][i] == out[i];
      }
    }
  }

  /** What an ascending list of firings emits, row by row. */
  lemma {:induction false} FiringRecordsAreRows(c: Config, rs: seq<Record>, out: seq<Firing>)
    requires c.Valid() && c.name.Some? && Ascends(out)
    requires InRange(c, out) && forall i :: 0 <= i < |out| ==> GroupsSound(c, out[i].groups)
    requires forall i, k :: 0 <= i < |out| && k in out[i].groups ==>
      out[i].groups[k].tally == TallyOf(Samples(c, rs, out[i].start, k))
    ensures FiringRecords(c, out) == SumRows(c, rs, Rows(out))
  {
    if out == [] {
      assert Rows(out) == {};
    } else {
      hide Samples, TallyOf, AggSound, Rows, GroupRows;
      var n := |out| - 1;
      FiringRecordsAreRows(c, rs, out[..n]);
      GroupRecordsAreRows(c, rs, out[n].start, out[n].groups);
      RowsSnoc(out, n);
      SumRowsUnion(c, rs, Rows(out[..n]), GroupRows(out[n].start, out[n].groups));
    }
  }

  lemma StreamRecordsAreRows(c: Config, events: seq<Event>)
    requires c.Valid() && c.maxGroups.None? && c.name.Some? && NoIdle(events) && Clean(c, events)
    requires forall i :: 0 <= i < |Arrivals(events)| ==> Arrivals(events)[i].ts + c.size < U64_LIMIT
    ensures InRange(c, Stream(c, events))
    ensures FiringRecords(c, Stream(c, events)) == SumRows(c, Arrivals(events), Rows(Stream(c, events)))
    ensures forall row :: row in Rows(Stream(c, events)) <==> Samples(c, Arrivals(events), row.0, row.1) != []
  {
    StreamIsBatch(c, events);
    StreamSound(c, events);
    BatchInRange(c, Arrivals(events), Stream(c, events));
    hide Stream, Samples, TallyOf, GroupsSound;
    FiringRecordsAreRows(c, Arrivals(events), Stream(c, events));
    forall row ensures row in Rows(Stream(c, events)) <==> Samples(c, Arrivals(events), row.0, row.1) != [] {
      if Samples(c, Arrivals(events), row.0, row.1) != [] {
        assert Fires(Stream(c, events), row.0, row.1);
      }
    }
  }

  /** What each worker fires. */
  ghost function WorkerStreams(c: Config, workers: seq<seq<Event>>): seq<seq<Firing>>
    requires c.Valid()
  {
    seq(|workers|, w requires 0 <= w < |workers| => Stream(c, workers[w]))
  }

  /** All the records of these runs together. */
  ghost function AllRecords(c: Config, outs: seq<seq<Firing>>): multiset<Record>
    requires forall w :: 0 <= w < |outs| ==> InRange(c, outs[w])
  {
    if outs == [] then multiset{}
    else AllRecords(c, outs[..|outs| - 1]) + FiringRecords(c, outs[|outs| - 1])
  }

  /** A group of a window is fired by its owner exactly when the single run fires it, with the same tally, and by
      no other worker. */
  lemma OwnerFiresGroup(pc: PartitionConfig, c: Config, single: seq<Event>, workers: seq<seq<Event>>, w: nat, s: nat,
      k: GroupKey)
    requires Partitioned(pc, c, single, workers) && w < |workers|
    ensures Fires(Stream(c, workers[w]), s, k) <==> OwnerOf(pc, k) == w && Fires(Stream(c, single), s, k)
    ensures OwnerOf(pc, k) == w ==> Emitted(Stream(c, workers[w]), s, k) == Emitted(Stream(c, single), s, k)
  {
    StreamIsBatch(c, single);
    StreamIsBatch(c, workers[w]);
    WorkerSamples(pc, c, single, workers, w, s, k);
    FragmentsMergeToBatch(c, single, s, k);
    FragmentsMergeToBatch(c, workers[w], s, k);
    hide Stream, Samples, TallyOf, Emitted, OwnerOf;
  }

  lemma {:induction false} ShareFrom(pc: PartitionConfig, groupBy: seq<Str>, rs: seq<Record>, w: u32)
    requires pc.Validate().Ok?
    ensures forall x :: x in Share(pc, groupBy, rs, w) ==> x in rs
  {
    hide KeyedPartition;
    if rs != [] { ShareFrom(pc, groupBy, rs[..|rs| - 1], w); }
  }

  /** The timestamps of a run leave room for the window's length. */
  predicate InTimeRange(c: Config, rs: seq<Record>) {
    forall i :: 0 <= i < |rs| ==> rs[i].ts + c.size < U64_LIMIT
  }

  lemma WorkerInTimeRange(pc: PartitionConfig, c: Config, single: seq<Event>, workers: seq<seq<Event>>, w: nat)
    requires Partitioned(pc, c, single, workers) && w < |workers| && InTimeRange(c, Arrivals(single))
    ensures InTimeRange(c, Arrivals(workers[w]))
  {
    var own, share := Arrivals(workers[w]), Share(pc, c.groupBy, Arrivals(single), w);
    ShareFrom(pc, c.groupBy, Arrivals(single), w);
    hide Share, Arrivals, InLateness, Clean;
    forall i | 0 <= i < |own| ensures own[i].ts + c.size < U64_LIMIT {
      assert own[i] in multiset(own);
      assert own[i] in share;
    }
  }

  /** The rows that worker `w` owns. */
  ghost function OwnedRows(pc: PartitionConfig, rows: set<Row>, w: nat): set<Row>
    requires pc.Validate().Ok?
  {
    set row | row in rows && OwnerOf(pc, row.1) == w
  }

  ghost function RowsOwnedBelow(pc: PartitionConfig, rows: set<Row>, n: nat): set<Row>
    requires pc.Validate().Ok?
  {
    set row | row in rows && OwnerOf(pc, row.1) < n
  }

  lemma OwnedBelowSteps(pc: PartitionConfig, rows: set<Row>, n: nat)
    requires pc.Validate().Ok?
    ensures RowsOwnedBelow(pc, rows, n + 1) == RowsOwnedBelow(pc, rows, n) + OwnedRows(pc, rows, n)
    ensures RowsOwnedBelow(pc, rows, n) !! OwnedRows(pc, rows, n)
    ensures RowsOwnedBelow(pc, rows, 0) == {}
    ensures RowsOwnedBelow(pc, rows, pc.workers) == rows
  {
    hide PartitionOf, AllFieldBytes;
  }

  /** A worker fires exactly the rows of the single run that it owns. */
  lemma WorkerRows(pc: PartitionConfig, c: Config, single: seq<Event>, workers: seq<seq<Event>>, w: nat)
    requires Partitioned(pc, c, single, workers) && w < |workers|
    requires forall row :: row in Rows(Stream(c, single)) <==> Samples(c, Arrivals(single), row.0, row.1) != []
    requires forall row :: row in Rows(Stream(c, workers[w])) <==> Samples(c, Arrivals(workers[w]), row.0, row.1) != []
    ensures Rows(Stream(c, workers[w])) == OwnedRows(pc, Rows(Stream(c, single)), w)
    ensures SumRows(c, Arrivals(workers[w]), Rows(Stream(c, workers[w])))
      == SumRows(c, Arrivals(single), Rows(Stream(c, workers[w])))
  {
    assert pc.Validate().Ok? && c.Valid();
    hide Stream, Rows, Samples, TallyOf, SumRows, OwnerOf, Arrivals;
    var own, all := Rows(Stream(c, workers[w])), Rows(Stream(c, single));
    forall row
      ensures row in own <==> row in all && OwnerOf(pc, row.1) == w
      ensures row in own ==>
        TallyOf(Samples(c, Arrivals(workers[w]), row.0, row.1)) == TallyOf(Samples(c, Arrivals(single), row.0, row.1))
    {
      WorkerSamples(pc, c, single, workers, w, row.0, row.1);
    }
    hide Partitioned;
    SumRowsSame(c, Arrivals(workers[w]), Arrivals(single), own);
  }

  lemma WorkerEmitsItsRows(pc: PartitionConfig, c: Config, single: seq<Event>, workers: seq<seq<Event>>, w: nat)
    requires Partitioned(pc, c, single, workers) && w < |workers|
    requires c.name.Some? && InTimeRange(c, Arrivals(single))
    ensures InRange(c, Stream(c, workers[w]))
    ensures FiringRecords(c, Stream(c, workers[w]))
      == SumRows(c, Arrivals(single), OwnedRows(pc, Rows(Stream(c, single)), w))
  {
    WorkerInTimeRange(pc, c, single, workers, w);
    StreamRecordsAreRows(c, single);
    StreamRecordsAreRows(c, workers[w]);
    WorkerRows(pc, c, single, workers, w);
  }

  lemma {:induction false} OwnedRowsAddUp(pc: PartitionConfig, c: Config, rs: seq<Record>, rows: set<Row>,
      outs: seq<seq<Firing>>)
    requires pc.Validate().Ok? && c.Valid()
    requires forall w :: 0 <= w < |outs| ==>
      InRange(c, outs[w]) && FiringRecords(c, outs[w]) == SumRows(c, rs, OwnedRows(pc, rows, w))
    ensures AllRecords(c, outs) == SumRows(c, rs, RowsOwnedBelow(pc, rows, |outs|))
  {
    hide RowsOwnedBelow, OwnedRows, FiringRecords, InRange;
    if outs == [] {
      OwnedBelowSteps(pc, rows, 0);
    } else {
      var n := |outs| - 1;
      OwnedRowsAddUp(pc, c, rs, rows, outs[..n]);
      OwnedBelowSteps(pc, rows, n);
      SumRowsUnion(c, rs, RowsOwnedBelow(pc, rows, n), OwnedRows(pc, rows, n));
    }
  }

  /** Partitioned equals single: with an output name configured, all workers together emit, as a multiset, exactly
      the records one window over the whole stream emits, however each side's arrivals are ordered within the
      lateness. */
  lemma WorkersRefineSingle(pc: PartitionConfig, c: Config, single: seq<Event>, workers: seq<seq<Event>>)
    requires Partitioned(pc, c, single, workers)
    requires c.name.Some? && InTimeRange(c, Arrivals(single))
    ensures InRange(c, Stream(c, single))
    ensures forall w :: 0 <= w < |workers| ==> InRange(c, WorkerStreams(c, workers)[w])
    ensures AllRecords(c, WorkerStreams(c, workers)) == FiringRecords(c, Stream(c, single))
  {
    StreamRecordsAreRows(c, single);
    var rows := Rows(Stream(c, single));
    forall w | 0 <= w < |workers|
      ensures InRange(c, Stream(c, workers[w]))
      ensures FiringRecords(c, Stream(c, workers[w])) == SumRows(c, Arrivals(single), OwnedRows(pc, rows, w))
    {
      WorkerEmitsItsRows(pc, c, single, workers, w);
    }
    OwnedBelowSteps(pc, rows, 0);
    hide Stream, Rows, SumRows, Arrivals, FiringRecords, InRange;
    OwnedRowsAddUp(pc, c, Arrivals(single), rows, WorkerStreams(c, workers));
  }

  // ---- Workers that keep the order of the single run ----

  lemma {:induction false} ShareMax(pc: PartitionConfig, groupBy: seq<Str>, rs: seq<Record>, w: u32)
    requires pc.Validate().Ok?
    ensures MaxTs(Share(pc, groupBy, rs, w)) <= MaxTs(rs)
  {
    hide KeyedPartition;
    if rs != [] {
      var n := |rs| - 1;
      var share := Share(pc, groupBy, rs[..n], w);
      ShareMax(pc, groupBy, rs[..n], w);
      assert (share + [rs[n]])[..|share|] == share && share + [] == share;
    }
  }

  lemma InLatenessSnoc(c: Config, rs: seq<Record>, r: Record)
    ensures InLateness(c, rs + [r]) <==> InLateness(c, rs) && MaxTs(rs) <= r.ts + c.lateness
  {
    var all := rs + [r];
    assert all[..|rs|] == rs && all[|rs|] == r;
    assert forall i :: 0 <= i < |rs| ==> all[..i] == rs[..i] && all[i] == rs[i];
  }

  lemma {:induction false} ShareInLateness(pc: PartitionConfig, c: Config, rs: seq<Record>, w: u32)
    requires pc.Validate().Ok? && InLateness(c, rs)
    ensures InLateness(c, Share(pc, c.groupBy, rs, w))
  {
    hide KeyedPartition, InLateness, MaxTs;
    if rs == [] {
      NothingBehind(c);
    } else {
      var n := |rs| - 1;
      assert rs == rs[..n] + [rs[n]];
      InLatenessSnoc(c, rs[..n], rs[n]);
      var share := Share(pc, c.groupBy, rs[..n], w);
      ShareInLateness(pc, c, rs[..n], w);
      ShareMax(pc, c.groupBy, rs[..n], w);
      InLatenessSnoc(c, share, rs[n]);
      assert share + [] == share;
    }
  }

  lemma NothingBehind(c: Config)
    ensures InLateness(c, [])
  {
  }

  lemma {:induction false} CleanArrivals(c: Config, events: seq<Event>)
    ensures Clean(c, events) <==> forall r :: r in Arrivals(events) ==> !Rejected(c, r)
  {
    hide Rejected;
    if events != [] {
      var n := |events| - 1;
      CleanArrivals(c, events[..n]);
      assert Clean(c, events) <==> Clean(c, events[..n]) && (events[n].Arrival? ==> !Rejected(c, events[n].rec));
    }
  }

  /** Workers that get their share in the order of a single run within the lateness are within it themselves, so
      together they emit exactly what the single window emits. */
  lemma WorkersInOrder(pc: PartitionConfig, c: Config, single: seq<Event>, workers: seq<seq<Event>>)
    requires pc.Validate().Ok? && c.Valid() && c.maxGroups.None? && InTimeRun(c, single) && |workers| == pc.workers
    requires forall w :: 0 <= w < |workers| ==>
      NoIdle(workers[w]) && Arrivals(workers[w]) == Share(pc, c.groupBy, Arrivals(single), w)
    requires c.name.Some? && InTimeRange(c, Arrivals(single))
    ensures Partitioned(pc, c, single, workers)
    ensures InRange(c, Stream(c, single))
    ensures forall w :: 0 <= w < |workers| ==> InRange(c, WorkerStreams(c, workers)[w])
    ensures AllRecords(c, WorkerStreams(c, workers)) == FiringRecords(c, Stream(c, single))
  {
    hide Stream, InLateness, FiringRecords, InRange, AllRecords;
    CleanArrivals(c, single);
    forall w | 0 <= w < |workers| ensures InTimeRun(c, workers[w]) {
      ShareFrom(pc, c.groupBy, Arrivals(single), w);
      ShareInLateness(pc, c, Arrivals(single), w);
      CleanArrivals(c, workers[w]);
    }
    WorkersRefineSingle(pc, c, single, workers);
  }
}
