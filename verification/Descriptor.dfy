/**
  The heap descriptor and its byte layout (dmerge/src/descriptors/heap.rs).

  The producer side writes a `ParentDescriptor`: saved registers, the number of VMAs,
  then for each VMA its record, its page count, a 4-byte pad when that count is odd, and the
  (u32 offset, u64 physical address) entries, and at last the RDMA descriptor.
  The consumer side reads those bytes straight into a page table.
 */
module Descriptor {
  import opened Words
  import opened Sequences

  /** Sizes of the three fixed records, which are copied byte for byte. */
  datatype Layout = Layout(regs: nat, vma: nat, rdma: nat)
  {
    predicate Valid() {
      regs % 8 == 0 && vma % 8 == 0 && rdma % 8 == 0 && vma >= 16
    }
  }

  /** A VMA record: its two bounds, then flags and protection bits that are only carried along. */
  datatype Vma = Vma(start: nat, end: nat, rest: seq<Byte>)
  {
    predicate Contains(va: nat) {
      start <= va < end
    }
  }

  /** One slot of a compact page table. */
  datatype Entry = Entry(offset: nat, phys: nat)

  datatype ParentDescriptor = ParentDescriptor(
    regs: seq<Byte>, pageTable: seq<seq<Entry>>, vma: seq<Vma>, machineInfo: seq<Byte>)

  /** The consumer's page table, keyed by virtual page number. */
  type PageTable = map<nat, nat>

  datatype HeapDescriptor = HeapDescriptor(
    regs: seq<Byte>, pageTable: PageTable, vma: seq<Vma>, machineInfo: seq<Byte>)

  /** The answer of a page-table lookup at an arbitrary address inside a page. */
  function Lookup(d: HeapDescriptor, va: nat): (pa: Option<nat>)
  {
    if va / PAGE in d.pageTable then Some(d.pageTable[va / PAGE]) else None
  }

  // ---------------------------------------------------------------------------
  // What the writer may be given
  // ---------------------------------------------------------------------------

  predicate FitsEntry(e: Entry) {
    e.offset < TWO_32 && e.phys < TWO_64
  }

  predicate FitsTable(t: seq<Entry>) {
    |t| < TWO_64 && forall k :: 0 <= k < |t| ==> FitsEntry(t[k])
  }

  predicate FitsVma(l: Layout, v: Vma) {
    v.start < TWO_64 && v.end < TWO_64 && |v.rest| + 16 == l.vma
  }

  predicate WellFormed(l: Layout, d: ParentDescriptor) {
    && |d.regs| == l.regs
    && |d.machineInfo| == l.rdma
    && |d.vma| == |d.pageTable| < TWO_64
    && (forall k :: 0 <= k < |d.vma| ==> FitsVma(l, d.vma[k]))
    && (forall k :: 0 <= k < |d.pageTable| ==> FitsTable(d.pageTable[k]))
  }

  // ---------------------------------------------------------------------------
  // The writer: each Put places its bytes in front of what follows
  // ---------------------------------------------------------------------------

  function PutEntry(e: Entry, next: seq<Byte>): (s: seq<Byte>)
    ensures |s| == 12 + |next|
  {
    ToBytes(e.offset, 4) + (ToBytes(e.phys, 8) + next)
  }

  function PutEntries(t: seq<Entry>, next: seq<Byte>): (s: seq<Byte>)
    ensures |s| == 12 * |t| + |next|
  {
    if t == [] then next else PutEntry(t[0], PutEntries(t[1..], next))
  }

  /** The pad word in front of an odd number of entries. */
  function Pad(n: nat): (s: seq<Byte>)
  {
    if n % 2 == 1 then [0, 0, 0, 0] else []
  }

  function TableLen(t: seq<Entry>): nat
  {
    8 + |Pad(|t|)| + 12 * |t|
  }

  function PutTable(t: seq<Entry>, next: seq<Byte>): (s: seq<Byte>)
    ensures |s| == TableLen(t) + |next|
  {
    ToBytes(|t|, 8) + (Pad(|t|) + PutEntries(t, next))
  }

  function EncodeVma(v: Vma): (s: seq<Byte>)
    ensures |s| == 16 + |v.rest|
  {
    ToBytes(v.start, 8) + (ToBytes(v.end, 8) + v.rest)
  }

  function PutVmas(vmas: seq<Vma>, tables: seq<seq<Entry>>, next: seq<Byte>): seq<Byte>
    requires |vmas| == |tables|
  {
    if vmas == [] then next
    else EncodeVma(vmas[0]) + PutTable(tables[0], PutVmas(vmas[1..], tables[1..], next))
  }

  function Put(d: ParentDescriptor, next: seq<Byte>): seq<Byte>
    requires |d.vma| == |d.pageTable|
  {
    d.regs + (ToBytes(|d.vma|, 8) + PutVmas(d.vma, d.pageTable, d.machineInfo + next))
  }

  /** The serialised descriptor on its own. */
  function Encode(d: ParentDescriptor): seq<Byte>
    requires |d.vma| == |d.pageTable|
  {
    Put(d, [])
  }

  // ---------------------------------------------------------------------------
  // The plain two-stage reader: compact tables first, page table afterwards
  // ---------------------------------------------------------------------------

  function ReadVma(l: Layout, cur: seq<Byte>): Vma
    requires |cur| >= l.vma >= 16
  {
    Vma(FromBytes(cur[..8]), FromBytes(cur[8..16]), cur[16..l.vma])
  }

  function ReadEntry(cur: seq<Byte>): Entry
    requires |cur| >= 12
  {
    Entry(FromBytes(cur[..4]), FromBytes(cur[4..12]))
  }

  datatype Parsed<T> = Parsed(item: T, rest: seq<Byte>)

  function ParseEntries(cur: seq<Byte>, n: nat): Option<Parsed<seq<Entry>>>
  {
    if n == 0 then Some(Parsed([], cur))
    else if |cur| < 12 then None
    else match ParseEntries(cur[12..], n - 1)
      case None => None
      case Some(p) => Some(Parsed([ReadEntry(cur)] + p.item, p.rest))
  }

  /** Drops the pad word that precedes an odd number of entries. */
  function SkipPad(cur: seq<Byte>, n: nat): Option<seq<Byte>>
  {
    if n % 2 == 0 then Some(cur)
    else if |cur| < 4 then None
    else Some(cur[4..])
  }

  function ParseTable(cur: seq<Byte>): Option<Parsed<seq<Entry>>>
  {
    if |cur| < 8 then None else
    var n := FromBytes(cur[..8]);
    match SkipPad(cur[8..], n)
    case None => None
    case Some(body) => ParseEntries(body, n)
  }

  function ParseVmas(l: Layout, cur: seq<Byte>, count: nat): Option<Parsed<(seq<Vma>, seq<seq<Entry>>)>>
    requires l.Valid()
    decreases count
  {
    if count == 0 then Some(Parsed(([], []), cur))
    else if |cur| < l.vma then None
    else match ParseTable(cur[l.vma..])
      case None => None
      case Some(t) =>
        match ParseVmas(l, t.rest, count - 1)
        case None => None
        case Some(p) => Some(Parsed(([ReadVma(l, cur)] + p.item.0, [t.item] + p.item.1), p.rest))
  }

  function Parse(l: Layout, bytes: seq<Byte>): Option<Parsed<ParentDescriptor>>
    requires l.Valid()
  {
    if |bytes| < l.regs + 8 then None else
    match ParseVmas(l, bytes[l.regs + 8..], FromBytes(bytes[l.regs..l.regs + 8]))
    case None => None
    case Some(p) =>
      if |p.rest| < l.rdma then None
      else Some(Parsed(ParentDescriptor(bytes[..l.regs], p.item.1, p.item.0, p.rest[..l.rdma]), p.rest[l.rdma..]))
  }

  function MapPage(pt: PageTable, va: nat, phys: nat): PageTable
  {
    pt[va / PAGE := phys]
  }

  function MapEntries(pt: PageTable, start: nat, t: seq<Entry>): PageTable
    decreases |t|
  {
    if t == [] then pt
    else MapEntries(MapPage(pt, (t[0].offset + start) % TWO_64, t[0].phys), start, t[1..])
  }

  function MapTables(pt: PageTable, vmas: seq<Vma>, tables: seq<seq<Entry>>): PageTable
    requires |vmas| == |tables|
    decreases |vmas|
  {
    if vmas == [] then pt
    else MapTables(MapEntries(pt, vmas[0].start, tables[0]), vmas[1..], tables[1..])
  }

  /** The consumer-side descriptor that a producer-side descriptor stands for. */
  function Expand(d: ParentDescriptor): HeapDescriptor
    requires |d.vma| == |d.pageTable|
  {
    HeapDescriptor(d.regs, MapTables(map[], d.vma, d.pageTable), d.vma, d.machineInfo)
  }

  // ---------------------------------------------------------------------------
  // The fused reader: entries go into the page table as they are read
  // ---------------------------------------------------------------------------

  function FuseEntries(cur: seq<Byte>, n: nat, start: nat, pt: PageTable): Option<Parsed<PageTable>>
  {
    if n == 0 then Some(Parsed(pt, cur))
    else if |cur| < 12 then None
    else
      var e := ReadEntry(cur);
      FuseEntries(cur[12..], n - 1, start, MapPage(pt, (e.offset + start) % TWO_64, e.phys))
  }

  function FuseTable(cur: seq<Byte>, start: nat, pt: PageTable): Option<Parsed<PageTable>>
  {
    if |cur| < 8 then None else
    var n := FromBytes(cur[..8]);
    match SkipPad(cur[8..], n)
    case None => None
    case Some(body) => FuseEntries(body, n, start, pt)
  }

  function FuseVmas(l: Layout, cur: seq<Byte>, count: nat, pt: PageTable, vmas: seq<Vma>)
    : Option<Parsed<(seq<Vma>, PageTable)>>
    requires l.Valid()
    decreases count
  {
    if count == 0 then Some(Parsed((vmas, pt), cur))
    else if |cur| < l.vma then None
    else
      var v := ReadVma(l, cur);
      match FuseTable(cur[l.vma..], v.start, pt)
      case None => None
      case Some(t) => FuseVmas(l, t.rest, count - 1, t.item, vmas + [v])
  }

  function FuseTail(l: Layout, regs: seq<Byte>, body: Option<Parsed<(seq<Vma>, PageTable)>>): Option<HeapDescriptor>
  {
    match body
    case None => None
    case Some(p) =>
      if |p.rest| < l.rdma then None
      else Some(HeapDescriptor(regs, p.item.1, p.item.0, p.rest[..l.rdma]))
  }

  function Decode(l: Layout, bytes: seq<Byte>): Option<HeapDescriptor>
    requires l.Valid()
  {
    if |bytes| < l.regs + 8 then None
    else FuseTail(l, bytes[..l.regs],
                  FuseVmas(l, bytes[l.regs + 8..], FromBytes(bytes[l.regs..l.regs + 8]), map[], []))
  }

  /** The page count, the optional pad and the entries of one VMA, mapped as they are read. */
  method DeserializeTable(bytes: seq<Byte>, start: nat, before: PageTable) returns (r: Option<Parsed<PageTable>>)
    ensures r == FuseTable(bytes, start, before)
  {
    var cur, pt := bytes, before;
    if |cur| < 8 { return None; }
    var pageNum := FromBytes(cur[..8]);
    cur := cur[8..];
    if pageNum % 2 == 1 {
      if |cur| < 4 { return None; }
      cur := cur[4..];
    }
    for j := 0 to pageNum
      invariant FuseTable(bytes, start, before) == FuseEntries(cur, pageNum - j, start, pt)
    {
      if |cur| < 12 { return None; }
      var virt, phy := FromBytes(cur[..4]), FromBytes(cur[4..12]);
      cur := cur[12..];
      pt := MapPage(pt, (virt + start) % TWO_64, phy);
    }
    return Some(Parsed(pt, cur));
  }

  /** The loop over the VMAs. */
  method DeserializeVmas(l: Layout, bytes: seq<Byte>, count: nat) returns (r: Option<Parsed<(seq<Vma>, PageTable)>>)
    requires l.Valid()
    ensures r == FuseVmas(l, bytes, count, map[], [])
  {
    var cur := bytes;
    var pt: PageTable, vmas: seq<Vma> := map[], [];
    for i := 0 to count
      invariant FuseVmas(l, bytes, count, map[], []) == FuseVmas(l, cur, count - i, pt, vmas)
    {
      if |cur| < l.vma { return None; }
      var vma := ReadVma(l, cur);
      vmas := vmas + [vma];
      var table := DeserializeTable(cur[l.vma..], vma.start, pt);
      if table.None? { return None; }
      cur, pt := table.value.rest, table.value.item;
    }
    return Some(Parsed((vmas, pt), cur));
  }

  /** `HeapDescriptor::deserialize`: a cursor that only moves forward, filling `pt` and `vmas`. */
  method Deserialize(l: Layout, bytes: seq<Byte>) returns (r: Option<HeapDescriptor>)
    requires l.Valid()
    ensures r == Decode(l, bytes)
  {
    var cur := bytes;
    if |cur| < l.regs { return None; }
    var regs := cur[..l.regs];
    cur := cur[l.regs..];

    if |cur| < 8 { return None; }
    var count := FromBytes(cur[..8]);
    assert cur[..8] == bytes[l.regs..l.regs + 8];
    cur := cur[8..];
    assert cur == bytes[l.regs + 8..];

    var body := DeserializeVmas(l, cur, count);
    if body.None? { return None; }
    cur := body.value.rest;
    if |cur| < l.rdma { return None; }
    return Some(HeapDescriptor(regs, body.value.item.1, body.value.item.0, cur[..l.rdma]));
  }

  // ---------------------------------------------------------------------------
  // The fused reader computes what the two-stage reader computes, on every buffer
  // ---------------------------------------------------------------------------

  lemma {:induction false} FuseEntriesIsTwoStage(cur: seq<Byte>, n: nat, start: nat, pt: PageTable)
    ensures FuseEntries(cur, n, start, pt) ==
            match ParseEntries(cur, n)
            case None => None
            case Some(p) => Some(Parsed(MapEntries(pt, start, p.item), p.rest))
  {
    if n != 0 && |cur| >= 12 {
      var e := ReadEntry(cur);
      var pt' := MapPage(pt, (e.offset + start) % TWO_64, e.phys);
      FuseEntriesIsTwoStage(cur[12..], n - 1, start, pt');
      match ParseEntries(cur[12..], n - 1) {
        case None =>
        case Some(p) =>
          assert ([e] + p.item)[1..] == p.item;
      }
    }
  }

  lemma FuseTableIsTwoStage(cur: seq<Byte>, start: nat, pt: PageTable)
    ensures FuseTable(cur, start, pt) ==
            match ParseTable(cur)
            case None => None
            case Some(p) => Some(Parsed(MapEntries(pt, start, p.item), p.rest))
  {
    if |cur| >= 8 {
      var n := FromBytes(cur[..8]);
      match SkipPad(cur[8..], n) {
        case None =>
        case Some(body) => FuseEntriesIsTwoStage(body, n, start, pt);
      }
    }
  }

  lemma MapOneTable(pt: PageTable, v: Vma, t: seq<Entry>, vmas: seq<Vma>, tables: seq<seq<Entry>>)
    requires |vmas| == |tables|
    ensures MapTables(pt, [v] + vmas, [t] + tables) == MapTables(MapEntries(pt, v.start, t), vmas, tables)
  {
    assert ([v] + vmas)[1..] == vmas && ([t] + tables)[1..] == tables;
  }

  lemma {:induction false} FuseVmasIsTwoStage(l: Layout, cur: seq<Byte>, count: nat, pt: PageTable, vmas: seq<Vma>)
    requires l.Valid()
    ensures match ParseVmas(l, cur, count)
            case None => FuseVmas(l, cur, count, pt, vmas) == None
            case Some(p) =>
              && |p.item.0| == |p.item.1|
              && FuseVmas(l, cur, count, pt, vmas)
                 == Some(Parsed((vmas + p.item.0, MapTables(pt, p.item.0, p.item.1)), p.rest))
    decreases count
  {
    if count == 0 {
      assert vmas + [] == vmas;
    } else if |cur| >= l.vma {
      var v := ReadVma(l, cur);
      FuseTableIsTwoStage(cur[l.vma..], v.start, pt);
      match ParseTable(cur[l.vma..]) {
        case None =>
        case Some(t) =>
          FuseVmasIsTwoStage(l, t.rest, count - 1, MapEntries(pt, v.start, t.item), vmas + [v]);
          match ParseVmas(l, t.rest, count - 1) {
            case None =>
            case Some(p) =>
              MapOneTable(pt, v, t.item, p.item.0, p.item.1);
              assert vmas + [v] + p.item.0 == vmas + ([v] + p.item.0);
          }
      }
    }
  }

  /** The copy-free reader agrees with the plain one on every byte string, accepted or not. */
  lemma DecodeIsTwoStage(l: Layout, bytes: seq<Byte>)
    requires l.Valid()
    ensures match Parse(l, bytes)
            case None => Decode(l, bytes) == None
            case Some(p) => |p.item.vma| == |p.item.pageTable| && Decode(l, bytes) == Some(Expand(p.item))
  {
    if |bytes| >= l.regs + 8 {
      var count := FromBytes(bytes[l.regs..l.regs + 8]);
      FuseVmasIsTwoStage(l, bytes[l.regs + 8..], count, map[], []);
      match ParseVmas(l, bytes[l.regs + 8..], count) {
        case None =>
        case Some(p) => assert [] + p.item.0 == p.item.0;
      }
    }
  }

  // ---------------------------------------------------------------------------
  // Round trip
  // ---------------------------------------------------------------------------

  lemma Split(a: seq<Byte>, b: seq<Byte>)
    ensures (a + b)[..|a|] == a && (a + b)[|a|..] == b
  {
  }

  lemma DropBlock(s: seq<Byte>, at: nat, block: seq<Byte>, next: seq<Byte>)
    requires at <= |s| && s[at..] == block + next
    ensures at + |block| <= |s| && s[at..at + |block|] == block && s[at + |block|..] == next
  {
    Split(block, next);
    assert |s| - at == |block| + |next|;
    assert s[at..][..|block|] == s[at..at + |block|];
    assert s[at..][|block|..] == s[at + |block|..];
  }

  lemma EntryRoundTrip(e: Entry, next: seq<Byte>)
    requires FitsEntry(e)
    ensures ReadEntry(PutEntry(e, next)) == e && PutEntry(e, next)[12..] == next
  {
    Widths();
    WordRoundTrip(e.offset, 4);
    WordRoundTrip(e.phys, 8);
    var s, phys := PutEntry(e, next), ToBytes(e.phys, 8);
    Split(ToBytes(e.offset, 4), phys + next);
    DropBlock(s, 4, phys, next);
  }

  lemma {:induction false} EntriesRoundTrip(t: seq<Entry>, next: seq<Byte>)
    requires forall k :: 0 <= k < |t| ==> FitsEntry(t[k])
    ensures ParseEntries(PutEntries(t, next), |t|) == Some(Parsed(t, next))
  {
    if t != [] {
      EntryRoundTrip(t[0], PutEntries(t[1..], next));
      EntriesRoundTrip(t[1..], next);
      assert [t[0]] + t[1..] == t;
    }
  }

  lemma TableRoundTrip(t: seq<Entry>, next: seq<Byte>)
    requires FitsTable(t)
    ensures ParseTable(PutTable(t, next)) == Some(Parsed(t, next))
  {
    var body := PutEntries(t, next);
    Widths();
    WordRoundTrip(|t|, 8);
    Split(ToBytes(|t|, 8), Pad(|t|) + body);
    Split(Pad(|t|), body);
    EntriesRoundTrip(t, next);
  }

  lemma VmaRoundTrip(l: Layout, v: Vma, next: seq<Byte>)
    requires l.Valid() && FitsVma(l, v)
    ensures ReadVma(l, EncodeVma(v) + next) == v && (EncodeVma(v) + next)[l.vma..] == next
  {
    Widths();
    WordRoundTrip(v.start, 8);
    WordRoundTrip(v.end, 8);
    Split(EncodeVma(v), next);
    var s, end := EncodeVma(v) + next, ToBytes(v.end, 8);
    Regroup(ToBytes(v.start, 8), end + v.rest, next);
    Regroup(end, v.rest, next);
    Split(ToBytes(v.start, 8), end + (v.rest + next));
    DropBlock(s, 8, end, v.rest + next);
    DropBlock(s, 16, v.rest, next);
  }

  lemma VmasRoundTripStep(l: Layout, v: Vma, t: seq<Entry>, vmas: seq<Vma>, tables: seq<seq<Entry>>, next: seq<Byte>)
    requires l.Valid() && |vmas| == |tables| && FitsVma(l, v) && FitsTable(t)
    requires ParseVmas(l, PutVmas(vmas, tables, next), |vmas|) == Some(Parsed((vmas, tables), next))
    ensures ParseVmas(l, PutVmas([v] + vmas, [t] + tables, next), |vmas| + 1)
            == Some(Parsed(([v] + vmas, [t] + tables), next))
  {
    assert ([v] + vmas)[1..] == vmas && ([t] + tables)[1..] == tables;
    var more := PutVmas(vmas, tables, next);
    VmaRoundTrip(l, v, PutTable(t, more));
    TableRoundTrip(t, more);
  }

  lemma {:induction false} VmasRoundTrip(l: Layout, vmas: seq<Vma>, tables: seq<seq<Entry>>, next: seq<Byte>)
    requires l.Valid() && |vmas| == |tables|
    requires forall k :: 0 <= k < |vmas| ==> FitsVma(l, vmas[k])
    requires forall k :: 0 <= k < |tables| ==> FitsTable(tables[k])
    ensures ParseVmas(l, PutVmas(vmas, tables, next), |vmas|) == Some(Parsed((vmas, tables), next))
  {
    if vmas != [] {
      VmasRoundTrip(l, vmas[1..], tables[1..], next);
      VmasRoundTripStep(l, vmas[0], tables[0], vmas[1..], tables[1..], next);
      assert [vmas[0]] + vmas[1..] == vmas && [tables[0]] + tables[1..] == tables;
    }
  }

  /** Reading back what was written gives every field again and consumes exactly the bytes written. */
  lemma RoundTrip(l: Layout, d: ParentDescriptor, next: seq<Byte>)
    requires l.Valid() && WellFormed(l, d)
    ensures Parse(l, Put(d, next)) == Some(Parsed(d, next))
    ensures Decode(l, Put(d, next)) == Some(Expand(d))
  {
    Widths();
    WordRoundTrip(|d.vma|, 8);
    var s, count := Put(d, next), ToBytes(|d.vma|, 8);
    var more := PutVmas(d.vma, d.pageTable, d.machineInfo + next);
    Split(d.regs, count + more);
    DropBlock(s, l.regs, count, more);
    VmasRoundTrip(l, d.vma, d.pageTable, d.machineInfo + next);
    Split(d.machineInfo, next);
    DecodeIsTwoStage(l, s);
  }

  lemma {:induction false} PutEntriesAppends(t: seq<Entry>, mid: seq<Byte>, next: seq<Byte>)
    ensures PutEntries(t, mid + next) == PutEntries(t, mid) + next
  {
    if t != [] {
      var more := PutEntries(t[1..], mid);
      PutEntriesAppends(t[1..], mid, next);
      Regroup(ToBytes(t[0].phys, 8), more, next);
      Regroup(ToBytes(t[0].offset, 4), ToBytes(t[0].phys, 8) + more, next);
    }
  }

  lemma PutTableAppends(t: seq<Entry>, mid: seq<Byte>, next: seq<Byte>)
    ensures PutTable(t, mid + next) == PutTable(t, mid) + next
  {
    PutEntriesAppends(t, mid, next);
    Regroup(Pad(|t|), PutEntries(t, mid), next);
    Regroup(ToBytes(|t|, 8), Pad(|t|) + PutEntries(t, mid), next);
  }

  lemma {:induction false} PutVmasAppends(vmas: seq<Vma>, tables: seq<seq<Entry>>, mid: seq<Byte>, next: seq<Byte>)
    requires |vmas| == |tables|
    ensures PutVmas(vmas, tables, mid + next) == PutVmas(vmas, tables, mid) + next
  {
    if vmas != [] {
      PutVmasAppends(vmas[1..], tables[1..], mid, next);
      PutTableAppends(tables[0], PutVmas(vmas[1..], tables[1..], mid), next);
      Regroup(EncodeVma(vmas[0]), PutTable(tables[0], PutVmas(vmas[1..], tables[1..], mid)), next);
    }
  }

  /** `Put` is the serialised descriptor followed by the rest, so `Encode` is self-delimiting. */
  lemma PutIsEncode(d: ParentDescriptor, next: seq<Byte>)
    requires |d.vma| == |d.pageTable|
    ensures Put(d, next) == Encode(d) + next
  {
    assert d.machineInfo + [] == d.machineInfo;
    var body := PutVmas(d.vma, d.pageTable, d.machineInfo);
    PutVmasAppends(d.vma, d.pageTable, d.machineInfo, next);
    Regroup(ToBytes(|d.vma|, 8), body, next);
    Regroup(d.regs, ToBytes(|d.vma|, 8) + body, next);
  }

  /** Two descriptors whose bytes start alike are the same descriptor: no encoding is a prefix of another. */
  lemma EncodingIsPrefixFree(l: Layout, d1: ParentDescriptor, d2: ParentDescriptor, next1: seq<Byte>, next2: seq<Byte>)
    requires l.Valid() && WellFormed(l, d1) && WellFormed(l, d2)
    requires Encode(d1) + next1 == Encode(d2) + next2
    ensures d1 == d2 && next1 == next2
  {
    PutIsEncode(d1, next1);
    PutIsEncode(d2, next2);
    RoundTrip(l, d1, next1);
    RoundTrip(l, d2, next2);
  }

  // ---------------------------------------------------------------------------
  // Acceptance: whatever the reader accepts is a layout the writer could have produced
  // ---------------------------------------------------------------------------

  lemma {:induction false} ParseEntriesFits(cur: seq<Byte>, n: nat)
    ensures match ParseEntries(cur, n)
            case None => |cur| < 12 * n
            case Some(p) => |p.item| == n && |cur| == 12 * n + |p.rest| && forall k :: 0 <= k < n ==> FitsEntry(p.item[k])
  {
    if n != 0 && |cur| >= 12 {
      Widths();
      WordBound(cur[..4]);
      WordBound(cur[4..12]);
      ParseEntriesFits(cur[12..], n - 1);
    }
  }

  lemma ParseTableFits(cur: seq<Byte>)
    requires ParseTable(cur).Some?
    ensures var p := ParseTable(cur).value;
            FitsTable(p.item) && |cur| == TableLen(p.item) + |p.rest|
  {
    Widths();
    WordBound(cur[..8]);
    var n := FromBytes(cur[..8]);
    ParseEntriesFits(SkipPad(cur[8..], n).value, n);
  }

  lemma ReadVmaFits(l: Layout, cur: seq<Byte>)
    requires l.Valid() && |cur| >= l.vma
    ensures FitsVma(l, ReadVma(l, cur))
  {
    Widths();
    WordBound(cur[..8]);
    WordBound(cur[8..16]);
  }

  lemma {:induction false} ParseVmasFits(l: Layout, cur: seq<Byte>, count: nat)
    requires l.Valid() && ParseVmas(l, cur, count).Some?
    ensures var p := ParseVmas(l, cur, count).value;
            && |p.item.0| == |p.item.1| == count
            && (forall k :: 0 <= k < count ==> FitsVma(l, p.item.0[k]))
            && (forall k :: 0 <= k < count ==> FitsTable(p.item.1[k]))
            && |cur| == |PutVmas(p.item.0, p.item.1, p.rest)|
    decreases count
  {
    if count != 0 {
      ReadVmaFits(l, cur);
      var t := ParseTable(cur[l.vma..]).value;
      ParseTableFits(cur[l.vma..]);
      ParseVmasFits(l, t.rest, count - 1);
      var p := ParseVmas(l, t.rest, count - 1).value;
      var vs, ts := [ReadVma(l, cur)] + p.item.0, [t.item] + p.item.1;
      assert vs[1..] == p.item.0 && ts[1..] == p.item.1;
    }
  }

  /** How an accepted buffer comes apart. */
  lemma AcceptedParts(l: Layout, bytes: seq<Byte>)
    requires l.Valid() && Parse(l, bytes).Some?
    ensures var count, cur := FromBytes(bytes[l.regs..l.regs + 8]), bytes[l.regs + 8..];
            && ParseVmas(l, cur, count).Some?
            && var p, body := Parse(l, bytes).value, ParseVmas(l, cur, count).value;
               && p.item.regs == bytes[..l.regs]
               && p.item.vma == body.item.0 && p.item.pageTable == body.item.1
               && |p.item.machineInfo| == l.rdma
               && body.rest == p.item.machineInfo + p.rest
  {
  }

  lemma PutLength(d: ParentDescriptor, rest: seq<Byte>)
    requires |d.vma| == |d.pageTable|
    ensures |Put(d, rest)| == |d.regs| + 8 + |PutVmas(d.vma, d.pageTable, d.machineInfo + rest)|
  {
  }

  lemma AcceptedFits(l: Layout, bytes: seq<Byte>)
    requires l.Valid() && Parse(l, bytes).Some?
    ensures var p := Parse(l, bytes).value;
            && WellFormed(l, p.item)
            && |bytes| == |Put(p.item, p.rest)|
  {
    var count, cur := FromBytes(bytes[l.regs..l.regs + 8]), bytes[l.regs + 8..];
    Widths();
    WordBound(bytes[l.regs..l.regs + 8]);
    AcceptedParts(l, bytes);
    ParseVmasFits(l, cur, count);
    PutLength(Parse(l, bytes).value.item, Parse(l, bytes).value.rest);
  }

  /** Every accepted buffer yields a well-formed descriptor and is as long as its layout and what follows. */
  lemma AcceptedBuffers(l: Layout, bytes: seq<Byte>)
    requires l.Valid() && Parse(l, bytes).Some?
    ensures var p := Parse(l, bytes).value;
            && WellFormed(l, p.item)
            && |bytes| == |Encode(p.item)| + |p.rest|
            && Parse(l, Put(p.item, p.rest)) == Some(p)
  {
    AcceptedFits(l, bytes);
    var p := Parse(l, bytes).value;
    PutIsEncode(p.item, p.rest);
    RoundTrip(l, p.item, p.rest);
  }

  // ---------------------------------------------------------------------------
  // Alignment
  // ---------------------------------------------------------------------------

  /** Where the i-th VMA record starts; at i == |d.vma|, where the RDMA descriptor starts. */
  function RecordOffset(d: ParentDescriptor, i: nat): nat
    requires |d.vma| == |d.pageTable| && i <= |d.vma|
  {
    if i == 0 then |d.regs| + 8
    else RecordOffset(d, i - 1) + |EncodeVma(d.vma[i - 1])| + TableLen(d.pageTable[i - 1])
  }

  /** What is written from the i-th VMA record on. */
  function TailFrom(d: ParentDescriptor, i: nat): seq<Byte>
    requires |d.vma| == |d.pageTable| && i <= |d.vma|
  {
    PutVmas(d.vma[i..], d.pageTable[i..], d.machineInfo)
  }

  lemma TailSplits(d: ParentDescriptor, i: nat)
    requires |d.vma| == |d.pageTable| && i < |d.vma|
    ensures TailFrom(d, i) == EncodeVma(d.vma[i]) + PutTable(d.pageTable[i], TailFrom(d, i + 1))
  {
    assert d.vma[i..][1..] == d.vma[i + 1..] && d.pageTable[i..][1..] == d.pageTable[i + 1..];
  }

  lemma {:induction false} TableIsBlock(t: seq<Entry>, next: seq<Byte>)
    ensures PutTable(t, next) == PutTable(t, []) + next
  {
    PutTableAppends(t, [], next);
    assert [] + next == next;
  }

  lemma TailAtHead(d: ParentDescriptor)
    requires |d.vma| == |d.pageTable|
    ensures |d.regs| + 8 <= |Encode(d)| && Encode(d)[|d.regs| + 8..] == TailFrom(d, 0)
  {
    assert d.vma[0..] == d.vma && d.pageTable[0..] == d.pageTable;
    assert d.machineInfo + [] == d.machineInfo;
    Split(d.regs, ToBytes(|d.vma|, 8) + TailFrom(d, 0));
    DropBlock(Encode(d), |d.regs|, ToBytes(|d.vma|, 8), TailFrom(d, 0));
  }

  lemma DropRecord(s: seq<Byte>, at: nat, v: Vma, t: seq<Entry>, next: seq<Byte>)
    requires at <= |s| && s[at..] == EncodeVma(v) + PutTable(t, next)
    ensures at + |EncodeVma(v)| + TableLen(t) <= |s|
    ensures s[at + |EncodeVma(v)| + TableLen(t)..] == next
  {
    DropBlock(s, at, EncodeVma(v), PutTable(t, next));
    TableIsBlock(t, next);
    DropBlock(s, at + |EncodeVma(v)|, PutTable(t, []), next);
  }

  lemma {:induction false} TailAt(d: ParentDescriptor, i: nat)
    requires |d.vma| == |d.pageTable| && i <= |d.vma|
    ensures RecordOffset(d, i) <= |Encode(d)|
    ensures Encode(d)[RecordOffset(d, i)..] == TailFrom(d, i)
  {
    if i == 0 {
      TailAtHead(d);
    } else {
      TailAt(d, i - 1);
      TailSplits(d, i - 1);
      DropRecord(Encode(d), RecordOffset(d, i - 1), d.vma[i - 1], d.pageTable[i - 1], TailFrom(d, i));
    }
  }

  lemma OnGrid(k: nat)
    ensures (8 * k) % 8 == 0 && (8 * k + 4) % 8 == 4
  {
    QuotientIs(8 * k, k, 0, 8);
    QuotientIs(8 * k + 4, k, 4, 8);
  }

  lemma EvenTable(v: nat, half: nat)
    ensures (8 * v + 8 + 12 * (2 * half)) % 8 == 0
  {
    OnGrid(v + 1 + 3 * half);
    assert 8 * v + 8 + 12 * (2 * half) == 8 * (v + 1 + 3 * half);
  }

  lemma OddTable(v: nat, half: nat)
    ensures (8 * v + 8 + 12 * (2 * half + 1)) % 8 == 4
    ensures (8 * v + 12 + 12 * (2 * half + 1)) % 8 == 0
  {
    OnGrid(v + 2 + 3 * half);
    OnGrid(v + 3 + 3 * half);
    assert 8 * v + 8 + 12 * (2 * half + 1) == 8 * (v + 2 + 3 * half) + 4;
    assert 8 * v + 12 + 12 * (2 * half + 1) == 8 * (v + 3 + 3 * half);
  }

  /** Without its pad word a table keeps the 8-byte grid exactly when its page count is even. */
  lemma PadIsNeeded(l: Layout, t: seq<Entry>)
    requires l.Valid()
    ensures (l.vma + 8 + 12 * |t|) % 8 == 0 <==> |t| % 2 == 0
    ensures (l.vma + TableLen(t)) % 8 == 0
  {
    var n, half, v := |t|, |t| / 2, l.vma / 8;
    assert l.vma == 8 * v && n == 2 * half + n % 2;
    if n % 2 == 0 {
      EvenTable(v, half);
    } else {
      OddTable(v, half);
    }
  }

  lemma SumOfMultiples(a: nat, b: nat)
    requires a % 8 == 0 && b % 8 == 0
    ensures (a + b) % 8 == 0
  {
    OnGrid(a / 8 + b / 8);
  }

  lemma {:induction false} RecordOffsetAligned(l: Layout, d: ParentDescriptor, i: nat)
    requires l.Valid() && WellFormed(l, d) && i <= |d.vma|
    ensures RecordOffset(d, i) % 8 == 0
  {
    if i != 0 {
      RecordOffsetAligned(l, d, i - 1);
      PadIsNeeded(l, d.pageTable[i - 1]);
      assert FitsVma(l, d.vma[i - 1]);
      SumOfMultiples(RecordOffset(d, i - 1), l.vma + TableLen(d.pageTable[i - 1]));
    }
  }

  predicate DescribesRecord(l: Layout, d: ParentDescriptor, i: nat, at: nat)
    requires |d.vma| == |d.pageTable| && i < |d.vma|
  {
    && at + l.vma + 8 <= |Encode(d)|
    && Encode(d)[at..at + l.vma] == EncodeVma(d.vma[i])
    && Encode(d)[at + l.vma..at + l.vma + 8] == ToBytes(|d.pageTable[i]|, 8)
  }

  lemma RecordAt(l: Layout, d: ParentDescriptor, i: nat)
    requires |d.vma| == |d.pageTable| && i < |d.vma|
    requires l.vma == |EncodeVma(d.vma[i])|
    ensures DescribesRecord(l, d, i, RecordOffset(d, i))
  {
    TailAt(d, i);
    TailSplits(d, i);
    var at, v, t := RecordOffset(d, i), EncodeVma(d.vma[i]), d.pageTable[i];
    var next := PutEntries(t, TailFrom(d, i + 1));
    DropBlock(Encode(d), at, v, PutTable(t, TailFrom(d, i + 1)));
    DropBlock(Encode(d), at + |v|, ToBytes(|t|, 8), Pad(|t|) + next);
  }

  /** Every VMA record and every page count sits on an 8-byte boundary of the written bytes. */
  lemma RecordsAligned(l: Layout, d: ParentDescriptor, i: nat)
    requires l.Valid() && WellFormed(l, d) && i < |d.vma|
    ensures var at := RecordOffset(d, i);
            && at % 8 == 0 && (at + l.vma) % 8 == 0
            && DescribesRecord(l, d, i, at)
  {
    RecordOffsetAligned(l, d, i);
    assert FitsVma(l, d.vma[i]);
    RecordAt(l, d, i);
    SumOfMultiples(RecordOffset(d, i), l.vma);
  }

  /** The written bytes begin with the registers and the number of VMAs. */
  lemma HeaderBytes(d: ParentDescriptor)
    requires |d.vma| == |d.pageTable|
    ensures |d.regs| + 8 <= |Encode(d)|
    ensures Encode(d)[..|d.regs|] == d.regs
    ensures Encode(d)[|d.regs|..|d.regs| + 8] == ToBytes(|d.vma|, 8)
  {
    var rest := PutVmas(d.vma, d.pageTable, d.machineInfo + []);
    Split(d.regs, ToBytes(|d.vma|, 8) + rest);
    Split(ToBytes(|d.vma|, 8), rest);
    assert Encode(d)[|d.regs|..] == ToBytes(|d.vma|, 8) + rest;
  }

  lemma SliceBehind(s: seq<Byte>, from: nat, u: seq<Byte>, a: nat, b: nat)
    requires from <= |s| && s[from..] == u && a <= b <= |u|
    ensures from + b <= |s| && s[from + a..from + b] == u[a..b]
  {
    assert |s| == from + |u|;
    assert s[from..][a..b] == s[from + a..from + b];
  }

  /** A VMA record begins with its two bounds. */
  lemma BoundsOf(v: Vma)
    ensures EncodeVma(v)[..8] == ToBytes(v.start, 8)
    ensures EncodeVma(v)[8..16] == ToBytes(v.end, 8)
    ensures EncodeVma(v)[16..] == v.rest
  {
    var s, tail := EncodeVma(v), ToBytes(v.end, 8) + v.rest;
    Split(ToBytes(v.start, 8), tail);
    Split(ToBytes(v.end, 8), v.rest);
    assert s[8..] == tail;
    assert s[8..16] == tail[..8];
    assert s[16..] == tail[8..];
  }

  lemma FirstEntryIn(t: seq<Entry>, next: seq<Byte>)
    requires t != []
    ensures var s := PutEntries(t, next);
            && s[0..4] == ToBytes(t[0].offset, 4) && s[4..12] == ToBytes(t[0].phys, 8)
            && s[12..] == PutEntries(t[1..], next)
  {
    var rest, phys := PutEntries(t[1..], next), ToBytes(t[0].phys, 8);
    Split(ToBytes(t[0].offset, 4), phys + rest);
    Split(phys, rest);
    SliceBehind(PutEntries(t, next), 4, phys + rest, 0, 8);
    SliceBehind(PutEntries(t, next), 4, phys + rest, 8, 8 + |rest|);
  }

  lemma DropTwice(s: seq<Byte>, a: nat, b: nat)
    requires a <= |s| && b <= |s[a..]|
    ensures a + b <= |s| && s[a..][b..] == s[a + b..]
  {
  }

  lemma OneEntryOn(t: seq<Entry>, next: seq<Byte>, s: seq<Byte>, j: nat)
    requires j < |t| && 12 * j <= |s| && s[12 * j..] == PutEntries(t[j..], next)
    ensures 12 * j + 12 <= |s| && s[12 * j + 12..] == PutEntries(t[j + 1..], next)
  {
    FirstEntryIn(t[j..], next);
    DropTwice(s, 12 * j, 12);
    assert t[j..][1..] == t[j + 1..];
  }

  lemma {:induction false} EntriesFrom(t: seq<Entry>, next: seq<Byte>, s: seq<Byte>, j: nat)
    requires j <= |t| && s == PutEntries(t, next)
    ensures 12 * j <= |s| && s[12 * j..] == PutEntries(t[j..], next)
  {
    if j == 0 {
      assert t[0..] == t;
    } else {
      EntriesFrom(t, next, s, j - 1);
      OneEntryOn(t, next, s, j - 1);
    }
  }

  lemma EntryIn(t: seq<Entry>, next: seq<Byte>, j: nat)
    requires j < |t|
    ensures 12 * j + 12 <= |PutEntries(t, next)|
    ensures PutEntries(t, next)[12 * j..12 * j + 4] == ToBytes(t[j].offset, 4)
    ensures PutEntries(t, next)[12 * j + 4..12 * j + 12] == ToBytes(t[j].phys, 8)
  {
    var s, u := PutEntries(t, next), PutEntries(t[j..], next);
    EntriesFrom(t, next, s, j);
    FirstEntryIn(t[j..], next);
    SliceBehind(s, 12 * j, u, 0, 4);
    SliceBehind(s, 12 * j, u, 4, 12);
  }

  /** Where the entries of VMA i begin. */
  function EntriesOffset(l: Layout, d: ParentDescriptor, i: nat): nat
    requires |d.vma| == |d.pageTable| && i < |d.vma|
  {
    RecordOffset(d, i) + l.vma + 8 + if |d.pageTable[i]| % 2 == 1 then 4 else 0
  }

  lemma DropThree(s: seq<Byte>, at: nat, u: seq<Byte>, v: seq<Byte>, w: seq<Byte>, rest: seq<Byte>)
    requires at <= |s| && s[at..] == u + (v + (w + rest))
    ensures at + |u| + |v| + |w| <= |s| && s[at + |u| + |v| + |w|..] == rest
  {
    DropBlock(s, at, u, v + (w + rest));
    DropBlock(s, at + |u|, v, w + rest);
    DropBlock(s, at + |u| + |v|, w, rest);
  }

  lemma TableSplits(t: seq<Entry>, next: seq<Byte>)
    ensures PutTable(t, next) == ToBytes(|t|, 8) + (Pad(|t|) + PutEntries(t, next))
    ensures |Pad(|t|)| == if |t| % 2 == 1 then 4 else 0
  {
  }

  lemma EntriesBegin(l: Layout, d: ParentDescriptor, i: nat)
    requires l.Valid() && WellFormed(l, d) && i < |d.vma|
    ensures EntriesOffset(l, d, i) <= |Encode(d)|
    ensures Encode(d)[EntriesOffset(l, d, i)..] == PutEntries(d.pageTable[i], TailFrom(d, i + 1))
  {
    var t, next := d.pageTable[i], TailFrom(d, i + 1);
    assert FitsVma(l, d.vma[i]);
    TailAt(d, i);
    TailSplits(d, i);
    TableSplits(t, next);
    DropThree(Encode(d), RecordOffset(d, i), EncodeVma(d.vma[i]), ToBytes(|t|, 8), Pad(|t|), PutEntries(t, next));
  }

  /** Entry j of VMA i's table: twelve bytes behind the record, the page count and the pad, offset first. */
  lemma EntryBytes(l: Layout, d: ParentDescriptor, i: nat, j: nat)
    requires l.Valid() && WellFormed(l, d) && i < |d.vma| && j < |d.pageTable[i]|
    ensures var e, at := d.pageTable[i][j], EntriesOffset(l, d, i) + 12 * j;
            && at + 12 <= |Encode(d)|
            && Encode(d)[at..at + 4] == ToBytes(e.offset, 4)
            && Encode(d)[at + 4..at + 12] == ToBytes(e.phys, 8)
  {
    var u, from := PutEntries(d.pageTable[i], TailFrom(d, i + 1)), EntriesOffset(l, d, i);
    EntriesBegin(l, d, i);
    EntryIn(d.pageTable[i], TailFrom(d, i + 1), j);
    SliceBehind(Encode(d), from, u, 12 * j, 12 * j + 4);
    SliceBehind(Encode(d), from, u, 12 * j + 4, 12 * j + 12);
  }

  /** The trailing RDMA descriptor sits on an 8-byte boundary and ends the written bytes. */
  lemma TrailerAligned(l: Layout, d: ParentDescriptor)
    requires l.Valid() && WellFormed(l, d)
    ensures var at := RecordOffset(d, |d.vma|);
            at % 8 == 0 && at <= |Encode(d)| && Encode(d)[at..] == d.machineInfo
  {
    RecordOffsetAligned(l, d, |d.vma|);
    TailAt(d, |d.vma|);
  }
}
