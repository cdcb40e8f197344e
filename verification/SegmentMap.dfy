/** Building the mapping table of a library from its load commands: one mapping
    for the bytes of each segment in the file, and one for the zero-filled tail
    of a writable segment. */
module SegmentMap {
  import opened Wrappers

  type UInt32 = n: int | 0 <= n < 0x1_0000_0000
  const ULONG_MAX: UInt32 := 0xffff_ffff

  datatype Prot = Prot(read: bool, write: bool, execute: bool, cow: bool, zf: bool)

  datatype Segment = Segment(vmaddr: UInt32, vmsize: UInt32, fileoff: UInt32, filesize: UInt32, initprot: Prot)

  datatype LoadCommand = LcSegment(sc: Segment) | OtherCommand

  datatype Mapping = Mapping(address: int, size: int, fileOffset: int, maxProt: Prot, initProt: Prot)

  // ----- the table -----

  function ProtOf(sc: Segment): Prot {
    Prot(sc.initprot.read, sc.initprot.write, sc.initprot.execute, sc.initprot.write, false)
  }

  function FileMapping(sc: Segment): Mapping {
    Mapping(sc.vmaddr, sc.filesize, sc.fileoff, ProtOf(sc), ProtOf(sc))
  }

  predicate HasZeroFill(sc: Segment) {
    sc.initprot.write && sc.vmsize > sc.filesize
  }

  function ZeroMapping(sc: Segment): Mapping {
    var prot := ProtOf(sc).(cow := true, zf := true);
    Mapping(sc.vmaddr as int + sc.filesize as int, sc.vmsize as int - sc.filesize as int, 0, prot, prot)
  }

  function EntriesOf(sc: Segment): seq<Mapping> {
    if HasZeroFill(sc) then [FileMapping(sc), ZeroMapping(sc)] else [FileMapping(sc)]
  }

  /** The table a list of load commands calls for. */
  function Expand(cmds: seq<LoadCommand>): seq<Mapping> {
    if cmds == [] then []
    else Expand(cmds[..|cmds| - 1]) + (if cmds[|cmds| - 1].LcSegment? then EntriesOf(cmds[|cmds| - 1].sc) else [])
  }

  lemma {:induction false} ExpandPrefix(cmds: seq<LoadCommand>, k: nat)
    requires k <= |cmds|
    ensures Expand(cmds[..k]) <= Expand(cmds)
    decreases |cmds|
  {
    if k < |cmds| {
      ExpandPrefix(cmds[..|cmds| - 1], k);
      assert cmds[..|cmds| - 1][..k] == cmds[..k];
    } else {
      assert cmds[..k] == cmds;
    }
  }

  ghost predicate IsLeastVmaddr(cmds: seq<LoadCommand>, base: int) {
    && (forall c :: c in cmds && c.LcSegment? ==> base <= c.sc.vmaddr)
    && ((exists c :: c in cmds && c.LcSegment? && base == c.sc.vmaddr)
        || (base == ULONG_MAX && forall c :: c in cmds ==> !c.LcSegment?))
  }

  lemma ExpandMore(cmds: seq<LoadCommand>, k: nat)
    requires k < |cmds|
    ensures Expand(cmds[..k + 1]) == Expand(cmds[..k]) + (if cmds[k].LcSegment? then EntriesOf(cmds[k].sc) else [])
    ensures |Expand(cmds[..k + 1])| <= |Expand(cmds)|
  {
    assert cmds[..k + 1][..k] == cmds[..k];
    ExpandPrefix(cmds, k + 1);
  }

  /** The entries of one segment, from the given index on. `fits` is false where
      the program, which does not check, would write past its table. */
  method AddSegment(sc: Segment, mappingTable: array<Mapping>, index: nat) returns (fits: bool, entryIndex: nat)
    requires index <= mappingTable.Length
    modifies mappingTable
    ensures fits <==> index + |EntriesOf(sc)| <= mappingTable.Length
    ensures fits ==>
      && entryIndex == index + |EntriesOf(sc)|
      && mappingTable[..entryIndex] == old(mappingTable[..index]) + EntriesOf(sc)
  {
    entryIndex := index;
    if entryIndex == mappingTable.Length {
      return false, entryIndex;
    }
    var prot := Prot(false, false, false, false, false);
    if sc.initprot.execute {
      prot := prot.(execute := true);
    }
    if sc.initprot.read {
      prot := prot.(read := true);
    }
    if sc.initprot.write {
      prot := prot.(write := true, cow := true);
    }
    mappingTable[entryIndex] := Mapping(sc.vmaddr, sc.filesize, sc.fileoff, prot, prot);
    if sc.initprot.write && sc.vmsize > sc.filesize {
      entryIndex := entryIndex + 1;
      if entryIndex == mappingTable.Length {
        return false, entryIndex;
      }
      var zfProt := prot.(cow := true, zf := true);
      mappingTable[entryIndex] :=
        Mapping(sc.vmaddr as int + sc.filesize as int, sc.vmsize as int - sc.filesize as int, 0, zfProt, zfProt);
    }
    entryIndex := entryIndex + 1;
    fits := true;
  }

  /** Fills the table and finds the lowest segment address. */
  method BuildMappingTable(cmds: seq<LoadCommand>, mappingTable: array<Mapping>)
    returns (fits: bool, entryIndex: nat, baseAddress: int)
    modifies mappingTable
    ensures fits <==> |Expand(cmds)| <= mappingTable.Length
    ensures fits ==> entryIndex == |Expand(cmds)| && mappingTable[..entryIndex] == Expand(cmds)
    ensures fits ==> IsLeastVmaddr(cmds, baseAddress)
  {
    fits, entryIndex, baseAddress := true, 0, ULONG_MAX;
    var lc := 0;
    while lc < |cmds|
      invariant 0 <= lc <= |cmds| && fits
      invariant entryIndex == |Expand(cmds[..lc])| <= mappingTable.Length
      invariant mappingTable[..entryIndex] == Expand(cmds[..lc])
      invariant IsLeastVmaddr(cmds[..lc], baseAddress)
    {
      hide EntriesOf, IsLeastVmaddr;
      ExpandMore(cmds, lc);
      ghost var least := baseAddress;
      if cmds[lc].LcSegment? {
        if cmds[lc].sc.vmaddr < baseAddress {
          baseAddress := cmds[lc].sc.vmaddr;
        }
        fits, entryIndex := AddSegment(cmds[lc].sc, mappingTable, entryIndex);
        if !fits {
          return;
        }
      }
      LeastVmaddrSoFar(cmds, lc, least, baseAddress);
      lc := lc + 1;
    }
    assert cmds[..lc] == cmds;
  }

  lemma LeastVmaddrSoFar(cmds: seq<LoadCommand>, lc: nat, least: int, base: int)
    requires lc < |cmds| && IsLeastVmaddr(cmds[..lc], least)
    requires base == if cmds[lc].LcSegment? && cmds[lc].sc.vmaddr < least then cmds[lc].sc.vmaddr else least
    ensures IsLeastVmaddr(cmds[..lc + 1], base)
  {
    assert cmds[..lc + 1] == cmds[..lc] + [cmds[lc]];
    assert cmds[lc] in cmds[..lc + 1];
    assert forall c :: c in cmds[..lc] ==> c in cmds[..lc + 1];
  }

  // ----- what the table maps -----

  datatype Cell = FileByte(offset: int) | Zero

  predicate Covers(m: Mapping, a: int) {
    m.address <= a < m.address + m.size
  }

  function CellOf(m: Mapping, a: int): Cell {
    if m.initProt.zf then Zero else FileByte(m.fileOffset + (a - m.address))
  }

  /** What loading a segment puts at an address: its bytes in the file, then
      zeros if it is writable. */
  function SegmentCell(sc: Segment, a: int): Option<Cell> {
    if sc.vmaddr as int <= a < sc.vmaddr as int + sc.filesize as int then Some(FileByte(sc.fileoff as int + (a - sc.vmaddr as int)))
    else if sc.initprot.write && sc.vmaddr as int <= a < sc.vmaddr as int + sc.vmsize as int then Some(Zero)
    else None
  }

  predicate Within(sc: Segment, a: int) {
    sc.vmaddr as int <= a < sc.vmaddr as int + sc.vmsize as int
  }

  /** A library as the linker makes it. */
  ghost predicate WellFormed(cmds: seq<LoadCommand>) {
    && (forall i :: 0 <= i < |cmds| && cmds[i].LcSegment? ==> cmds[i].sc.filesize <= cmds[i].sc.vmsize)
    && (forall i, j, a ::
          0 <= i < |cmds| && 0 <= j < |cmds| && i != j && cmds[i].LcSegment? && cmds[j].LcSegment? ==>
          !(Within(cmds[i].sc, a) && Within(cmds[j].sc, a)))
  }

  /** Every entry comes from a segment. */
  lemma {:induction false} EntrySource(cmds: seq<LoadCommand>, k: nat) returns (i: nat, e: nat)
    requires k < |Expand(cmds)|
    ensures i < |cmds| && cmds[i].LcSegment? && e < |EntriesOf(cmds[i].sc)| && Expand(cmds)[k] == EntriesOf(cmds[i].sc)[e]
    ensures k == |Expand(cmds[..i])| + e
    decreases |cmds|
  {
    var front := cmds[..|cmds| - 1];
    if k < |Expand(front)| {
      i, e := EntrySource(front, k);
      assert front[..i] == cmds[..i];
    } else {
      i, e := |cmds| - 1, k - |Expand(front)|;
    }
  }

  /** And every segment has its entries in the table. */
  lemma EntriesPresent(cmds: seq<LoadCommand>, i: nat, e: nat)
    requires i < |cmds| && cmds[i].LcSegment? && e < |EntriesOf(cmds[i].sc)|
    ensures |Expand(cmds[..i])| + e < |Expand(cmds)|
    ensures Expand(cmds)[|Expand(cmds[..i])| + e] == EntriesOf(cmds[i].sc)[e]
  {
    ExpandPrefix(cmds, i + 1);
    assert cmds[..i + 1][..i] == cmds[..i];
  }

  lemma EntriesWithin(sc: Segment, e: nat, a: int)
    requires sc.filesize <= sc.vmsize && e < |EntriesOf(sc)| && Covers(EntriesOf(sc)[e], a)
    ensures Within(sc, a) && SegmentCell(sc, a) == Some(CellOf(EntriesOf(sc)[e], a))
    ensures forall f :: 0 <= f < |EntriesOf(sc)| && f != e ==> !Covers(EntriesOf(sc)[f], a)
  {
  }

  lemma EntriesDisjoint(cmds: seq<LoadCommand>, k: nat, l: nat, a: int)
    requires WellFormed(cmds) && k < |Expand(cmds)| && l < |Expand(cmds)| && k != l
    ensures !(Covers(Expand(cmds)[k], a) && Covers(Expand(cmds)[l], a))
  {
    var i, e := EntrySource(cmds, k);
    var j, f := EntrySource(cmds, l);
    if Covers(Expand(cmds)[k], a) && Covers(Expand(cmds)[l], a) {
      EntriesWithin(cmds[i].sc, e, a);
      EntriesWithin(cmds[j].sc, f, a);
    }
  }

  /** Some entry puts c at a. */
  predicate TableMaps(ms: seq<Mapping>, a: int, c: Cell) {
    exists k :: 0 <= k < |ms| && Covers(ms[k], a) && CellOf(ms[k], a) == c
  }

  /** Loading some segment puts c at a. */
  predicate SegmentsLoad(cmds: seq<LoadCommand>, a: int, c: Cell) {
    exists i :: 0 <= i < |cmds| && cmds[i].LcSegment? && SegmentCell(cmds[i].sc, a) == Some(c)
  }

  predicate OverlapAt(ms: seq<Mapping>, a: int) {
    exists k, l :: 0 <= k < |ms| && 0 <= l < |ms| && k != l && Covers(ms[k], a) && Covers(ms[l], a)
  }

  lemma NothingOverlaps(cmds: seq<LoadCommand>, a: int)
    requires WellFormed(cmds)
    ensures !OverlapAt(Expand(cmds), a)
  {
    hide Expand, Covers, WellFormed;
    forall k, l | 0 <= k < |Expand(cmds)| && 0 <= l < |Expand(cmds)| && k != l
      ensures !(Covers(Expand(cmds)[k], a) && Covers(Expand(cmds)[l], a))
    {
      EntriesDisjoint(cmds, k, l, a);
    }
  }

  lemma SizesOrdered(cmds: seq<LoadCommand>, i: nat)
    requires WellFormed(cmds) && i < |cmds| && cmds[i].LcSegment?
    ensures cmds[i].sc.filesize <= cmds[i].sc.vmsize
  {
  }

  lemma MapsWhatLoads(cmds: seq<LoadCommand>, a: int, c: Cell)
    requires WellFormed(cmds) && TableMaps(Expand(cmds), a, c)
    ensures SegmentsLoad(cmds, a, c)
  {
    hide Expand, Covers, CellOf, SegmentCell, EntriesOf, WellFormed;
    var k :| 0 <= k < |Expand(cmds)| && Covers(Expand(cmds)[k], a) && CellOf(Expand(cmds)[k], a) == c;
    var i, e := EntrySource(cmds, k);
    SizesOrdered(cmds, i);
    EntriesWithin(cmds[i].sc, e, a);
  }

  lemma SegmentInEntry(sc: Segment, a: int, c: Cell) returns (e: nat)
    requires sc.filesize <= sc.vmsize && SegmentCell(sc, a) == Some(c)
    ensures e < |EntriesOf(sc)| && Covers(EntriesOf(sc)[e], a) && CellOf(EntriesOf(sc)[e], a) == c
  {
    e := if a < sc.vmaddr as int + sc.filesize as int then 0 else 1;
  }

  lemma LoadsWhatMaps(cmds: seq<LoadCommand>, a: int, c: Cell)
    requires WellFormed(cmds) && SegmentsLoad(cmds, a, c)
    ensures TableMaps(Expand(cmds), a, c)
  {
    hide Expand, Covers, CellOf, SegmentCell, EntriesOf, WellFormed;
    var i :| 0 <= i < |cmds| && cmds[i].LcSegment? && SegmentCell(cmds[i].sc, a) == Some(c);
    SizesOrdered(cmds, i);
    var e := SegmentInEntry(cmds[i].sc, a, c);
    EntriesPresent(cmds, i, e);
  }

  /** Address by address, the table maps what loading the segments one by one
      puts there, and nothing else; no two entries overlap. */
  lemma TableIsImage(cmds: seq<LoadCommand>, a: int, c: Cell)
    requires WellFormed(cmds)
    ensures !OverlapAt(Expand(cmds), a)
    ensures TableMaps(Expand(cmds), a, c) <==> SegmentsLoad(cmds, a, c)
  {
    hide WellFormed, Expand, TableMaps, SegmentsLoad, OverlapAt;
    NothingOverlaps(cmds, a);
    if TableMaps(Expand(cmds), a, c) {
      MapsWhatLoads(cmds, a, c);
    }
    if SegmentsLoad(cmds, a, c) {
      LoadsWhatMaps(cmds, a, c);
    }
  }

  // ----- with what protections -----

  /** What may be done with a segment's memory, bit by bit, and nothing else: it is
      copied on writing where it may be written to, and filled with zeros where
      the file has no bytes for it. */
  predicate Protects(sc: Segment, m: Mapping, tail: bool) {
    && (m.initProt.read <==> sc.initprot.read)
    && (m.initProt.write <==> sc.initprot.write)
    && (m.initProt.execute <==> sc.initprot.execute)
    && (m.initProt.cow <==> sc.initprot.write)
    && (m.initProt.zf <==> tail)
    && m.maxProt == m.initProt
  }

  /** Every entry of the table is the file part or the tail of one segment, with
      that segment's protections. */
  lemma EntryProtects(cmds: seq<LoadCommand>, k: nat) returns (i: nat)
    requires k < |Expand(cmds)|
    ensures i < |cmds| && cmds[i].LcSegment?
    ensures var sc, m := cmds[i].sc, Expand(cmds)[k];
      || (Protects(sc, m, false) && m.address == sc.vmaddr && m.size == sc.filesize && m.fileOffset == sc.fileoff)
      || (Protects(sc, m, true) && m.address == sc.vmaddr as int + sc.filesize as int
          && m.address + m.size == sc.vmaddr as int + sc.vmsize as int && m.size > 0 && m.fileOffset == 0
          && sc.initprot.write)
  {
    var e;
    i, e := EntrySource(cmds, k);
  }

  /** At every address a segment has, whatever entry covers it has the segment's
      protections, and zero fill exactly beyond the bytes in the file. */
  lemma ProtectedAsSegment(cmds: seq<LoadCommand>, i: nat, k: nat, a: int)
    requires WellFormed(cmds) && i < |cmds| && cmds[i].LcSegment? && Within(cmds[i].sc, a)
    requires k < |Expand(cmds)| && Covers(Expand(cmds)[k], a)
    ensures Protects(cmds[i].sc, Expand(cmds)[k], a >= cmds[i].sc.vmaddr as int + cmds[i].sc.filesize as int)
  {
    var j := EntryProtects(cmds, k);
    SizesOrdered(cmds, j);
    assert Within(cmds[j].sc, a);
  }
}
