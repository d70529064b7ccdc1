/**
 What it means for bytes to be a compound file of 512-byte sectors (the Compound Document
 File Format by Daniel Rentz; sections 2.2 to 2.6 of [MS-CFB]). The layout is a ghost: the
 reader sees the bytes alone.
 */
module CompoundLayout {
  import opened Bytes
  import opened SectorChains

  function SectorPos(id: nat): nat { 512 + id * 512 }

  predicate InFile(bytes: seq<byte>, id: nat) { SectorPos(id) + 512 <= |bytes| }

  ghost predicate AllInFile(bytes: seq<byte>, ids: seq<nat>) {
    forall k :: 0 <= k < |ids| ==> InFile(bytes, ids[k])
  }

  ghost predicate Int32At(bytes: seq<byte>, p: nat, v: int) {
    p + 4 <= |bytes| && -0x8000_0000 <= v < 0x8000_0000 && bytes[p..p + 4] == Int32Bytes(v)
  }

  ghost predicate Int16At(bytes: seq<byte>, p: nat, v: nat) {
    p + 2 <= |bytes| && v < 0x8000 && bytes[p..p + 2] == Encode(v, 2)
  }

  ghost predicate Int8At(bytes: seq<byte>, p: nat, v: nat) {
    p + 1 <= |bytes| && v < 0x80 && bytes[p..p + 1] == Encode(v, 1)
  }

  lemma IntsAt(bytes: seq<byte>, p: nat, v: int)
    ensures Int32At(bytes, p, v) ==> GetSignedInt(bytes[p..p + 4]) == Ok(v)
    ensures v >= 0 && Int16At(bytes, p, v) ==> GetSignedInt(bytes[p..p + 2]) == Ok(v)
    ensures v >= 0 && Int8At(bytes, p, v) ==> GetSignedInt(bytes[p..p + 1]) == Ok(v)
  {
    Powers();
    if Int32At(bytes, p, v) { SignedRoundTrip(v); }
    if v >= 0 && Int16At(bytes, p, v) { UnsignedRoundTrip(v, 2); }
    if v >= 0 && Int8At(bytes, p, v) { UnsignedRoundTrip(v, 1); }
  }

  // ------------------------------------------------------------------------ layout

  /** A directory entry as stored: the 64 bytes of its name, type, first sector and size. */
  datatype Stored = Stored(nameField: seq<byte>, kind: nat, start: int, size: int)

  const ROOT_STORAGE: nat := 5

  datatype Layout = Layout(
    minStreamSize: int,
    satIDs: seq<nat>,       // the sectors of the sector allocation table, in order
    msatIDs: seq<nat>,      // the sectors that list those beyond the first 109
    sat: seq<int>,
    dirChain: seq<nat>,
    ssatChain: seq<nat>,
    ssat: seq<int>,         // the allocation table of the short sectors
    rootChain: seq<nat>,    // the sectors that contain the short sectors
    entries: seq<Stored>)

  function First(chain: seq<nat>): int { if chain == [] then -2 else chain[0] }

  function SatID(lay: Layout, n: nat): int { if n < |lay.satIDs| then lay.satIDs[n] else -1 }

  ghost predicate HeaderAt(bytes: seq<byte>, lay: Layout) {
    && |bytes| >= 512
    && Int16At(bytes, 30, 9) && Int16At(bytes, 32, 6)
    && Int32At(bytes, 48, First(lay.dirChain)) && Int32At(bytes, 56, lay.minStreamSize)
    && Int32At(bytes, 60, First(lay.ssatChain)) && Int32At(bytes, 68, First(lay.msatIDs))
    && forall n: nat :: n < 109 ==> Int32At(bytes, 76 + n * 4, SatID(lay, n))
  }

  ghost predicate MsatSlotAt(bytes: seq<byte>, lay: Layout, m: nat)
    requires m < 127 * |lay.msatIDs|
  {
    Int32At(bytes, SectorPos(lay.msatIDs[m / 127]) + m % 127 * 4, SatID(lay, 109 + m))
  }

  ghost predicate MsatLinkAt(bytes: seq<byte>, lay: Layout, k: nat)
    requires k < |lay.msatIDs|
  {
    Int32At(bytes, SectorPos(lay.msatIDs[k]) + 508, First(lay.msatIDs[k + 1..]))
  }

  /** The list of SAT sectors continues in a linked list of sectors of 127 entries and a link. */
  ghost predicate MsatAt(bytes: seq<byte>, lay: Layout) {
    && |lay.satIDs| <= 109 + 127 * |lay.msatIDs|
    && AllInFile(bytes, lay.satIDs) && AllInFile(bytes, lay.msatIDs)
    && (forall m: nat :: m < 127 * |lay.msatIDs| ==> MsatSlotAt(bytes, lay, m))
    && forall k: nat :: k < |lay.msatIDs| ==> MsatLinkAt(bytes, lay, k)
  }

  ghost predicate SlotAt(bytes: seq<byte>, ids: seq<nat>, table: seq<int>, m: nat)
    requires m < |table| == 128 * |ids|
  {
    Int32At(bytes, SectorPos(ids[m / 128]) + m % 128 * 4, table[m])
  }

  /** The sectors ids hold the entries of table, 128 in each. */
  ghost predicate TableAt(bytes: seq<byte>, ids: seq<nat>, table: seq<int>) {
    && AllInFile(bytes, ids)
    && |table| == 128 * |ids|
    && forall m: nat :: m < |table| ==> SlotAt(bytes, ids, table, m)
  }

  ghost predicate EntryAt(bytes: seq<byte>, p: nat, e: Stored) {
    && p + 128 <= |bytes| && bytes[p..p + 64] == e.nameField
    && Int8At(bytes, p + 66, e.kind) && Int32At(bytes, p + 116, e.start) && Int32At(bytes, p + 120, e.size)
  }

  ghost predicate StoredAt(bytes: seq<byte>, lay: Layout, j: nat)
    requires j < |lay.entries| == 4 * |lay.dirChain|
  {
    EntryAt(bytes, SectorPos(lay.dirChain[j / 4]) + j % 4 * 128, lay.entries[j])
  }

  ghost predicate DirectoryAt(bytes: seq<byte>, lay: Layout) {
    && |lay.entries| == 4 * |lay.dirChain|
    && (forall j: nat :: j < |lay.entries| ==> StoredAt(bytes, lay, j))
    && forall j: nat :: j < |lay.entries| ==> (lay.entries[j].kind == ROOT_STORAGE <==> j == 0)
  }

  function RootStart(lay: Layout): int { if lay.entries == [] then -2 else lay.entries[0].start }

  ghost predicate StoredChain(bytes: seq<byte>, lay: Layout, start: int, chain: seq<nat>) {
    IsChain(lay.sat, start, chain) && AllInFile(bytes, chain)
  }

  /** The bytes are a well-formed compound file with this layout. */
  ghost predicate Encodes(bytes: seq<byte>, lay: Layout) {
    && HeaderAt(bytes, lay) && MsatAt(bytes, lay)
    && TableAt(bytes, lay.satIDs, lay.sat)
    && StoredChain(bytes, lay, First(lay.dirChain), lay.dirChain)
    && StoredChain(bytes, lay, First(lay.ssatChain), lay.ssatChain)
    && TableAt(bytes, lay.ssatChain, lay.ssat)
    && DirectoryAt(bytes, lay)
    && StoredChain(bytes, lay, RootStart(lay), lay.rootChain)
  }

  // ----------------------------------------------------------------------- streams

  predicate IsShort(lay: Layout, e: Stored) { e.kind != ROOT_STORAGE && e.size < lay.minStreamSize }

  /** Byte q of the container of short sectors. */
  ghost function ContainerByte(bytes: seq<byte>, lay: Layout, q: nat): byte
    requires q < 512 * |lay.rootChain| && AllInFile(bytes, lay.rootChain)
  {
    bytes[SectorPos(lay.rootChain[q / 512]) + q % 512]
  }

  function TableFor(lay: Layout, e: Stored): seq<int> { if IsShort(lay, e) then lay.ssat else lay.sat }

  /** The sectors, or short sectors, of an entry. */
  ghost function EntryChain(lay: Layout, e: Stored): seq<nat>
    requires ReachesEnd(TableFor(lay, e), e.start)
  {
    ChainFrom(TableFor(lay, e), e.start)
  }

  /** Data lies in the given sectors of the file, 512 bytes in each. */
  ghost predicate InSectors(bytes: seq<byte>, data: seq<byte>, chain: seq<nat>) {
    && AllInFile(bytes, chain) && |data| <= 512 * |chain|
    && forall j: nat :: j < |data| ==> data[j] == bytes[SectorPos(chain[j / 512]) + j % 512]
  }

  /** Data lies in the given short sectors of the container, 64 bytes in each. */
  ghost predicate InShortSectors(bytes: seq<byte>, lay: Layout, data: seq<byte>, chain: seq<nat>) {
    && AllInFile(bytes, lay.rootChain) && |data| <= 64 * |chain|
    && (forall k :: 0 <= k < |chain| ==> 64 * chain[k] + 64 <= 512 * |lay.rootChain|)
    && forall j: nat :: j < |data| ==> data[j] == ContainerByte(bytes, lay, 64 * chain[j / 64] + j % 64)
  }

  /** The stream of entry e is data. */
  ghost predicate Holds(bytes: seq<byte>, lay: Layout, e: Stored, data: seq<byte>) {
    && |data| == e.size && ReachesEnd(TableFor(lay, e), e.start)
    && if IsShort(lay, e) then InShortSectors(bytes, lay, data, EntryChain(lay, e))
       else InSectors(bytes, data, EntryChain(lay, e))
  }

  // ------------------------------------------------- reading the sectors of a chain

  /** The slice data[lo:hi] of Python: cut off at the end of the sequence. */
  function Slice(data: seq<byte>, lo: nat, hi: nat): (s: seq<byte>)
    ensures |s| == if hi <= lo || |data| <= lo then 0 else if hi <= |data| then hi - lo else |data| - lo
    ensures forall i :: 0 <= i < |s| ==> s[i] == data[lo + i]
    decreases hi - lo
  {
    if hi <= lo || |data| <= lo then [] else [data[lo]] + Slice(data, lo + 1, hi)
  }

  /** The first n pieces of the given size at the given positions, one after the other. */
  function ReadFirst(data: seq<byte>, size: nat, starts: seq<nat>, n: nat): seq<byte>
    requires n <= |starts|
    decreases n
  {
    if n == 0 then []
    else ReadFirst(data, size, starts, n - 1) + Slice(data, starts[n - 1], starts[n - 1] + size)
  }

  function Starts(offset: nat, size: nat, chain: seq<nat>): seq<nat> {
    seq(|chain|, k requires 0 <= k < |chain| => offset + chain[k] * size)
  }

  function ReadChain(data: seq<byte>, offset: nat, size: nat, chain: seq<nat>): seq<byte> {
    ReadFirst(data, size, Starts(offset, size, chain), |chain|)
  }

  ghost predicate Inside(data: seq<byte>, size: nat, starts: seq<nat>) {
    forall k :: 0 <= k < |starts| ==> starts[k] + size <= |data|
  }

  /** The length of n pieces. */
  function Offset(n: nat, size: nat): nat { if n == 0 then 0 else Offset(n - 1, size) + size }

  lemma {:induction false} Offsets(n: nat)
    ensures Offset(n, 512) == 512 * n && Offset(n, 64) == 64 * n
  {
    if n > 0 { Offsets(n - 1); }
  }

  lemma {:induction false} ReadLength(data: seq<byte>, size: nat, starts: seq<nat>, n: nat)
    requires Inside(data, size, starts) && n <= |starts|
    ensures |ReadFirst(data, size, starts, n)| == Offset(n, size)
    decreases n
  {
    if n > 0 {
      ReadLength(data, size, starts, n - 1);
    }
  }

  /** Byte o of the k-th piece. */
  lemma {:induction false} ReadByte(data: seq<byte>, size: nat, starts: seq<nat>, n: nat, k: nat, o: nat)
    requires Inside(data, size, starts) && k < n <= |starts| && o < size
    ensures Offset(k, size) + o < |ReadFirst(data, size, starts, n)|
    ensures ReadFirst(data, size, starts, n)[Offset(k, size) + o] == data[starts[k] + o]
    decreases n
  {
    if k < n - 1 {
      ReadByte(data, size, starts, n - 1, k, o);
    } else {
      ReadLength(data, size, starts, k);
      assert Slice(data, starts[k], starts[k] + size)[o] == data[starts[k] + o];
    }
  }

  /** More bytes behind do not change what is read inside the first bytes. */
  lemma {:induction false} ReadPrefix(data: seq<byte>, grown: seq<byte>, size: nat, starts: seq<nat>, n: nat)
    requires Inside(data, size, starts) && n <= |starts|
    requires |data| <= |grown| && forall i :: 0 <= i < |data| ==> grown[i] == data[i]
    ensures ReadFirst(grown, size, starts, n) == ReadFirst(data, size, starts, n)
    decreases n
  {
    if n > 0 {
      ReadPrefix(data, grown, size, starts, n - 1);
      assert Slice(grown, starts[n - 1], starts[n - 1] + size) == Slice(data, starts[n - 1], starts[n - 1] + size);
    }
  }

  lemma {:induction false} ReadSame(data: seq<byte>, size: nat, starts: seq<nat>, all: seq<nat>, n: nat)
    requires n <= |starts| && n <= |all| && forall k :: 0 <= k < n ==> all[k] == starts[k]
    ensures ReadFirst(data, size, all, n) == ReadFirst(data, size, starts, n)
    decreases n
  {
    if n > 0 {
      ReadSame(data, size, starts, all, n - 1);
    }
  }

  lemma ReadSnoc(data: seq<byte>, size: nat, starts: seq<nat>, p: nat)
    ensures ReadFirst(data, size, starts + [p], |starts| + 1)
         == ReadFirst(data, size, starts, |starts|) + Slice(data, p, p + size)
  {
    ReadSame(data, size, starts, starts + [p], |starts|);
    assert (starts + [p])[|starts|] == p;
  }

  /** The container of the short sectors, as the reader puts it together. */
  function Container(bytes: seq<byte>, lay: Layout): seq<byte>
  {
    ReadChain(bytes, 512, 512, lay.rootChain)
  }

  lemma InFileInside(bytes: seq<byte>, chain: seq<nat>)
    requires AllInFile(bytes, chain)
    ensures Inside(bytes, 512, Starts(512, 512, chain))
    ensures |ReadChain(bytes, 512, 512, chain)| == 512 * |chain|
  {
    forall k | 0 <= k < |chain| ensures Starts(512, 512, chain)[k] + 512 <= |bytes| {
      assert InFile(bytes, chain[k]);
    }
    ReadLength(bytes, 512, Starts(512, 512, chain), |chain|);
    Offsets(|chain|);
  }

  lemma SectorByte(bytes: seq<byte>, chain: seq<nat>, q: nat)
    requires AllInFile(bytes, chain) && q < 512 * |chain|
    ensures |ReadChain(bytes, 512, 512, chain)| == 512 * |chain| && InFile(bytes, chain[q / 512])
    ensures ReadChain(bytes, 512, 512, chain)[q] == bytes[SectorPos(chain[q / 512]) + q % 512]
  {
    InFileInside(bytes, chain);
    Offsets(q / 512);
    ReadByte(bytes, 512, Starts(512, 512, chain), |chain|, q / 512, q % 512);
  }

  /** The sectors of an entry as the reader puts them together. */
  ghost function Sectors(bytes: seq<byte>, lay: Layout, e: Stored): seq<byte>
    requires ReachesEnd(TableFor(lay, e), e.start)
  {
    if IsShort(lay, e) then ReadChain(Container(bytes, lay), 0, 64, EntryChain(lay, e))
    else ReadChain(bytes, 512, 512, EntryChain(lay, e))
  }

  lemma SectorsRead(bytes: seq<byte>, data: seq<byte>, chain: seq<nat>)
    requires InSectors(bytes, data, chain)
    ensures data <= ReadChain(bytes, 512, 512, chain)
  {
    InFileInside(bytes, chain);
    forall j | 0 <= j < |data| ensures data[j] == ReadChain(bytes, 512, 512, chain)[j] {
      SectorByte(bytes, chain, j);
    }
  }

  lemma ShortInside(bytes: seq<byte>, lay: Layout, data: seq<byte>, chain: seq<nat>)
    requires InShortSectors(bytes, lay, data, chain)
    ensures |Container(bytes, lay)| == 512 * |lay.rootChain|
    ensures Inside(Container(bytes, lay), 64, Starts(0, 64, chain))
    ensures |ReadChain(Container(bytes, lay), 0, 64, chain)| == 64 * |chain|
  {
    InFileInside(bytes, lay.rootChain);
    ReadLength(Container(bytes, lay), 64, Starts(0, 64, chain), |chain|);
    Offsets(|chain|);
  }

  lemma ShortByte(bytes: seq<byte>, lay: Layout, chain: seq<nat>, box: seq<byte>, k: nat, o: nat)
    requires box == Container(bytes, lay) && Inside(box, 64, Starts(0, 64, chain)) && k < |chain| && o < 64
    requires AllInFile(bytes, lay.rootChain) && 64 * chain[k] + 64 <= 512 * |lay.rootChain|
    ensures k * 64 + o < |ReadChain(box, 0, 64, chain)|
    ensures ReadChain(box, 0, 64, chain)[k * 64 + o] == ContainerByte(bytes, lay, 64 * chain[k] + o)
  {
    var q := 64 * chain[k] + o;
    assert Starts(0, 64, chain)[k] + o == q && q < 512 * |lay.rootChain|;
    Offsets(k);
    ReadByte(box, 64, Starts(0, 64, chain), |chain|, k, o);
    assert box[q] == ContainerByte(bytes, lay, q) by { SectorByte(bytes, lay.rootChain, q); }
  }

  lemma ShortSectorsRead(bytes: seq<byte>, lay: Layout, data: seq<byte>, chain: seq<nat>)
    requires InShortSectors(bytes, lay, data, chain)
    ensures data <= ReadChain(Container(bytes, lay), 0, 64, chain)
  {
    var box := Container(bytes, lay);
    ShortInside(bytes, lay, data, chain);
    forall j: nat | j < |data| ensures data[j] == ReadChain(box, 0, 64, chain)[j] {
      ShortByte(bytes, lay, chain, box, j / 64, j % 64);
    }
  }

  /** The sectors of a stream begin with the stream. */
  lemma SectorsHoldStream(bytes: seq<byte>, lay: Layout, e: Stored, data: seq<byte>)
    requires Holds(bytes, lay, e, data)
    ensures data <= Sectors(bytes, lay, e)
  {
    if IsShort(lay, e) {
      ShortSectorsRead(bytes, lay, data, EntryChain(lay, e));
    } else {
      SectorsRead(bytes, data, EntryChain(lay, e));
    }
  }
}
