/**
 The compound file reader (scratch/mso-dumper/src/ole.py): header, master sector allocation
 table, sector allocation table, directory, and the streams it names. The methods are proved
 on every image that CompoundLayout.Encodes accepts; lay is the ghost layout of the image.
 */
module CompoundReader {
  import opened Wrappers
  import opened Bytes
  import opened SectorChains
  import opened CompoundLayout

  function Pow2(n: nat): nat { if n == 0 then 1 else 2 * Pow2(n - 1) }

  /** The allocation table of sectors, and (for the SSAT) of short sectors. */
  class Sat {
    const sectorSize: nat
    const bytes: seq<byte>
    var sectorIDs: seq<nat>
    var table: seq<int>

    constructor (sectorSize: nat, bytes: seq<byte>)
      ensures this.sectorSize == sectorSize && this.bytes == bytes && sectorIDs == [] && table == []
    {
      this.sectorSize, this.bytes := sectorSize, bytes;
      sectorIDs, table := [], [];
    }

    method AddSector(id: nat)
      modifies this`sectorIDs
      ensures sectorIDs == old(sectorIDs) + [id]
    {
      sectorIDs := sectorIDs + [id];
    }

    /** Entry 128k+i of the table is the i-th integer of the k-th sector. */
    method BuildArray(ghost expected: seq<int>)
      requires sectorSize == 512 && TableAt(bytes, sectorIDs, expected)
      requires table == [] || table == expected
      modifies this`table
      ensures table == expected
    {
      if |table| > 0 { return; }
      var numItems := sectorSize / 4;
      for k := 0 to |sectorIDs|
        invariant table == expected[..128 * k]
      {
        var pos := 512 + sectorIDs[k] * sectorSize;
        assert InFile(bytes, sectorIDs[k]);
        for i := 0 to numItems
          invariant table == expected[..128 * k + i]
        {
          ghost var m: nat := 128 * k + i;
          assert SlotAt(bytes, sectorIDs, expected, m);
          var beginPos := pos + i * 4;
          IntsAt(bytes, beginPos, expected[m]);
          var id := GetSignedInt(bytes[beginPos..beginPos + 4]);
          table := table + [id.value];
        }
      }
    }

    method GetSectorIDChain(initID: int) returns (chain: seq<nat>)
      requires ReachesEnd(table, initID)
      ensures IsChain(table, initID, chain)
    {
      if initID < 0 { return []; }
      ghost var path :| IsChain(table, initID, path);
      chain := [initID];
      var nextID := table[initID];
      while nextID != -2
        invariant 1 <= |chain| <= |path| && chain == path[..|chain|]
        invariant nextID == if |chain| < |path| then path[|chain|] else -2
        decreases |path| - |chain|
      {
        chain := chain + [nextID];
        nextID := table[nextID];
      }
    }
  }

  /** The list of the sectors of the SAT; the table is built once and kept. */
  class Msat {
    const sectorSize: nat
    const bytes: seq<byte>
    var secIDs: seq<nat>
    var sat: Sat?

    constructor (sectorSize: nat, bytes: seq<byte>)
      ensures this.sectorSize == sectorSize && this.bytes == bytes && secIDs == [] && sat == null
    {
      this.sectorSize, this.bytes := sectorSize, bytes;
      secIDs, sat := [], null;
    }

    ghost predicate Valid(lay: Layout)
      reads this, sat
    {
      secIDs == lay.satIDs && sectorSize == 512 && (sat != null ==> sat.table == lay.sat)
    }

    method AppendSectorID(id: nat)
      modifies this`secIDs
      ensures secIDs == old(secIDs) + [id]
    {
      secIDs := secIDs + [id];
    }

    method GetSAT(ghost lay: Layout) returns (r: Sat)
      requires Valid(lay) && TableAt(bytes, lay.satIDs, lay.sat)
      modifies this`sat
      ensures Valid(lay) && sat == r && (old(sat) != null ==> sat == old(sat)) && (old(sat) == null ==> fresh(sat))
    {
      if sat != null { return sat; }
      var obj := new Sat(sectorSize, bytes);
      for k := 0 to |secIDs|
        modifies obj
        invariant obj.sectorIDs == secIDs[..k] && obj.table == []
      {
        obj.AddSector(secIDs[k]);
      }
      assert secIDs[..|secIDs|] == secIDs;
      obj.BuildArray(lay.sat);
      sat := obj;
      return sat;
    }
  }

  ghost function FirstIDs(lay: Layout, n: nat): seq<nat> {
    if n < |lay.satIDs| then lay.satIDs[..n] else lay.satIDs
  }

  class Header {
    const bytes: seq<byte>
    var secSize: int
    var secSizeShort: int
    var minStreamSize: int
    var secIDFirstMSAT: int
    var secIDFirstSSAT: int
    var secIDFirstDirStrm: int
    var msat: Msat

    constructor (bytes: seq<byte>)
      ensures this.bytes == bytes && fresh(msat)
    {
      this.bytes := bytes;
      secSize, secSizeShort, minStreamSize := 512, 64, 0;
      secIDFirstMSAT, secIDFirstSSAT, secIDFirstDirStrm := -2, -2, -2;
      msat := new Msat(512, bytes);
    }

    ghost predicate Parsed(lay: Layout)
      reads this, msat, msat.sat
    {
      && secSize == 9 && secSizeShort == 6 && minStreamSize == lay.minStreamSize
      && secIDFirstMSAT == First(lay.msatIDs) && secIDFirstSSAT == First(lay.ssatChain)
      && secIDFirstDirStrm == First(lay.dirChain)
      && msat.bytes == bytes && msat.Valid(lay)
    }

    method GetSectorSize() returns (size: nat)
      requires secSize == 9
      ensures size == 512
    {
      assert Pow2(9) == 512 by { assert Pow2(5) == 32; }
      size := Pow2(secSize);
    }

    method GetShortSectorSize() returns (size: nat)
      requires secSizeShort == 6
      ensures size == 64
    {
      assert Pow2(6) == 64;
      size := Pow2(secSizeShort);
    }

    /** Recovers the header fields and the whole list of SAT sectors, in order. */
    method Parse(ghost lay: Layout)
      requires HeaderAt(bytes, lay) && MsatAt(bytes, lay)
      modifies this
      ensures Parsed(lay) && fresh(msat) && msat.sat == null
    {
      ParseFields(lay);
      var size := GetSectorSize();
      msat := new Msat(size, bytes);

      var i := 0;
      while i < 109
        modifies msat`secIDs
        invariant 0 <= i <= 109 && msat.secIDs == FirstIDs(lay, i)
        decreases 109 - i
      {
        var pos := 76 + i * 4;
        assert Int32At(bytes, 76 + i * 4, SatID(lay, i));
        IntsAt(bytes, pos, SatID(lay, i));
        var id := GetSignedInt(bytes[pos..pos + 4]).value;
        if id == -1 { break; }
        msat.AppendSectorID(id);
        i := i + 1;
      }
      assert msat.secIDs == FirstIDs(lay, 109);
      if secIDFirstMSAT != -2 { ParseChain(lay, size); }
    }

    method ParseFields(ghost lay: Layout)
      requires HeaderAt(bytes, lay)
      modifies this`secSize, this`secSizeShort, this`minStreamSize
      modifies this`secIDFirstMSAT, this`secIDFirstSSAT, this`secIDFirstDirStrm
      ensures secSize == 9 && secSizeShort == 6 && minStreamSize == lay.minStreamSize
      ensures secIDFirstMSAT == First(lay.msatIDs) && secIDFirstSSAT == First(lay.ssatChain)
      ensures secIDFirstDirStrm == First(lay.dirChain)
    {
      IntsAt(bytes, 30, 9);
      IntsAt(bytes, 32, 6);
      IntsAt(bytes, 48, First(lay.dirChain));
      IntsAt(bytes, 56, lay.minStreamSize);
      IntsAt(bytes, 60, First(lay.ssatChain));
      IntsAt(bytes, 68, First(lay.msatIDs));
      secSize := GetSignedInt(bytes[30..32]).value;
      secSizeShort := GetSignedInt(bytes[32..34]).value;
      secIDFirstDirStrm := GetSignedInt(bytes[48..52]).value;
      minStreamSize := GetSignedInt(bytes[56..60]).value;
      secIDFirstSSAT := GetSignedInt(bytes[60..64]).value;
      secIDFirstMSAT := GetSignedInt(bytes[68..72]).value;
    }

    /** The sectors that continue the list behind the 109 places of the header. */
    method ParseChain(ghost lay: Layout, size: nat)
      requires HeaderAt(bytes, lay) && MsatAt(bytes, lay) && size == 512
      requires secIDFirstMSAT == First(lay.msatIDs) != -2 && msat.secIDs == FirstIDs(lay, 109)
      modifies msat`secIDs
      ensures msat.secIDs == lay.satIDs
    {
      var secID: nat := secIDFirstMSAT;
      var inLoop := true;
      ghost var k := 0;
      while inLoop
        invariant 0 <= k < |lay.msatIDs| && secID == lay.msatIDs[k]
        invariant msat.secIDs == if inLoop then FirstIDs(lay, 109 + 127 * k) else lay.satIDs
        decreases |lay.msatIDs| - k, inLoop
      {
        inLoop, secID := ParseSector(lay, size, secID, k);
        if inLoop { k := k + 1; }
      }
    }

    /** One of these sectors: up to 127 entries, then the link to the next one. */
    method ParseSector(ghost lay: Layout, size: nat, secID: nat, ghost k: nat) returns (inLoop: bool, next: nat)
      requires MsatAt(bytes, lay) && size == 512 && k < |lay.msatIDs| && secID == lay.msatIDs[k]
      requires msat.secIDs == FirstIDs(lay, 109 + 127 * k)
      modifies msat`secIDs
      ensures inLoop ==> k + 1 < |lay.msatIDs| && next == lay.msatIDs[k + 1]
      ensures !inLoop ==> next == secID
      ensures msat.secIDs == if inLoop then FirstIDs(lay, 109 + 127 * (k + 1)) else lay.satIDs
    {
      var pos := 512 + secID * size;
      assert InFile(bytes, lay.msatIDs[k]);
      var sector := bytes[pos..pos + size];
      var n := size / 4;
      var i := 0;
      while true
        invariant 0 <= i < n && msat.secIDs == FirstIDs(lay, 109 + 127 * k + i)
        decreases n - i
      {
        var p := i * 4;
        ghost var expected := if i < 127 then SatID(lay, 109 + 127 * k + i) else First(lay.msatIDs[k + 1..]);
        SliceOfSlice(bytes, pos, size, p, p + 4);
        assert Int32At(bytes, pos + p, expected) by { MsatEntry(bytes, lay, k, i); }
        IntsAt(bytes, pos + p, expected);
        var id := GetSignedInt(sector[p..p + 4]).value;
        if id < 0 {
          return false, secID;
        } else if i == n - 1 {
          return true, id;
        } else {
          msat.AppendSectorID(id);
        }
        i := i + 1;
      }
    }

    method GetSAT(ghost lay: Layout) returns (r: Sat)
      requires Parsed(lay) && Encodes(bytes, lay)
      modifies msat`sat
      ensures Parsed(lay) && r == msat.sat && r.table == lay.sat
      ensures old(msat.sat) != null ==> r == old(msat.sat)
      ensures old(msat.sat) == null ==> fresh(r)
    {
      r := msat.GetSAT(lay);
    }

    /** The table of the short sectors; null when the file has none. */
    method GetSSAT(ghost lay: Layout) returns (r: Sat?)
      requires Parsed(lay) && Encodes(bytes, lay)
      modifies msat`sat
      ensures Parsed(lay) && (r == null <==> lay.ssatChain == [])
      ensures r != null ==> fresh(r) && r.table == lay.ssat
    {
      if secIDFirstSSAT < 0 { return null; }
      var sat := GetSAT(lay);
      var chain := sat.GetSectorIDChain(secIDFirstSSAT);
      ChainUnique(lay.sat, secIDFirstSSAT, chain, lay.ssatChain);
      if |chain| == 0 { return null; }
      var size := GetSectorSize();
      r := new Sat(size, bytes);
      for k := 0 to |chain|
        modifies r
        invariant r.sectorIDs == chain[..k] && r.table == []
      {
        r.AddSector(chain[k]);
      }
      assert chain[..|chain|] == chain;
      r.BuildArray(lay.ssat);
    }

    /** The directory; null when the file has none. */
    method GetDirectory(ghost lay: Layout, utf8: seq<byte> -> string) returns (r: Directory?)
      requires Parsed(lay) && Encodes(bytes, lay)
      modifies msat`sat
      ensures Parsed(lay) && (r == null <==> lay.dirChain == [])
      ensures r != null ==> fresh(r) && r.header == this && r.utf8 == utf8 && r.sectorIDs == lay.dirChain
      ensures r != null ==> r.entries == [] && r.rootStorage == None && r.rootStorageBytes == []
    {
      if secIDFirstDirStrm < 0 { return null; }
      var sat := GetSAT(lay);
      var chain := sat.GetSectorIDChain(secIDFirstDirStrm);
      ChainUnique(lay.sat, secIDFirstDirStrm, chain, lay.dirChain);
      if |chain| == 0 { return null; }
      r := new Directory(this, utf8);
      for k := 0 to |chain|
        modifies r
        invariant r.sectorIDs == chain[..k]
        invariant r.entries == [] && r.rootStorage == None && r.rootStorageBytes == []
      {
        r.AddSector(chain[k]);
      }
      assert chain[..|chain|] == chain;
    }
  }

  // -------------------------------------------------------------------- the directory

  datatype Location = InSat | InSsat

  datatype Entry = Entry(name: string, kind: int, start: int, size: int, location: Location)

  /** The characters of a name field: pairs of bytes, zero bytes left out; utf8 stands for
      the decoder of the platform. */
  function Decode(utf8: seq<byte> -> string, field: seq<byte>): string {
    if |field| < 2 then ""
    else
      var code := (if field[1] != 0 then [field[1]] else []) + (if field[0] != 0 then [field[0]] else []);
      utf8(code) + Decode(utf8, field[2..])
  }

  lemma MsatEntry(bytes: seq<byte>, lay: Layout, k: nat, i: nat)
    requires MsatAt(bytes, lay) && k < |lay.msatIDs| && i < 128
    ensures Int32At(bytes, SectorPos(lay.msatIDs[k]) + i * 4,
                    if i < 127 then SatID(lay, 109 + 127 * k + i) else First(lay.msatIDs[k + 1..]))
  {
    if i < 127 {
      assert MsatSlotAt(bytes, lay, 127 * k + i);
    } else {
      assert MsatLinkAt(bytes, lay, k);
    }
  }

  /** The entry the reader makes of a stored one. */
  function Loaded(utf8: seq<byte> -> string, lay: Layout, e: Stored): Entry {
    Entry(Decode(utf8, e.nameField), e.kind, e.start, e.size, if IsShort(lay, e) then InSsat else InSat)
  }

  class Directory {
    const header: Header
    const utf8: seq<byte> -> string
    var sectorIDs: seq<nat>
    var entries: seq<Entry>
    var rootStorage: Option<Entry>
    var rootStorageBytes: seq<byte>

    constructor (header: Header, utf8: seq<byte> -> string)
      ensures this.header == header && this.utf8 == utf8
      ensures sectorIDs == [] && entries == [] && rootStorage == None && rootStorageBytes == []
    {
      this.header, this.utf8 := header, utf8;
      sectorIDs, entries, rootStorage, rootStorageBytes := [], [], None, [];
    }

    method AddSector(id: nat)
      modifies this`sectorIDs
      ensures sectorIDs == old(sectorIDs) + [id]
    {
      sectorIDs := sectorIDs + [id];
    }

    /** The entries are those of the layout; the container read so far starts with the container. */
    ghost predicate Ready(lay: Layout)
      reads this, header, header.msat, header.msat.sat
    {
      && header.Parsed(lay)
      && |entries| == |lay.entries|
      && (forall i :: 0 <= i < |entries| ==> entries[i] == Loaded(utf8, lay, lay.entries[i]))
      && rootStorage == (if RootStart(lay) >= 0 then Some(Loaded(utf8, lay, lay.entries[0])) else None)
      && (rootStorageBytes == [] || Container(header.bytes, lay) <= rootStorageBytes)
    }

    method ParseDirEntry(bytes: seq<byte>, ghost lay: Layout, ghost e: Stored) returns (entry: Entry)
      requires |bytes| == 128 && EntryAt(bytes, 0, e) && header.minStreamSize == lay.minStreamSize
      modifies this`rootStorage
      ensures entry == Loaded(utf8, lay, e)
      ensures entry.start == e.start && entry.size == e.size && entry.kind == e.kind
      ensures entry.location == InSsat <==> e.kind != 5 && e.size < lay.minStreamSize
      ensures rootStorage == if e.kind == ROOT_STORAGE && e.start >= 0 then Some(entry) else old(rootStorage)
    {
      IntsAt(bytes, 66, e.kind);
      IntsAt(bytes, 116, e.start);
      IntsAt(bytes, 120, e.size);
      var name := Decode(utf8, bytes[0..64]);
      var kind := GetSignedInt(bytes[66..67]).value;
      var start := GetSignedInt(bytes[116..120]).value;
      var size := GetSignedInt(bytes[120..124]).value;
      var location := InSat;
      if kind != ROOT_STORAGE && size < header.minStreamSize { location := InSsat; }
      entry := Entry(name, kind, start, size, location);
      if kind == ROOT_STORAGE && start >= 0 { rootStorage := Some(entry); }
    }

    method ParseDirEntries(ghost lay: Layout)
      requires header.Parsed(lay) && Encodes(header.bytes, lay) && sectorIDs == lay.dirChain
      requires entries == [] && rootStorage == None && rootStorageBytes == []
      modifies this`entries, this`rootStorage
      ensures Ready(lay)
    {
      var size := header.GetSectorSize();
      var bytes := ReadSectors(header.bytes, 512, size, sectorIDs);
      LoadEntries(bytes, lay);
    }

    /** Each entry is exactly 128 bytes. */
    method LoadEntries(bytes: seq<byte>, ghost lay: Layout)
      requires DirectoryAt(header.bytes, lay) && AllInFile(header.bytes, lay.dirChain)
      requires bytes == ReadChain(header.bytes, 512, 512, lay.dirChain)
      requires header.minStreamSize == lay.minStreamSize && entries == [] && rootStorage == None
      modifies this`entries, this`rootStorage
      ensures |entries| == |lay.entries|
      ensures forall i :: 0 <= i < |entries| ==> entries[i] == Loaded(utf8, lay, lay.entries[i])
      ensures rootStorage == if RootStart(lay) >= 0 then Some(Loaded(utf8, lay, lay.entries[0])) else None
    {
      InFileInside(header.bytes, lay.dirChain);
      var numEntries := |bytes| / 128;
      for i := 0 to numEntries
        invariant |entries| == i
        invariant forall j :: 0 <= j < i ==> entries[j] == Loaded(utf8, lay, lay.entries[j])
        invariant rootStorage == if i > 0 && RootStart(lay) >= 0 then Some(Loaded(utf8, lay, lay.entries[0])) else None
      {
        var pos := i * 128;
        EntrySlice(header.bytes, lay, bytes, i);
        var entry := ParseDirEntry(bytes[pos..pos + 128], lay, lay.entries[i]);
        entries := entries + [entry];
      }
    }

    method BuildRootStorageBytes(ghost lay: Layout)
      requires Ready(lay) && Encodes(header.bytes, lay)
      modifies this`rootStorageBytes, header.msat`sat
      ensures Ready(lay)
      ensures rootStorageBytes
           == old(rootStorageBytes) + (if rootStorage.Some? then Container(header.bytes, lay) else [])
    {
      if rootStorage.None? { return; }
      var sat := header.GetSAT(lay);
      var chain := sat.GetSectorIDChain(rootStorage.value.start);
      ChainUnique(lay.sat, rootStorage.value.start, chain, lay.rootChain);
      var size := header.GetSectorSize();
      var container := ReadSectors(header.bytes, 512, size, chain);
      rootStorageBytes := rootStorageBytes + container;
    }

    /** A chain of short sectors is read from the container, which is put together each time. */
    method ReadShortSectors(chain: seq<nat>, ghost lay: Layout, ghost data: seq<byte>) returns (r: Read<seq<byte>>)
      requires Ready(lay) && Encodes(header.bytes, lay) && InShortSectors(header.bytes, lay, data, chain)
      modifies this`rootStorageBytes, header.msat`sat
      ensures Ready(lay)
      ensures r == if RootStart(lay) >= 0 then Ok(ReadChain(Container(header.bytes, lay), 0, 64, chain))
                   else NoRootStorage
      ensures rootStorageBytes == old(rootStorageBytes) + if r.Ok? then Container(header.bytes, lay) else []
    {
      if rootStorage.None? {
        assert rootStorageBytes + [] == rootStorageBytes;
        return NoRootStorage;
      }
      BuildRootStorageBytes(lay);
      var size := header.GetShortSectorSize();
      var bytes := ReadSectors(rootStorageBytes, 0, size, chain);
      ContainerFirst(header.bytes, lay, data, chain, rootStorageBytes);
      return Ok(bytes);
    }

    /** The chain of an entry, in the table for streams of its size; there may be no such table. */
    method GetChain(entry: Entry, ghost lay: Layout, ghost e: Stored) returns (r: Read<seq<nat>>)
      requires Ready(lay) && Encodes(header.bytes, lay)
      requires entry == Loaded(utf8, lay, e) && ReachesEnd(TableFor(lay, e), e.start)
      modifies header.msat`sat
      ensures Ready(lay)
      ensures r == if IsShort(lay, e) && lay.ssatChain == [] then AttributeError else Ok(EntryChain(lay, e))
    {
      if entry.location == InSat {
        var sat := header.GetSAT(lay);
        var chain := sat.GetSectorIDChain(entry.start);
        IsChainFrom(lay.sat, entry.start, chain);
        return Ok(chain);
      }
      var ssat := header.GetSSAT(lay);
      if ssat == null { return AttributeError; }
      var chain := ssat.GetSectorIDChain(entry.start);
      IsChainFrom(lay.ssat, entry.start, chain);
      return Ok(chain);
    }

    /** Reads the sectors of a stream. A short stream needs the table of short sectors and
        the root storage to exist; else the exceptions of the source come out. Each short read
        appends the container once more, yet the answer is always the same. */
    method GetRawStream(entry: Entry, ghost lay: Layout, ghost e: Stored, ghost data: seq<byte>)
      returns (r: Read<seq<byte>>)
      requires Ready(lay) && Encodes(header.bytes, lay)
      requires entry == Loaded(utf8, lay, e) && Holds(header.bytes, lay, e, data)
      modifies this`rootStorageBytes, header.msat`sat
      ensures Ready(lay)
      ensures r == Answer(header.bytes, lay, e)
      ensures rootStorageBytes == old(rootStorageBytes) + Appended(header.bytes, lay, e)
    {
      assert rootStorageBytes + [] == rootStorageBytes;
      var chain := GetChain(entry, lay, e);
      if !chain.Ok? { return AttributeError; }
      if entry.location == InSsat {
        r := ReadShortSectors(chain.value, lay, data);
        return;
      }
      var size := header.GetSectorSize();
      var bytes := ReadSectors(header.bytes, 512, size, chain.value);
      return Ok(bytes);
    }

    /** The stream of the first entry with the name; nothing when there is none. */
    method GetRawStreamByName(name: string, ghost lay: Layout, ghost data: seq<byte>) returns (r: Read<seq<byte>>)
      requires Ready(lay) && Encodes(header.bytes, lay)
      requires forall i :: FirstNamed(lay, utf8, name, i) ==> Holds(header.bytes, lay, lay.entries[i], data)
      modifies this`rootStorageBytes, header.msat`sat
      ensures Ready(lay)
      ensures forall i :: FirstNamed(lay, utf8, name, i) ==>
                Holds(header.bytes, lay, lay.entries[i], data) && r == Answer(header.bytes, lay, lay.entries[i])
      ensures (forall e :: e in lay.entries ==> Decode(utf8, e.nameField) != name) ==> r == Ok([])
    {
      var i := FindEntry(name, lay);
      if i == |entries| { return Ok([]); }
      forall j | FirstNamed(lay, utf8, name, j) ensures j == i { OneFirst(lay, utf8, name, i, j); }
      r := GetRawStream(entries[i], lay, lay.entries[i], data);
    }

    /** The first entry with the name, or the number of entries. */
    method FindEntry(name: string, ghost lay: Layout) returns (i: nat)
      requires Ready(lay)
      ensures i <= |entries| == |lay.entries|
      ensures if i < |entries| then FirstNamed(lay, utf8, name, i)
              else forall e :: e in lay.entries ==> Decode(utf8, e.nameField) != name
    {
      i := 0;
      while i < |entries| && entries[i].name != name
        invariant 0 <= i <= |entries|
        invariant forall j :: 0 <= j < i ==> Decode(utf8, lay.entries[j].nameField) != name
      {
        i := i + 1;
      }
    }
  }

  ghost predicate FirstNamed(lay: Layout, utf8: seq<byte> -> string, name: string, i: int) {
    && 0 <= i < |lay.entries| && Decode(utf8, lay.entries[i].nameField) == name
    && forall j :: 0 <= j < i ==> Decode(utf8, lay.entries[j].nameField) != name
  }

  lemma OneFirst(lay: Layout, utf8: seq<byte> -> string, name: string, i: int, j: int)
    requires FirstNamed(lay, utf8, name, i) && FirstNamed(lay, utf8, name, j)
    ensures i == j
  {}

  /** From the bytes of a file to a stream: header, directory, then the stream by its name. */
  method ReadStream(bytes: seq<byte>, utf8: seq<byte> -> string, name: string,
                    ghost lay: Layout, ghost i: nat, ghost data: seq<byte>) returns (r: Read<seq<byte>>)
    requires Encodes(bytes, lay) && FirstNamed(lay, utf8, name, i) && Holds(bytes, lay, lay.entries[i], data)
    ensures r == Answer(bytes, lay, lay.entries[i])
    ensures r.Ok? <==> Readable(lay, lay.entries[i])
    ensures r.Ok? ==> data <= r.value
    ensures lay.entries[i].size >= lay.minStreamSize ==> r.Ok?
  {
    var header := new Header(bytes);
    header.Parse(lay);
    var directory := header.GetDirectory(lay, utf8);
    directory.ParseDirEntries(lay);
    r := directory.GetRawStreamByName(name, lay, data);
    StreamRecovered(bytes, lay, lay.entries[i], data);
  }

  /** The loop over a chain that every read shares. */
  method ReadSectors(data: seq<byte>, offset: nat, size: nat, chain: seq<nat>) returns (bytes: seq<byte>)
    ensures bytes == ReadChain(data, offset, size, chain)
  {
    bytes := [];
    for k := 0 to |chain|
      invariant bytes == ReadChain(data, offset, size, chain[..k])
    {
      var pos := offset + chain[k] * size;
      ReadChainSnoc(data, offset, size, chain[..k], chain[k], pos);
      assert chain[..k + 1] == chain[..k] + [chain[k]];
      bytes := bytes + Slice(data, pos, pos + size);
    }
    assert chain[..|chain|] == chain;
  }

  lemma ReadChainSnoc(data: seq<byte>, offset: nat, size: nat, chain: seq<nat>, id: nat, p: nat)
    requires p == offset + id * size
    ensures ReadChain(data, offset, size, chain + [id])
         == ReadChain(data, offset, size, chain) + Slice(data, p, p + size)
  {
    var starts := Starts(offset, size, chain);
    assert Starts(offset, size, chain + [id]) == starts + [p];
    ReadSnoc(data, size, starts, p);
  }

  /** A container that was appended to itself still serves the short streams. */
  lemma ContainerFirst(bytes: seq<byte>, lay: Layout, data: seq<byte>, chain: seq<nat>, grown: seq<byte>)
    requires InShortSectors(bytes, lay, data, chain) && Container(bytes, lay) <= grown
    ensures ReadChain(grown, 0, 64, chain) == ReadChain(Container(bytes, lay), 0, 64, chain)
  {
    var box := Container(bytes, lay);
    ShortInside(bytes, lay, data, chain);
    ReadPrefix(box, grown, 64, Starts(0, 64, chain), |chain|);
  }

  lemma EntrySlice(file: seq<byte>, lay: Layout, bytes: seq<byte>, i: nat)
    requires DirectoryAt(file, lay) && AllInFile(file, lay.dirChain) && i < |lay.entries|
    requires bytes == ReadChain(file, 512, 512, lay.dirChain)
    ensures i * 128 + 128 <= |bytes| && EntryAt(bytes[i * 128..i * 128 + 128], 0, lay.entries[i])
  {
    var p := SectorPos(lay.dirChain[i / 4]) + i % 4 * 128;
    InFileInside(file, lay.dirChain);
    var s := bytes[i * 128..i * 128 + 128];
    assert InFile(file, lay.dirChain[i / 4]);
    assert s == file[p..p + 128] by {
      forall o: nat | o < 128 ensures s[o] == file[p + o] {
        SectorByte(file, lay.dirChain, i * 128 + o);
      }
    }
    assert StoredAt(file, lay, i);
    EntryMoved(file, p, lay.entries[i], s);
  }

  lemma SliceOfSlice(s: seq<byte>, p: nat, n: nat, a: nat, b: nat)
    requires p + n <= |s| && a <= b <= n
    ensures s[p..p + n][a..b] == s[p + a..p + b]
  {
    var left, right := s[p..p + n][a..b], s[p + a..p + b];
    forall i | 0 <= i < b - a ensures left[i] == right[i] {
      assert s[p..p + n][a + i] == s[p + (a + i)];
    }
  }

  lemma EntryMoved(file: seq<byte>, p: nat, e: Stored, s: seq<byte>)
    requires EntryAt(file, p, e) && s == file[p..p + 128]
    ensures EntryAt(s, 0, e)
  {
    SliceOfSlice(file, p, 128, 0, 64);
    SliceOfSlice(file, p, 128, 66, 67);
    SliceOfSlice(file, p, 128, 116, 120);
    SliceOfSlice(file, p, 128, 120, 124);
  }

  // ---------------------------------------------------------------- what a read returns

  /** A short stream can be read when the tables for short streams exist. */
  predicate Readable(lay: Layout, e: Stored) {
    IsShort(lay, e) ==> lay.ssatChain != [] && RootStart(lay) >= 0
  }

  /** What a read adds to the bytes of the root storage. */
  function Appended(bytes: seq<byte>, lay: Layout, e: Stored): seq<byte> {
    if IsShort(lay, e) && Readable(lay, e) then Container(bytes, lay) else []
  }

  ghost function Answer(bytes: seq<byte>, lay: Layout, e: Stored): Read<seq<byte>>
    requires ReachesEnd(TableFor(lay, e), e.start)
  {
    if Readable(lay, e) then Ok(Sectors(bytes, lay, e))
    else if lay.ssatChain == [] then AttributeError
    else NoRootStorage
  }

  /** A readable stream comes back in full at the start of what is read; the read fails
      exactly when the stream is not readable. */
  lemma StreamRecovered(bytes: seq<byte>, lay: Layout, e: Stored, data: seq<byte>)
    requires Holds(bytes, lay, e, data)
    ensures Answer(bytes, lay, e).Ok? <==> Readable(lay, e)
    ensures Readable(lay, e) ==> data <= Answer(bytes, lay, e).value
  {
    SectorsHoldStream(bytes, lay, e, data);
  }

  /** A stream of at least the minimum size, and the root storage, lie in the sectors of the
      file; they are always read. */
  lemma LongStreams(bytes: seq<byte>, lay: Layout, e: Stored, data: seq<byte>, chain: seq<nat>)
    requires |data| == e.size && (e.size >= lay.minStreamSize || e.kind == 5)
    requires IsChain(lay.sat, e.start, chain) && InSectors(bytes, data, chain)
    ensures Holds(bytes, lay, e, data) && Readable(lay, e)
    ensures Answer(bytes, lay, e).Ok? && data <= Answer(bytes, lay, e).value
  {
    IsChainFrom(lay.sat, e.start, chain);
    StreamRecovered(bytes, lay, e, data);
  }

  /** Any other stream lies in the short sectors; it is read when these exist. */
  lemma ShortStreams(bytes: seq<byte>, lay: Layout, e: Stored, data: seq<byte>, chain: seq<nat>)
    requires |data| == e.size < lay.minStreamSize && e.kind != 5
    requires IsChain(lay.ssat, e.start, chain) && InShortSectors(bytes, lay, data, chain)
    ensures Holds(bytes, lay, e, data)
    ensures Readable(lay, e) <==> lay.ssatChain != [] && RootStart(lay) >= 0
    ensures Readable(lay, e) ==> Answer(bytes, lay, e).Ok? && data <= Answer(bytes, lay, e).value
    ensures lay.ssatChain == [] ==> Answer(bytes, lay, e) == AttributeError
    ensures lay.ssatChain != [] && RootStart(lay) < 0 ==> Answer(bytes, lay, e) == NoRootStorage
  {
    IsChainFrom(lay.ssat, e.start, chain);
    StreamRecovered(bytes, lay, e, data);
  }

  /** Only an empty stream can be unreadable. */
  lemma NonEmptyIsReadable(bytes: seq<byte>, lay: Layout, e: Stored, data: seq<byte>)
    requires Encodes(bytes, lay) && Holds(bytes, lay, e, data) && data != []
    ensures Readable(lay, e)
  {
    if IsShort(lay, e) {
      var id := EntryChain(lay, e)[0];
      assert id < |lay.ssat| && 64 * id + 64 <= 512 * |lay.rootChain|;
    }
  }

  // ------------------------------------------------------------------ names in ASCII

  ghost predicate Ascii(name: string) {
    forall i :: 0 <= i < |name| ==> 0 < name[i] as int < 128
  }

  /** A name as the file stores it: two bytes for each character, zeros behind. */
  ghost function NameField(name: string, width: nat): (field: seq<byte>)
    requires 2 * |name| <= width && Ascii(name)
    decreases width
  {
    if width < 2 then seq(width, _ => 0)
    else if name == [] then [0, 0] + NameField([], width - 2)
    else
      var b: byte := name[0] as int;
      [b, 0] + NameField(name[1..], width - 2)
  }

  /** A field of zeros holds no name. */
  lemma {:induction false} BlankNames(utf8: seq<byte> -> string, field: seq<byte>)
    requires utf8([]) == "" && forall i :: 0 <= i < |field| ==> field[i] == 0
    ensures Decode(utf8, field) == ""
    decreases |field|
  {
    if |field| >= 2 {
      BlankNames(utf8, field[2..]);
      var none: seq<byte> := [];
      assert none + none == none;
    }
  }

  /** ASCII names are found under the name they were stored with. */
  lemma {:induction false} AsciiNames(utf8: seq<byte> -> string, name: string, width: nat)
    requires 2 * |name| <= width && Ascii(name)
    requires utf8([]) == "" && forall b: byte :: 0 < b < 128 ==> utf8([b]) == [b as char]
    ensures Decode(utf8, NameField(name, width)) == name
    decreases width
  {
    if width >= 2 {
      var rest := if name == [] then [] else name[1..];
      assert NameField(name, width)[2..] == NameField(rest, width - 2);
      AsciiNames(utf8, rest, width - 2);
      if name != [] {
        var b: byte := name[0] as int;
        assert [] + [b] == [b];
        assert name == [b as char] + rest;
      } else {
        var none: seq<byte> := [];
        assert none + none == none;
      }
    }
  }
}
