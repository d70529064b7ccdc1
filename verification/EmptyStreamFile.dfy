/**
 A small compound file with one empty stream and no short sectors. It is well formed, yet
 the reader (scratch/mso-dumper/src/ole.py:515-520) raises an exception for the stream: it
 sends every stream below the minimum size to the table of short sectors, which is missing.
 */
module EmptyStreamFile {
  import opened Bytes
  import opened SectorChains
  import opened CompoundLayout
  import CompoundReader

  function ImageBytes(words: seq<int32>): seq<byte> {
    seq(4 * |words|, i requires 0 <= i < 4 * |words| => Int32Bytes(words[i / 4])[i % 4])
  }

  lemma WordAt(words: seq<int32>, k: nat)
    requires k < |words|
    ensures Int32At(ImageBytes(words), 4 * k, words[k])
  {
    assert ImageBytes(words)[4 * k..4 * k + 4] == Int32Bytes(words[k]);
  }

  /** The two high bytes of a word hold w / 0x10000 when w is not negative. */
  lemma HighBytesAt(words: seq<int32>, k: nat)
    requires k < |words| && words[k] >= 0
    ensures Int16At(ImageBytes(words), 4 * k + 2, words[k] / 0x1_0000)
    ensures words[k] < 0x80_0000 ==> Int8At(ImageBytes(words), 4 * k + 2, words[k] / 0x1_0000)
  {
    var w := words[k];
    assert Encode(w, 4) == [w % 256] + Encode(w / 256, 3);
    assert Encode(w / 256, 3) == [w / 256 % 256] + Encode(w / 256 / 256, 2);
    WordAt(words, k);
    LastTwo(ImageBytes(words), 4 * k);
    assert Encode(w, 4)[2..] == Encode(w / 0x1_0000, 2);
  }

  lemma LastTwo(bytes: seq<byte>, p: nat)
    requires p + 4 <= |bytes|
    ensures bytes[p + 2..p + 4] == bytes[p..p + 4][2..] && bytes[p + 2..p + 3] == bytes[p..p + 4][2..3]
  {
    var w := bytes[p..p + 4];
    assert w[2] == bytes[p + 2];
    assert bytes[p + 2..p + 3] == [bytes[p + 2]] && w[2..3] == [w[2]];
  }

  lemma LowBytesAt(words: seq<int32>, k: nat)
    requires k < |words| && 0 <= words[k] < 0x8000
    ensures Int16At(ImageBytes(words), 4 * k, words[k])
  {
    var w := words[k];
    assert Encode(w, 4) == [w % 256] + Encode(w / 256, 3);
    assert Encode(w / 256, 3) == [w / 256 % 256] + Encode(w / 256 / 256, 2);
    assert Encode(w, 2) == [w % 256] + Encode(w / 256, 1);
    WordAt(words, k);
    assert ImageBytes(words)[4 * k..4 * k + 2] == ImageBytes(words)[4 * k..4 * k + 4][..2];
  }

  /** Header (words 0 to 127), allocation table (128 to 255), directory (256 to 383). */
  function Word(i: nat): int32 {
    if i < 128 then
      if i == 7 then 0x9_FFFE            // byte order, sector size 2^9
      else if i == 8 then 6              // short sector size 2^6
      else if i == 12 then 1             // first directory sector
      else if i == 14 then 4096          // minimum stream size
      else if i == 15 || i == 17 then -2 // no SSAT, no further MSAT sectors
      else if i == 19 then 0             // the only SAT sector
      else if i > 19 then -1
      else 0
    else if i < 256 then (if i == 128 then -3 else if i == 129 then -2 else -1)
    else if i == 256 then 'R' as int      // names
    else if i == 288 then 'A' as int
    else if i == 272 then 0x5_0000       // root storage
    else if i == 285 || i == 317 then -2 // no sectors
    else if i == 304 then 0x2_0000       // a stream
    else 0
  }

  function Words(): seq<int32> { seq(384, i requires 0 <= i => Word(i)) }

  function File(): seq<byte> { ImageBytes(Words()) }

  function EntryOf(j: nat): Stored
    requires j < 4
  {
    var p := 1024 + 128 * j;
    Stored(File()[p..p + 64], Word(272 + 32 * j) / 0x1_0000, Word(285 + 32 * j), Word(286 + 32 * j))
  }

  function FileLayout(): Layout {
    Layout(4096, [0], [], seq(128, i requires 0 <= i => Word(128 + i)), [1], [], [], [],
           [EntryOf(0), EntryOf(1), EntryOf(2), EntryOf(3)])
  }

  lemma HeaderHolds()
    ensures HeaderAt(File(), FileLayout()) && MsatAt(File(), FileLayout())
  {
    var lay, w := FileLayout(), Words();
    HighBytesAt(w, 7);
    LowBytesAt(w, 8);
    WordAt(w, 12);
    WordAt(w, 14);
    WordAt(w, 15);
    WordAt(w, 17);
    forall n: nat | n < 109 ensures Int32At(File(), 76 + n * 4, SatID(lay, n)) { WordAt(w, 19 + n); }
  }

  lemma TableHolds()
    ensures TableAt(File(), FileLayout().satIDs, FileLayout().sat)
  {
    var lay := FileLayout();
    forall m: nat | m < 128 ensures SlotAt(File(), lay.satIDs, lay.sat, m) { SlotHolds(m); }
  }

  lemma SlotHolds(m: nat)
    requires m < 128
    ensures SlotAt(File(), FileLayout().satIDs, FileLayout().sat, m)
  {
    WordAt(Words(), 128 + m);
  }

  lemma EntryWords(j: nat)
    requires j < 4
    ensures EntryAt(File(), 1024 + 128 * j, EntryOf(j))
  {
    var w, k := Words(), 256 + 32 * j;
    assert 4 * k == 1024 + 128 * j && |w| == 384;
    HighBytesAt(w, k + 16);
    WordAt(w, k + 29);
    WordAt(w, k + 30);
  }

  lemma EntryHolds(j: nat)
    requires j < 4
    ensures StoredAt(File(), FileLayout(), j)
  {
    var p := 1024 + 128 * j;
    EntryWords(j);
    assert FileLayout().entries[j] == EntryOf(j);
    assert SectorPos(FileLayout().dirChain[j / 4]) + j % 4 * 128 == p;
  }

  lemma FileIsWellFormed()
    ensures Encodes(File(), FileLayout())
  {
    var lay := FileLayout();
    HeaderHolds();
    TableHolds();
    forall j: nat | j < 4 ensures StoredAt(File(), lay, j) { EntryHolds(j); }
  }

  lemma SmallWord(c: byte, i: nat)
    requires i < 4
    ensures Int32Bytes(c)[i] == if i == 0 then c else 0
  {
    assert Encode(c, 4) == [c] + Encode(0, 3) && Encode(0, 3) == [0] + Encode(0, 2);
  }

  lemma ImageByte(words: seq<int32>, k: nat, i: nat)
    requires k + 16 <= |words| && i < 64
    ensures ImageBytes(words)[4 * k..4 * k + 64][i] == Int32Bytes(words[k + i / 4])[i % 4]
  {
    assert (4 * k + i) / 4 == k + i / 4 && (4 * k + i) % 4 == i % 4;
  }

  /** Byte i of the name field of an entry. */
  lemma NameByte(j: nat, i: nat)
    requires j < 4 && i < 64
    ensures EntryOf(j).nameField[i] == Int32Bytes(Word(256 + 32 * j + i / 4))[i % 4]
  {
    ImageByte(Words(), 256 + 32 * j, i);
  }

  lemma BlankWord(j: nat, k: nat)
    requires j < 2 && 0 < k < 16
    ensures Word(256 + 32 * j + k) == 0
  {}

  /** A name of one character, and zeros behind it. */
  lemma NameBytes(j: nat, c: byte, i: nat)
    requires j < 2 && c == Word(256 + 32 * j) && i < 64
    ensures EntryOf(j).nameField[i] == if i == 0 then c else 0
  {
    NameByte(j, i);
    var k := i / 4;
    if k > 0 {
      BlankWord(j, k);
      SmallWord(0, i % 4);
    } else {
      SmallWord(c, i);
    }
  }

  /** The name field of an entry holds one character. */
  lemma NameIs(utf8: seq<byte> -> string, j: nat, c: byte)
    requires j < 2 && c == Word(256 + 32 * j) && 0 < c < 128 && utf8([]) == "" && utf8([c]) == [c as char]
    ensures CompoundReader.Decode(utf8, EntryOf(j).nameField) == [c as char]
  {
    var field := EntryOf(j).nameField;
    forall i | 0 <= i < 64 ensures field[i] == if i == 0 then c else 0 { NameBytes(j, c, i); }
    CompoundReader.BlankNames(utf8, field[2..]);
    var none: seq<byte> := [];
    assert none + [c] == [c];
  }

  lemma EmptyStreamHeld()
    ensures var lay := FileLayout();
      Holds(File(), lay, lay.entries[1], []) && !CompoundReader.Readable(lay, lay.entries[1]) && lay.ssatChain == []
  {
    var lay := FileLayout();
    IsChainFrom(lay.ssat, lay.entries[1].start, []);
  }

  lemma NameInLayout(lay: Layout, utf8: seq<byte> -> string, j: nat, c: byte)
    requires lay == FileLayout() && j < 2 && c == Word(256 + 32 * j) && 0 < c < 128
    requires utf8([]) == "" && utf8([c]) == [c as char]
    ensures Named(lay, utf8, j, [c as char])
  {
    NameIs(utf8, j, c);
    assert lay.entries[j] == EntryOf(j);
  }

  ghost predicate Named(lay: Layout, utf8: seq<byte> -> string, j: nat, name: string) {
    j < |lay.entries| && CompoundReader.Decode(utf8, lay.entries[j].nameField) == name
  }

  lemma FirstOfItsName(lay: Layout, utf8: seq<byte> -> string, other: string, name: string)
    requires Named(lay, utf8, 0, other) && Named(lay, utf8, 1, name) && other != name
    ensures CompoundReader.FirstNamed(lay, utf8, name, 1)
  {}

  lemma NamedA(utf8: seq<byte> -> string)
    requires utf8([]) == "" && forall b: byte :: 0 < b < 128 ==> utf8([b]) == [b as char]
    ensures CompoundReader.FirstNamed(FileLayout(), utf8, "A", 1)
  {
    var lay := FileLayout();
    NameInLayout(lay, utf8, 0, 'R' as int);
    NameInLayout(lay, utf8, 1, 'A' as int);
    FirstOfItsName(lay, utf8, "R", "A");
  }

  /** The empty stream "A" is stored in this well-formed file, and is the first entry of its
      name, but it is not readable. */
  lemma EmptyStreamFails(utf8: seq<byte> -> string)
    requires utf8([]) == "" && forall b: byte :: 0 < b < 128 ==> utf8([b]) == [b as char]
    ensures Encodes(File(), FileLayout()) && CompoundReader.FirstNamed(FileLayout(), utf8, "A", 1)
    ensures Holds(File(), FileLayout(), FileLayout().entries[1], [])
    ensures !CompoundReader.Readable(FileLayout(), FileLayout().entries[1])
  {
    FileIsWellFormed();
    EmptyStreamHeld();
    NamedA(utf8);
  }

  /** So reading it by its name ends in the exception. */
  method ReadEmptyStream(utf8: seq<byte> -> string) returns (r: Read<seq<byte>>)
    requires utf8([]) == "" && forall b: byte :: 0 < b < 128 ==> utf8([b]) == [b as char]
    ensures r == AttributeError
  {
    EmptyStreamFails(utf8);
    r := CompoundReader.ReadStream(File(), utf8, "A", FileLayout(), 1, []);
  }
}
