/**
 The reader of PowerPoint records (scratch/mso-dumper/src/pptstream.py; section 2.3.1 of
 [MS-PPT]): each record has a header of eight bytes; a record of version 0xF contains
 records of its own, which a new stream object reads.
 */
module PptRecords {
  import opened Bytes

  /** A printed record header; depth is the length of the prefix of the line. */
  datatype Visit = Visit(depth: nat, recordType: nat, instance: nat, version: nat, start: nat, size: nat)

  datatype Listing = Listing(visits: seq<Visit>, complete: bool)

  // ------------------------------------------------------------- what the reader does

  function HeaderVisit(bytes: seq<byte>, pos: nat, depth: nat): Visit
    requires pos + 8 <= |bytes|
  {
    var first := Unsigned(bytes[pos..pos + 2]);
    Visit(depth, Unsigned(bytes[pos + 2..pos + 4]), first / 16, first % 16, pos, Unsigned(bytes[pos + 4..pos + 8]))
  }

  /** The records from pos on. The loop runs while more than eight bytes are left; a body
      that is cut off ends the stream. */
  function ReadAll(bytes: seq<byte>, pos: nat, depth: nat): Listing
    decreases |bytes|, |bytes| - pos
  {
    if pos + 8 >= |bytes| then Listing([], true)
    else
      var visit := HeaderVisit(bytes, pos, depth);
      var next := pos + 8 + visit.size;
      if next > |bytes| then Listing([visit], false)
      else
        var inner := if visit.version == 15 then ReadAll(bytes[pos + 8..next], 0, depth + 1).visits else [];
        var rest := ReadAll(bytes, next, depth);
        Before([visit] + inner, rest)
  }

  function Before(visits: seq<Visit>, rest: Listing): Listing { Listing(visits + rest.visits, rest.complete) }

  lemma BeforeBefore(a: seq<Visit>, b: seq<Visit>, rest: Listing)
    ensures Before(a + b, rest) == Before(a, Before(b, rest))
  {
    assert a + b + rest.visits == a + (b + rest.visits);
  }

  class DirStream {
    const bytes: seq<byte>
    const size: nat
    const depth: nat
    var pos: nat

    constructor (bytes: seq<byte>, depth: nat)
      ensures this.bytes == bytes && size == |bytes| && this.depth == depth && pos == 0
    {
      this.bytes, size, this.depth, pos := bytes, |bytes|, depth, 0;
    }

    /** The next n bytes; ok is false at the end of the stream. */
    method ReadBytes(n: nat) returns (ok: bool, data: seq<byte>)
      requires size == |bytes| && pos <= size
      modifies this
      ensures ok == (old(pos) + n <= size) && pos == (if ok then old(pos) + n else old(pos))
      ensures ok ==> data == bytes[old(pos)..pos]
    {
      if size - pos < n { return false, []; }
      data := bytes[pos..pos + n];
      pos := pos + n;
      ok := true;
    }

    method ReadUnsignedInt(n: nat) returns (v: nat)
      requires size == |bytes| && pos + n <= size && (n == 2 || n == 4)
      modifies this
      ensures pos == old(pos) + n && v == Unsigned(bytes[old(pos)..pos])
    {
      var ok, data := ReadBytes(n);
      v := GetUnsignedInt(data).value;
    }

    method ReadRecord() returns (ok: bool, visits: seq<Visit>)
      requires size == |bytes| && pos + 8 < size
      modifies this
      ensures pos <= size && old(pos) < pos
      ensures ReadAll(bytes, old(pos), depth) ==
        if ok then Before(visits, ReadAll(bytes, pos, depth)) else Listing(visits, false)
      decreases |bytes|, 0
    {
      var startPos := pos;
      var recordInstance := ReadUnsignedInt(2);
      var recordVersion := recordInstance % 16;
      recordInstance := recordInstance / 16;
      var recordType := ReadUnsignedInt(2);
      var length := ReadUnsignedInt(4);
      visits := [Visit(depth, recordType, recordInstance, recordVersion, startPos, length)];
      assert visits[0] == HeaderVisit(bytes, startPos, depth);
      var body;
      ok, body := ReadBytes(length);
      if !ok { return; }
      if recordVersion == 15 {
        var subStream := new DirStream(body, depth + 1);
        var complete, inner := subStream.ReadRecords();
        visits := visits + inner;
      } else {
        assert visits == visits + [];
      }
    }

    method ReadRecords() returns (complete: bool, visits: seq<Visit>)
      requires size == |bytes| && pos == 0
      modifies this
      ensures ReadAll(bytes, 0, depth) == Listing(visits, complete)
      decreases |bytes|, 1
    {
      visits := [];
      while pos + 8 < size
        invariant pos <= size
        invariant ReadAll(bytes, 0, depth) == Before(visits, ReadAll(bytes, pos, depth))
        decreases size - pos
      {
        var ok, more := ReadRecord();
        BeforeBefore(visits, more, ReadAll(bytes, pos, depth));
        visits := visits + more;
        if !ok { return false, visits; }
      }
      complete := true;
    }
  }

  // ----------------------------------------------------------------- record forests

  datatype Record =
    | Atom(instance: nat, version: nat, recordType: nat, data: seq<byte>)
    | Container(instance: nat, recordType: nat, children: Forest)

  /** The records of one stream, in order. */
  datatype Forest = End | Then(head: Record, tail: Forest)

  function Version(r: Record): nat { if r.Atom? then r.version else 15 }

  function Body(r: Record): seq<byte> {
    match r
    case Atom(_, _, _, data) => data
    case Container(_, _, children) => Serialise(children)
  }

  /** Each record with its header of eight bytes. */
  function Serialise(f: Forest): seq<byte> {
    match f
    case End => []
    case Then(r, rest) =>
      var body := Body(r);
      Encode(r.instance * 16 + Version(r), 2) + Encode(r.recordType, 2) + Encode(|body|, 4) + body + Serialise(rest)
  }

  /** The fields fit their places in the header. */
  predicate Fits(f: Forest) {
    match f
    case End => true
    case Then(r, rest) =>
      && r.instance < 0x1000 && r.recordType < 0x1_0000 && |Body(r)| < 0x1_0000_0000
      && (if r.Container? then Fits(r.children) else r.version < 15)
      && Fits(rest)
  }

  function VisitOf(r: Record, depth: nat, start: nat): Visit {
    Visit(depth, r.recordType, r.instance, Version(r), start, |Body(r)|)
  }

  /** All records in pre-order, each with its place in the stream it lies in. */
  function PreOrder(f: Forest, depth: nat, start: nat): seq<Visit> {
    match f
    case End => []
    case Then(r, rest) =>
      [VisitOf(r, depth, start)] + (if r.Container? then PreOrder(r.children, depth + 1, 0) else [])
      + PreOrder(rest, depth, start + 8 + |Body(r)|)
  }

  /** The records without a last record of no length, at every level. */
  function Seen(f: Forest, depth: nat, start: nat): seq<Visit> {
    match f
    case End => []
    case Then(r, rest) =>
      if rest == End && Body(r) == [] then []
      else
        [VisitOf(r, depth, start)] + (if r.Container? then Seen(r.children, depth + 1, 0) else [])
        + Seen(rest, depth, start + 8 + |Body(r)|)
  }

  predicate NoEmptyEnd(f: Forest) {
    match f
    case End => true
    case Then(r, rest) =>
      && (rest == End ==> Body(r) != [])
      && (r.Container? ==> NoEmptyEnd(r.children))
      && NoEmptyEnd(rest)
  }

  // -------------------------------------------------------------------- the theorems

  /** A header read back: first holds instance and version. */
  lemma HeaderBytes(bytes: seq<byte>, pos: nat, first: nat, recordType: nat, body: seq<byte>, tail: seq<byte>,
                    depth: nat)
    requires first < 0x1_0000 && recordType < 0x1_0000 && |body| < 0x1_0000_0000 && pos <= |bytes|
    requires bytes[pos..] == Encode(first, 2) + Encode(recordType, 2) + Encode(|body|, 4) + body + tail
    ensures |bytes| == pos + 8 + |body| + |tail|
    ensures HeaderVisit(bytes, pos, depth) == Visit(depth, recordType, first / 16, first % 16, pos, |body|)
    ensures bytes[pos + 8..pos + 8 + |body|] == body && bytes[pos + 8 + |body|..] == tail
  {
    var a, b, c := Encode(first, 2), Encode(recordType, 2), Encode(|body|, 4);
    FiveParts(bytes, pos, a, b, c, body, tail);
    Powers();
    DecodeEncode(first, 2);
    DecodeEncode(recordType, 2);
    DecodeEncode(|body|, 4);
  }

  lemma FiveParts(bytes: seq<byte>, pos: nat, a: seq<byte>, b: seq<byte>, c: seq<byte>, body: seq<byte>,
                  tail: seq<byte>)
    requires pos <= |bytes| && bytes[pos..] == a + b + c + body + tail && |a| == |b| == 2 && |c| == 4
    ensures |bytes| == pos + 8 + |body| + |tail|
    ensures bytes[pos..pos + 2] == a && bytes[pos + 2..pos + 4] == b && bytes[pos + 4..pos + 8] == c
    ensures bytes[pos + 8..pos + 8 + |body|] == body && bytes[pos + 8 + |body|..] == tail
  {
    var s, n := a + b + c + body + tail, |body|;
    assert |bytes[pos..]| == |s|;
    assert s[..2] == a && s[2..4] == b && s[4..8] == c && s[8..8 + n] == body && s[8 + n..] == tail;
    forall i, j | 0 <= i <= j <= |s| ensures bytes[pos + i..pos + j] == s[i..j] {
      assert bytes[pos..][i..j] == bytes[pos + i..pos + j];
    }
  }

  function Header(r: Record): seq<byte> {
    Encode(r.instance * 16 + Version(r), 2) + Encode(r.recordType, 2) + Encode(|Body(r)|, 4)
  }

  lemma RecordPlace(bytes: seq<byte>, pos: nat, r: Record, tail: seq<byte>, depth: nat)
    requires Fits(Then(r, End)) && pos <= |bytes| && bytes[pos..] == Header(r) + Body(r) + tail
    ensures var next := pos + 8 + |Body(r)|;
      && next + |tail| == |bytes| && bytes[next..] == tail
      && bytes[pos + 8..next] == Body(r) && HeaderVisit(bytes, pos, depth) == VisitOf(r, depth, pos)
  {
    HeaderBytes(bytes, pos, r.instance * 16 + Version(r), r.recordType, Body(r), tail, depth);
  }

  /** The header of the first record, read back. */
  lemma HeaderOf(bytes: seq<byte>, pos: nat, f: Forest, depth: nat)
    requires f.Then? && Fits(f) && pos <= |bytes| && bytes[pos..] == Serialise(f)
    ensures var size, tail := |Body(f.head)|, Serialise(f.tail);
      && |bytes| == pos + 8 + size + |tail|
      && bytes[pos + 8..pos + 8 + size] == Body(f.head) && bytes[pos + 8 + size..] == tail
      && HeaderVisit(bytes, pos, depth) == VisitOf(f.head, depth, pos)
  {
    assert Serialise(f) == Header(f.head) + Body(f.head) + Serialise(f.tail);
    RecordPlace(bytes, pos, f.head, Serialise(f.tail), depth);
  }

  /** One round of the loop. */
  lemma ReadsOne(bytes: seq<byte>, pos: nat, depth: nat, visit: Visit, body: seq<byte>, inner: seq<Visit>,
                 after: Listing)
    requires pos + 8 < |bytes| && HeaderVisit(bytes, pos, depth) == visit && visit.size == |body|
    requires pos + 8 + |body| <= |bytes| && bytes[pos + 8..pos + 8 + |body|] == body
    requires visit.version == 15 ==> ReadAll(body, 0, depth + 1).visits == inner
    requires visit.version != 15 ==> inner == []
    requires ReadAll(bytes, pos + 8 + |body|, depth) == after
    ensures ReadAll(bytes, pos, depth) == Before([visit] + inner, after)
  {}

  lemma SeenFirst(r: Record, rest: Forest, depth: nat, start: nat, inner: seq<Visit>, after: seq<Visit>)
    requires rest != End || Body(r) != []
    requires r.Container? ==> Seen(r.children, depth + 1, 0) == inner
    requires r.Atom? ==> inner == []
    requires Seen(rest, depth, start + 8 + |Body(r)|) == after
    ensures Seen(Then(r, rest), depth, start) == [VisitOf(r, depth, start)] + inner + after
  {}

  /** Reading a serialised forest visits its records, except a last one of no length. */
  lemma {:induction false} ReadsSeen(bytes: seq<byte>, pos: nat, f: Forest, depth: nat)
    requires Fits(f) && pos <= |bytes| && bytes[pos..] == Serialise(f)
    ensures ReadAll(bytes, pos, depth) == Listing(Seen(f, depth, pos), true)
    decreases f
  {
    if f.Then? {
      HeaderOf(bytes, pos, f, depth);
      SerialiseSize(f.tail);
      if pos + 8 < |bytes| {
        ReadsThen(bytes, pos, f.head, f.tail, depth);
      }
    }
  }

  lemma {:induction false} ReadsThen(bytes: seq<byte>, pos: nat, r: Record, rest: Forest, depth: nat)
    requires Fits(rest) && (if r.Container? then Fits(r.children) else r.version < 15)
    requires pos + 8 < |bytes| && HeaderVisit(bytes, pos, depth) == VisitOf(r, depth, pos)
    requires var next := pos + 8 + |Body(r)|;
      next <= |bytes| && bytes[pos + 8..next] == Body(r) && bytes[next..] == Serialise(rest)
    requires rest != End || Body(r) != []
    ensures ReadAll(bytes, pos, depth) == Listing(Seen(Then(r, rest), depth, pos), true)
    decreases Then(r, rest), 0
  {
    var next := pos + 8 + |Body(r)|;
    var inner, after := [], Seen(rest, depth, next);
    ReadsSeen(bytes, next, rest, depth);
    if r.Container? {
      assert Body(r)[0..] == Body(r);
      ReadsSeen(Body(r), 0, r.children, depth + 1);
      inner := Seen(r.children, depth + 1, 0);
    }
    ThenResult(bytes, pos, r, rest, depth, inner, after);
  }

  lemma ThenResult(bytes: seq<byte>, pos: nat, r: Record, rest: Forest, depth: nat, inner: seq<Visit>,
                   after: seq<Visit>)
    requires r.Container? || r.version < 15
    requires pos + 8 < |bytes| && HeaderVisit(bytes, pos, depth) == VisitOf(r, depth, pos)
    requires pos + 8 + |Body(r)| <= |bytes| && bytes[pos + 8..pos + 8 + |Body(r)|] == Body(r)
    requires rest != End || Body(r) != []
    requires r.Container? ==> Seen(r.children, depth + 1, 0) == inner == ReadAll(Body(r), 0, depth + 1).visits
    requires r.Atom? ==> inner == []
    requires Seen(rest, depth, pos + 8 + |Body(r)|) == after
    requires ReadAll(bytes, pos + 8 + |Body(r)|, depth) == Listing(after, true)
    ensures ReadAll(bytes, pos, depth) == Listing(Seen(Then(r, rest), depth, pos), true)
  {
    SeenFirst(r, rest, depth, pos, inner, after);
    ReadsOne(bytes, pos, depth, VisitOf(r, depth, pos), Body(r), inner, Listing(after, true));
  }

  lemma SerialiseSize(f: Forest)
    ensures f == End <==> |Serialise(f)| == 0
  {}

  lemma {:induction false} SeenCount(f: Forest, depth: nat, start: nat)
    ensures |Seen(f, depth, start)| <= |PreOrder(f, depth, start)|
    ensures |Seen(f, depth, start)| == |PreOrder(f, depth, start)| <==> NoEmptyEnd(f)
    ensures NoEmptyEnd(f) ==> Seen(f, depth, start) == PreOrder(f, depth, start)
  {
    match f
    case End =>
    case Then(r, rest) =>
      SeenCount(rest, depth, start + 8 + |Body(r)|);
      if r.Container? { SeenCount(r.children, depth + 1, 0); }
  }

  /** The reader visits exactly the records of the forest, in pre-order, if and only if no
      stream of it ends in a record of no length. */
  lemma ReadsForest(f: Forest)
    requires Fits(f)
    ensures ReadAll(Serialise(f), 0, 0).complete
    ensures ReadAll(Serialise(f), 0, 0).visits == PreOrder(f, 0, 0) <==> NoEmptyEnd(f)
  {
    assert Serialise(f)[0..] == Serialise(f);
    ReadsSeen(Serialise(f), 0, f, 0);
    SeenCount(f, 0, 0);
  }

  // ------------------------------------------------------------------ streams cut off

  /** The records of a stream in which more follows: none of this level is left out. */
  function SeenBefore(f: Forest, depth: nat, start: nat): seq<Visit> {
    match f
    case End => []
    case Then(r, rest) =>
      [VisitOf(r, depth, start)] + (if r.Container? then Seen(r.children, depth + 1, 0) else [])
      + SeenBefore(rest, depth, start + 8 + |Body(r)|)
  }

  /** The header of a record whose body is cut off to part. */
  lemma CutHeader(bytes: seq<byte>, pos: nat, r: Record, part: seq<byte>, depth: nat)
    requires Fits(Then(r, End)) && pos <= |bytes| && bytes[pos..] == Header(r) + part
    ensures |bytes| == pos + 8 + |part| && HeaderVisit(bytes, pos, depth) == VisitOf(r, depth, pos)
  {
    var first := r.instance * 16 + Version(r);
    var a, b, c := Encode(first, 2), Encode(r.recordType, 2), Encode(|Body(r)|, 4);
    assert a + b + c + part + [] == Header(r) + part;
    FiveParts(bytes, pos, a, b, c, part, []);
    Powers();
    DecodeEncode(first, 2);
    DecodeEncode(r.recordType, 2);
    DecodeEncode(|Body(r)|, 4);
  }

  lemma CutEnd(bytes: seq<byte>, pos: nat, r: Record, part: seq<byte>, depth: nat)
    requires Fits(Then(r, End)) && part < Body(r) && pos <= |bytes| && bytes[pos..] == Header(r) + part
    ensures ReadAll(bytes, pos, depth)
         == if part == [] then Listing([], true) else Listing([VisitOf(r, depth, pos)], false)
  {
    CutHeader(bytes, pos, r, part, depth);
  }

  lemma Associate(a: seq<byte>, b: seq<byte>, c: seq<byte>)
    ensures a + b + c == a + (b + c)
  {}

  lemma SerialiseParts(r: Record, rest: Forest, more: seq<byte>)
    ensures Serialise(Then(r, rest)) + more == Header(r) + Body(r) + (Serialise(rest) + more)
    ensures |Serialise(Then(r, rest))| == 8 + |Body(r)| + |Serialise(rest)|
  {
    Associate(Header(r) + Body(r), Serialise(rest), more);
  }

  /** A whole record with more behind it. */
  lemma CutStep(bytes: seq<byte>, pos: nat, r: Record, rest: Forest, next: nat, inner: seq<Visit>, depth: nat)
    requires Fits(Then(r, rest)) && next == pos + 8 + |Body(r)| < |bytes|
    requires bytes[pos + 8..next] == Body(r) && HeaderVisit(bytes, pos, depth) == VisitOf(r, depth, pos)
    requires inner == if r.Container? then Seen(r.children, depth + 1, 0) else []
    ensures ReadAll(bytes, pos, depth) == Before([VisitOf(r, depth, pos)] + inner, ReadAll(bytes, next, depth))
  {
    if r.Container? {
      assert Body(r)[0..] == Body(r);
      ReadsSeen(Body(r), 0, r.children, depth + 1);
    }
    ReadsOne(bytes, pos, depth, VisitOf(r, depth, pos), Body(r), inner, ReadAll(bytes, next, depth));
  }

  lemma SeenBeforeFirst(r: Record, rest: Forest, depth: nat, start: nat, inner: seq<Visit>, after: seq<Visit>)
    requires inner == if r.Container? then Seen(r.children, depth + 1, 0) else []
    requires SeenBefore(rest, depth, start + 8 + |Body(r)|) == after
    ensures SeenBefore(Then(r, rest), depth, start) == [VisitOf(r, depth, start)] + inner + after
  {}

  /** One whole record in front of others. */
  lemma BeforeStep(bytes: seq<byte>, pos: nat, r: Record, rest: Forest, next: nat, depth: nat, behind: Listing)
    requires Fits(Then(r, rest)) && next == pos + 8 + |Body(r)| < |bytes|
    requires bytes[pos + 8..next] == Body(r) && HeaderVisit(bytes, pos, depth) == VisitOf(r, depth, pos)
    requires ReadAll(bytes, next, depth) == Before(SeenBefore(rest, depth, next), behind)
    ensures ReadAll(bytes, pos, depth) == Before(SeenBefore(Then(r, rest), depth, pos), behind)
  {
    var inner := if r.Container? then Seen(r.children, depth + 1, 0) else [];
    var after := SeenBefore(rest, depth, next);
    CutStep(bytes, pos, r, rest, next, inner, depth);
    SeenBeforeFirst(r, rest, depth, pos, inner, after);
    Regroup(ReadAll(bytes, pos, depth), [VisitOf(r, depth, pos)] + inner, after, behind);
  }

  lemma Regroup(all: Listing, first: seq<Visit>, after: seq<Visit>, behind: Listing)
    requires all == Before(first, Before(after, behind))
    ensures all == Before(first + after, behind)
  {
    BeforeBefore(first, after, behind);
  }

  /** Whole records with more behind them. */
  lemma {:induction false} ReadsBefore(bytes: seq<byte>, pos: nat, f: Forest, more: seq<byte>, depth: nat, end: nat)
    requires Fits(f) && more != [] && pos <= |bytes| && bytes[pos..] == Serialise(f) + more
    requires end == pos + |Serialise(f)|
    ensures end < |bytes| && bytes[end..] == more
    ensures ReadAll(bytes, pos, depth) == Before(SeenBefore(f, depth, pos), ReadAll(bytes, end, depth))
    decreases f
  {
    if f == End {
      assert Serialise(f) + more == more;
      BeforeNothing(ReadAll(bytes, pos, depth));
    } else {
      var next := pos + 8 + |Body(f.head)|;
      SerialiseParts(f.head, f.tail, more);
      RecordPlace(bytes, pos, f.head, Serialise(f.tail) + more, depth);
      ReadsBefore(bytes, next, f.tail, more, depth, end);
      BeforeStep(bytes, pos, f.head, f.tail, next, depth, ReadAll(bytes, end, depth));
    }
  }

  lemma BeforeNothing(l: Listing)
    ensures Before([], l) == l
  {
    assert [] + l.visits == l.visits;
  }

  /** A stream that ends within the body of a record: that record is listed last, without what
      is in it, and the stream counts as incomplete. Behind the bare header nothing is read. */
  lemma ReadsCut(f: Forest, r: Record, part: seq<byte>, depth: nat)
    requires Fits(f) && Fits(Then(r, End)) && part < Body(r)
    ensures ReadAll(Serialise(f) + (Header(r) + part), 0, depth)
         == if part == [] then Listing(SeenBefore(f, depth, 0), true)
            else Listing(SeenBefore(f, depth, 0) + [VisitOf(r, depth, |Serialise(f)|)], false)
  {
    var bytes, more := Serialise(f) + (Header(r) + part), Header(r) + part;
    assert bytes[0..] == bytes && |more| >= 8;
    ReadsBefore(bytes, 0, f, more, depth, |Serialise(f)|);
    CutEnd(bytes, |Serialise(f)|, r, part, depth);
    var all := SeenBefore(f, depth, 0);
    assert all + [] == all;
  }
}
