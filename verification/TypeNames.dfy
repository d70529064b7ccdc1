/**
 The translation of UNO type names to CLI type names in the type compiler
 (patches/mono/climaker_csharp.cs). A name is scanned left to right; type arguments
 of polymorphic structs are cut out by a scanner that jumps over nested brackets.
 */
module TypeNames {

  /** A mapped name, or the exception of an index beyond the end of the string. */
  datatype Mapped = Name(text: string) | IndexOutOfRange

  // ---------------------------------------------------------------- UNO types

  /** The keyword types and their CLI names. */
  type Keywords = map<string, string>

  /** The types a UNO type name can denote. */
  datatype UnoType =
    | Basic(keyword: string)
    | Named(name: string)
    | Sequence(element: UnoType)
    | Poly(struct: string, args: Arguments)

  datatype Arguments = Last(arg: UnoType) | More(arg: UnoType, rest: Arguments)

  function UnoSpelling(t: UnoType): string {
    match t
    case Basic(k) => k
    case Named(n) => n
    case Sequence(e) => "[]" + UnoSpelling(e)
    case Poly(n, args) => n + "<" + UnoList(args)
  }

  /** Arguments separated by commas, with the closing bracket. */
  function UnoList(args: Arguments): string {
    match args
    case Last(t) => UnoSpelling(t) + ">"
    case More(t, rest) => UnoSpelling(t) + ("," + UnoList(rest))
  }

  function CliSpelling(kw: Keywords, t: UnoType): string
    requires WellFormed(kw, t)
  {
    match t
    case Basic(k) => kw[k]
    case Named(n) => "unoidl." + n
    case Sequence(e) => CliSpelling(kw, e) + "[]"
    case Poly(n, args) => "unoidl." + (n + "<" + CliList(kw, args))
  }

  function CliList(kw: Keywords, args: Arguments): string
    requires AllWellFormed(kw, args)
  {
    match args
    case Last(t) => CliSpelling(kw, t) + ">"
    case More(t, rest) => CliSpelling(kw, t) + ("," + CliList(kw, rest))
  }

  /** Names as the IDL has them: not empty, no brackets of their own, no commas. */
  predicate PlainName(n: string) {
    n != [] && n[0] != '[' && '<' !in n && '>' !in n && ',' !in n
  }

  ghost predicate PlainKeys(kw: Keywords) { forall k :: k in kw ==> PlainName(k) }

  predicate WellFormed(kw: Keywords, t: UnoType) {
    match t
    case Basic(k) => k in kw && PlainName(k)
    case Named(n) => n !in kw && PlainName(n)
    case Sequence(e) => WellFormed(kw, e)
    case Poly(n, args) => PlainName(n) && AllWellFormed(kw, args)
  }

  predicate AllWellFormed(kw: Keywords, args: Arguments) {
    WellFormed(kw, args.arg) && (args.More? ==> AllWellFormed(kw, args.rest))
  }

  // ------------------------------------------- what the mapper does, as functions

  /** The prefix "[][]...": number of pairs and what follows, or None past the end. */
  datatype Stripped = Rest(dims: nat, name: string) | PastEnd

  function Strip(s: string, index: nat, dims: nat): Stripped
    requires index >= 1
    decreases |s| - index
  {
    if index + 1 >= |s| then PastEnd
    else
      var d := if s[index] == ']' then dims + 1 else dims;
      if s[index + 1] != '[' then Rest(d, s[index + 1..]) else Strip(s, index + 2, d)
  }

  function StripBrackets(s: string): (r: Stripped)
    ensures r.Rest? ==> |r.name| <= |s|
  {
    if |s| > 0 && s[0] == '[' then
      StripShorter(s, 1, 0);
      Strip(s, 1, 0)
    else Rest(0, s)
  }

  lemma StripShorter(s: string, index: nat, dims: nat)
    requires index >= 1
    ensures Strip(s, index, dims).Rest? ==> |Strip(s, index, dims).name| < |s|
    decreases |s| - index
  {}

  function Brackets(dims: nat): string {
    if dims == 0 then "" else "[]" + Brackets(dims - 1)
  }

  /** Position of the bracket that closes the one before cur, or |s|. */
  function FindClose(s: string, cur: nat, nested: nat): (r: nat)
    requires cur <= |s|
    ensures cur <= r <= |s|
    decreases |s| - cur
  {
    if cur == |s| then cur
    else if s[cur] == '<' then FindClose(s, cur + 1, nested + 1)
    else if s[cur] == '>' then (if nested > 0 then FindClose(s, cur + 1, nested - 1) else cur)
    else FindClose(s, cur + 1, nested)
  }

  function FindOpen(s: string, from: nat): (r: nat)
    requires from <= |s|
    ensures from <= r <= |s|
    ensures r < |s| ==> s[r] == '<'
    decreases |s| - from
  {
    if from == |s| || s[from] == '<' then from else FindOpen(s, from + 1)
  }

  function Substring(s: string, lo: nat, hi: nat): (r: string)
    requires lo <= hi <= |s|
    ensures |r| == hi - lo
    decreases hi - lo
  {
    if lo == hi then "" else [s[lo]] + Substring(s, lo + 1, hi)
  }

  lemma {:induction false} SubstringIs(s: string, lo: nat, hi: nat)
    requires lo <= hi <= |s|
    ensures Substring(s, lo, hi) == s[lo..hi]
    decreases hi - lo
  {
    if lo < hi { SubstringIs(s, lo + 1, hi); }
  }

  /** The loop over the type arguments: cur scans, the current argument starts at index. */
  function ScanArgs(kw: Keywords, s: string, cur: nat, index: nat, count: nat, acc: string): Mapped
    requires 1 <= index <= cur
    decreases |s|, 0, |s| + 2 - cur
  {
    if cur >= |s| then Name(acc + ">")
    else if s[cur] == ',' || s[cur] == '>' then
      (match MapTypeName(kw, Substring(s, index, cur))
       case IndexOutOfRange => IndexOutOfRange
       case Name(m) => ScanArgs(kw, s, cur + 2, cur + 1, count + 1, acc + Separator(count) + m))
    else if s[cur] == '<' then
      var close := FindClose(s, cur + 1, 0);
      if close == |s| then IndexOutOfRange else ScanArgs(kw, s, close + 1, index, count, acc)
    else ScanArgs(kw, s, cur + 1, index, count, acc)
  }

  function MapPolymorphicName(kw: Keywords, s: string): Mapped
    decreases |s|, 1
  {
    var open := FindOpen(s, 0);
    if open == |s| then Name(s) else ScanArgs(kw, s, open + 1, open + 1, 0, s[..open + 1])
  }

  function MapTypeName(kw: Keywords, s: string): Mapped
    decreases |s|, 2
  {
    match StripBrackets(s)
    case PastEnd => IndexOutOfRange
    case Rest(dims, name) =>
      if name in kw then Name(kw[name] + Brackets(dims))
      else
        match MapPolymorphicName(kw, name)
        case IndexOutOfRange => IndexOutOfRange
        case Name(m) => Name("unoidl." + m + Brackets(dims))
  }

  // ------------------------------------------------------------- the mapper itself

  method MapUnoPolymorphicName(kw: Keywords, unoName: string) returns (r: Mapped)
    ensures r == MapPolymorphicName(kw, unoName)
    decreases |unoName|, 1
  {
    var index := FindOpen(unoName, 0);
    if index == |unoName| { return Name(unoName); }
    var builder := unoName[..index + 1];
    index := index + 1;
    var cur := index;
    var countParams := 0;
    while cur < |unoName|
      invariant 1 <= index <= cur
      invariant ScanArgs(kw, unoName, cur, index, countParams, builder) == MapPolymorphicName(kw, unoName)
      decreases |unoName| - cur
    {
      var c := unoName[cur];
      if c == ',' || c == '>' {
        if countParams != 0 {
          builder := builder + ",";
        } else {
          assert builder == builder + "";
        }
        countParams := countParams + 1;
        var param := unoName[index..cur];
        SubstringIs(unoName, index, cur);
        cur := cur + 1;
        index := cur;
        var mapped := MapUnoTypeName(kw, param);
        if mapped.IndexOutOfRange? { return IndexOutOfRange; }
        builder := builder + mapped.text;
      } else if c == '<' {
        cur := cur + 1;
        var numNested := 0;
        ghost var open := cur;
        while true
          invariant open <= cur <= |unoName|
          invariant numNested >= 0
          invariant FindClose(unoName, cur, numNested) == FindClose(unoName, open, 0)
          decreases |unoName| - cur
        {
          if cur >= |unoName| { return IndexOutOfRange; }
          var curChar := unoName[cur];
          if curChar == '<' {
            numNested := numNested + 1;
          } else if curChar == '>' {
            if numNested > 0 { numNested := numNested - 1; } else { break; }
          }
          cur := cur + 1;
        }
      }
      cur := cur + 1;
    }
    builder := builder + ">";
    return Name(builder);
  }

  /** The loop over leading brackets. */
  method RemoveBrackets(typeName: string) returns (r: Stripped)
    requires |typeName| > 0 && typeName[0] == '['
    ensures r == StripBrackets(typeName)
  {
    var dims, index := 0, 1;
    while true
      invariant index >= 1 && dims >= 0
      invariant Strip(typeName, index, dims) == Strip(typeName, 1, 0)
      decreases |typeName| - index
    {
      if index >= |typeName| { return PastEnd; }
      if typeName[index] == ']' { dims := dims + 1; }
      index := index + 1;
      if index >= |typeName| { return PastEnd; }
      index := index + 1;
      if typeName[index - 1] != '[' { break; }
    }
    r := Rest(dims, typeName[index - 1..]);
  }

  method AppendBrackets(name: string, count: nat) returns (buf: string)
    ensures buf == name + Brackets(count)
  {
    buf := name;
    var dims := count;
    while dims > 0
      invariant dims >= 0 && buf + Brackets(dims) == name + Brackets(count)
    {
      assert buf + Brackets(dims) == buf + "[]" + Brackets(dims - 1);
      dims := dims - 1;
      buf := buf + "[]";
    }
    assert buf == buf + Brackets(0);
  }

  method MapUnoTypeName(kw: Keywords, typeName: string) returns (r: Mapped)
    ensures r == MapTypeName(kw, typeName)
    decreases |typeName|, 2
  {
    var unoName, dims := typeName, 0;
    if |typeName| > 0 && typeName[0] == '[' {
      var stripped := RemoveBrackets(typeName);
      if stripped.PastEnd? { return IndexOutOfRange; }
      unoName, dims := stripped.name, stripped.dims;
    }
    var buf;
    if unoName in kw {
      buf := kw[unoName];
    } else {
      var mapped := MapUnoPolymorphicName(kw, unoName);
      if mapped.IndexOutOfRange? { return IndexOutOfRange; }
      buf := "unoidl." + mapped.text;
    }
    buf := AppendBrackets(buf, dims);
    return Name(buf);
  }

  // ------------------------------------------------------------------- the theorem

  /** The first k characters of w stand in s at p. */
  predicate Match(s: string, p: nat, w: string, k: nat)
    requires k <= |w| && p + |w| <= |s|
    decreases k
  {
    k == 0 || (s[p + k - 1] == w[k - 1] && Match(s, p, w, k - 1))
  }

  predicate At(s: string, p: nat, w: string) { p + |w| <= |s| && Match(s, p, w, |w|) }

  lemma {:induction false} MatchIs(s: string, p: nat, w: string, k: nat)
    requires k <= |w| && p + |w| <= |s|
    ensures Match(s, p, w, k) <==> forall i :: 0 <= i < k ==> s[p + i] == w[i]
    decreases k
  {
    if k > 0 { MatchIs(s, p, w, k - 1); }
  }

  lemma AtSplit(s: string, p: nat, u: string, v: string)
    requires At(s, p, u + v)
    ensures At(s, p, u) && At(s, p + |u|, v)
  {
    MatchIs(s, p, u + v, |u + v|);
    MatchIs(s, p, u, |u|);
    MatchIs(s, p + |u|, v, |v|);
    forall i | 0 <= i < |u| ensures s[p + i] == u[i] { assert (u + v)[i] == u[i]; }
    forall i | 0 <= i < |v| ensures s[p + |u| + i] == v[i] {
      assert s[p + (|u| + i)] == (u + v)[|u| + i] == v[i];
    }
  }

  lemma AtChar(s: string, p: nat, c: char)
    requires At(s, p, [c])
    ensures s[p] == c
  {
    assert s[p + 0] == [c][0];
  }

  lemma AtWhole(s: string, p: nat, w: string)
    requires At(s, p, w)
    ensures s[p..p + |w|] == w
  {
    MatchIs(s, p, w, |w|);
  }

  lemma AtEnd(front: string, w: string)
    ensures At(front + w, |front|, w)
  {
    MatchIs(front + w, |front|, w, |w|);
  }

  lemma AtFirst(s: string, p: nat, w: string)
    requires At(s, p, w) && w != []
    ensures s[p] == w[0] && At(s, p + 1, w[1..])
  {
    assert w == [w[0]] + w[1..];
    AtSplit(s, p, [w[0]], w[1..]);
    AtChar(s, p, w[0]);
  }

  lemma {:induction false} CloseOverPlain(s: string, p: nat, w: string, nested: nat)
    requires At(s, p, w) && '<' !in w && '>' !in w
    ensures FindClose(s, p, nested) == FindClose(s, p + |w|, nested)
    decreases |w|
  {
    if w != [] {
      AtFirst(s, p, w);
      assert w[0] in w;
      CloseOverPlain(s, p + 1, w[1..], nested);
    }
  }

  /** The bracket counter passes over the spelling of any type. */
  lemma {:induction false} CloseOverType(kw: Keywords, s: string, p: nat, t: UnoType, nested: nat)
    requires WellFormed(kw, t) && At(s, p, UnoSpelling(t))
    ensures FindClose(s, p, nested) == FindClose(s, p + |UnoSpelling(t)|, nested)
    decreases t
  {
    match t
    case Basic(k) => CloseOverPlain(s, p, k, nested);
    case Named(n) => CloseOverPlain(s, p, n, nested);
    case Sequence(e) =>
      AtSplit(s, p, "[]", UnoSpelling(e));
      CloseOverPlain(s, p, "[]", nested);
      CloseOverType(kw, s, p + 2, e, nested);
    case Poly(n, args) =>
      AtSplit(s, p, n + "<", UnoList(args));
      AtSplit(s, p, n, "<");
      CloseOverPlain(s, p, n, nested);
      AtChar(s, p + |n|, '<');
      CloseOverList(kw, s, p + |n| + 1, args, nested + 1);
  }

  function EndOf(args: Arguments): char { if args.Last? then '>' else ',' }

  lemma ListParts(s: string, p: nat, args: Arguments)
    requires At(s, p, UnoList(args))
    ensures At(s, p, UnoSpelling(args.arg))
    ensures At(s, p + |UnoSpelling(args.arg)|, [EndOf(args)])
    ensures args.More? ==> At(s, p + |UnoSpelling(args.arg)| + 1, UnoList(args.rest))
    ensures |UnoList(args)| == |UnoSpelling(args.arg)| + 1 + if args.Last? then 0 else |UnoList(args.rest)|
  {
    var head := UnoSpelling(args.arg);
    if args.Last? {
      AtSplit(s, p, head, ">");
    } else {
      AtSplit(s, p, head, "," + UnoList(args.rest));
      AtSplit(s, p + |head|, ",", UnoList(args.rest));
    }
  }

  /** ... and over an argument list up to the bracket that ends it. */
  lemma {:induction false} CloseOverList(kw: Keywords, s: string, p: nat, args: Arguments, nested: nat)
    requires AllWellFormed(kw, args) && At(s, p, UnoList(args))
    ensures |UnoList(args)| > 0 && s[p + |UnoList(args)| - 1] == '>'
    ensures FindClose(s, p, nested) == FindClose(s, p + |UnoList(args)| - 1, nested)
    decreases args
  {
    var q := p + |UnoSpelling(args.arg)|;
    ListParts(s, p, args);
    CloseOverType(kw, s, p, args.arg, nested);
    if args.Last? {
      AtChar(s, q, '>');
    } else {
      CloseOverPlain(s, q, ",", nested);
      CloseOverList(kw, s, q + 1, args.rest, nested);
    }
  }

  lemma {:induction false} ScanOverPlain(kw: Keywords, s: string, p: nat, w: string, index: nat,
                                         count: nat, acc: string)
    requires At(s, p, w) && '<' !in w && '>' !in w && ',' !in w && 1 <= index <= p
    ensures ScanArgs(kw, s, p, index, count, acc) == ScanArgs(kw, s, p + |w|, index, count, acc)
    decreases |w|
  {
    if w != [] {
      AtFirst(s, p, w);
      assert w[0] in w;
      ScanOverPlain(kw, s, p + 1, w[1..], index, count, acc);
    }
  }

  lemma SpellingStart(kw: Keywords, t: UnoType)
    requires WellFormed(kw, t)
    ensures |UnoSpelling(t)| > 0 && UnoSpelling(t)[0] !in "<>,"
    ensures !t.Sequence? ==> UnoSpelling(t)[0] != '['
  {}

  /** The scanner passes over an argument, also when it starts at the second character. */
  lemma {:induction false} ScanOverType(kw: Keywords, s: string, p: nat, skip: nat, t: UnoType, index: nat,
                                        count: nat, acc: string)
    requires WellFormed(kw, t) && At(s, p, UnoSpelling(t)) && skip <= 1 <= index <= p
    ensures p + skip <= p + |UnoSpelling(t)|
    ensures ScanArgs(kw, s, p + skip, index, count, acc) == ScanArgs(kw, s, p + |UnoSpelling(t)|, index, count, acc)
    decreases t
  {
    SpellingStart(kw, t);
    match t
    case Basic(k) =>
      ScanOverPlainFrom(kw, s, p, skip, k, index, count, acc);
    case Named(n) =>
      ScanOverPlainFrom(kw, s, p, skip, n, index, count, acc);
    case Sequence(e) =>
      AtSplit(s, p, "[]", UnoSpelling(e));
      ScanOverPlainFrom(kw, s, p, skip, "[]", index, count, acc);
      ScanOverType(kw, s, p + 2, 0, e, index, count, acc);
    case Poly(n, args) =>
      AtSplit(s, p, n + "<", UnoList(args));
      AtSplit(s, p, n, "<");
      ScanOverPlainFrom(kw, s, p, skip, n, index, count, acc);
      AtChar(s, p + |n|, '<');
      CloseOverList(kw, s, p + |n| + 1, args, 0);
  }

  lemma ScanOverPlainFrom(kw: Keywords, s: string, p: nat, skip: nat, w: string, index: nat, count: nat, acc: string)
    requires At(s, p, w) && skip <= |w| && '<' !in w && '>' !in w && ',' !in w && 1 <= index <= p
    ensures ScanArgs(kw, s, p + skip, index, count, acc) == ScanArgs(kw, s, p + |w|, index, count, acc)
  {
    assert w == w[..skip] + w[skip..];
    AtSplit(s, p, w[..skip], w[skip..]);
    ScanOverPlain(kw, s, p + skip, w[skip..], index, count, acc);
  }

  function Separator(count: nat): string { if count != 0 then "," else "" }

  /** One argument and the character that ends it. */
  lemma ScanOne(kw: Keywords, s: string, p: nat, skip: nat, t: UnoType, c: char, count: nat, acc: string)
    requires WellFormed(kw, t) && p >= 1 && (c == ',' || c == '>') && skip <= 1
    requires At(s, p, UnoSpelling(t)) && At(s, p + |UnoSpelling(t)|, [c])
    requires MapTypeName(kw, UnoSpelling(t)) == Name(CliSpelling(kw, t))
    ensures ScanArgs(kw, s, p + skip, p, count, acc)
         == ScanArgs(kw, s, p + |UnoSpelling(t)| + 2, p + |UnoSpelling(t)| + 1, count + 1,
                     acc + Separator(count) + CliSpelling(kw, t))
  {
    var q := p + |UnoSpelling(t)|;
    AtChar(s, q, c);
    AtWhole(s, p, UnoSpelling(t));
    SubstringIs(s, p, q);
    ScanOverType(kw, s, p, skip, t, p, count, acc);
  }

  lemma Associate(a: string, b: string, c: string)
    ensures a + b + c == a + (b + c)
  {}

  lemma CliListStep(kw: Keywords, args: Arguments, acc: string)
    requires AllWellFormed(kw, args)
    ensures acc + CliList(kw, args)
         == if args.Last? then acc + CliSpelling(kw, args.arg) + ">"
            else acc + CliSpelling(kw, args.arg) + "," + CliList(kw, args.rest)
  {
    var cli := CliSpelling(kw, args.arg);
    if args.Last? {
      Associate(acc, cli, ">");
    } else {
      Associate(acc, cli, "," + CliList(kw, args.rest));
      Associate(acc + cli, ",", CliList(kw, args.rest));
    }
  }

  /** Scanning an argument list, from its first or second character, appends the CLI spelling of the list. */
  lemma {:induction false} ScanList(kw: Keywords, s: string, p: nat, skip: nat, args: Arguments,
                                    count: nat, acc: string)
    requires PlainKeys(kw) && AllWellFormed(kw, args) && At(s, p, UnoList(args))
    requires p >= 1 && p + |UnoList(args)| == |s| && skip <= 1
    ensures ScanArgs(kw, s, p + skip, p, count, acc)
         == Name(acc + Separator(count) + CliList(kw, args))
    decreases args, 0
  {
    var q := p + |UnoSpelling(args.arg)|;
    ListParts(s, p, args);
    TypeNameMaps(kw, args.arg);
    ScanFirst(kw, s, p, skip, args, count, acc);
    if args.More? {
      ScanList(kw, s, q + 1, 1, args.rest, count + 1, acc + Separator(count) + CliSpelling(kw, args.arg));
    }
  }

  /** Scanning the first argument of a list, and the end of the list behind the last one. */
  lemma ScanFirst(kw: Keywords, s: string, p: nat, skip: nat, args: Arguments, count: nat, acc: string)
    requires AllWellFormed(kw, args) && At(s, p, UnoList(args))
    requires p >= 1 && p + |UnoList(args)| == |s| && skip <= 1
    requires MapTypeName(kw, UnoSpelling(args.arg)) == Name(CliSpelling(kw, args.arg))
    ensures var q, mapped := p + |UnoSpelling(args.arg)|, acc + Separator(count) + CliSpelling(kw, args.arg);
      if args.Last? then
        ScanArgs(kw, s, p + skip, p, count, acc) == Name(acc + Separator(count) + CliList(kw, args))
      else
        && ScanArgs(kw, s, p + skip, p, count, acc) == ScanArgs(kw, s, q + 2, q + 1, count + 1, mapped)
        && mapped + Separator(count + 1) + CliList(kw, args.rest) == acc + Separator(count) + CliList(kw, args)
  {
    var q, mapped := p + |UnoSpelling(args.arg)|, acc + Separator(count) + CliSpelling(kw, args.arg);
    ListParts(s, p, args);
    CliListStep(kw, args, acc + Separator(count));
    ScanOne(kw, s, p, skip, args.arg, EndOf(args), count, acc);
    if args.Last? {
      ScanEnd(kw, s, q + 2, q + 1, count + 1, mapped);
    }
  }

  lemma ScanEnd(kw: Keywords, s: string, cur: nat, index: nat, count: nat, acc: string)
    requires 1 <= index <= cur && |s| <= cur
    ensures ScanArgs(kw, s, cur, index, count, acc) == Name(acc + ">")
  {}

  /** The element type under all sequence brackets. */
  function Base(t: UnoType): UnoType { if t.Sequence? then Base(t.element) else t }

  function Dims(t: UnoType): nat { if t.Sequence? then Dims(t.element) + 1 else 0 }

  lemma {:induction false} BracketsSnoc(n: nat)
    ensures Brackets(n + 1) == Brackets(n) + "[]"
  {
    if n > 0 {
      BracketsSnoc(n - 1);
      assert Brackets(n + 1) == "[]" + (Brackets(n - 1) + "[]") == "[]" + Brackets(n - 1) + "[]";
    }
  }

  lemma {:induction false} BaseSpelling(kw: Keywords, t: UnoType)
    requires WellFormed(kw, t)
    ensures WellFormed(kw, Base(t)) && !Base(t).Sequence?
    ensures UnoSpelling(t) == Brackets(Dims(t)) + UnoSpelling(Base(t))
    ensures CliSpelling(kw, t) == CliSpelling(kw, Base(t)) + Brackets(Dims(t))
    ensures Base(t) == t || Base(t) < t
  {
    if t.Sequence? {
      BaseSpelling(kw, t.element);
      BracketsSnoc(Dims(t.element));
    }
  }

  lemma {:induction false} StripAt(s: string, index: nat, dims: nat, n: nat, name: string)
    requires index >= 1 && n >= 1 && index - 1 + 2 * n + |name| == |s|
    requires s[index - 1..] == Brackets(n) + name && name != [] && name[0] != '['
    ensures Strip(s, index, dims) == Rest(dims + n, name)
    decreases n
  {
    var rest := Brackets(n - 1) + name;
    assert s[index - 1..] == "[]" + rest by { assert Brackets(n) == "[]" + Brackets(n - 1); }
    assert s[index] == s[index - 1..][1] == ']';
    assert s[index + 1..] == s[index - 1..][2..] == rest;
    assert s[index + 1] == rest[0];
    if n > 1 {
      assert rest[0] == '[' by { assert Brackets(n - 1) == "[]" + Brackets(n - 2); }
      StripAt(s, index + 2, dims + 1, n - 1, name);
    } else {
      assert rest == name;
    }
  }

  lemma {:induction false} BracketsLength(n: nat)
    ensures |Brackets(n)| == 2 * n
  {
    if n > 0 { BracketsLength(n - 1); }
  }

  lemma StripSpelling(kw: Keywords, t: UnoType)
    requires WellFormed(kw, t)
    ensures StripBrackets(UnoSpelling(t)) == Rest(Dims(t), UnoSpelling(Base(t)))
  {
    BaseSpelling(kw, t);
    SpellingStart(kw, Base(t));
    var s := UnoSpelling(t);
    if t.Sequence? {
      BracketsLength(Dims(t));
      assert s[0..] == s;
      StripAt(s, 1, 0, Dims(t), UnoSpelling(Base(t)));
    } else {
      assert Brackets(0) + s == s;
    }
  }

  lemma {:induction false} OpenIsFirst(s: string, from: nat, p: nat)
    requires from <= p <= |s| && (p == |s| || s[p] == '<') && '<' !in s[from..p]
    ensures FindOpen(s, from) == p
    decreases p - from
  {
    if from < p {
      assert s[from] == s[from..p][0];
      assert s[from + 1..p] == s[from..p][1..];
      OpenIsFirst(s, from + 1, p);
    }
  }

  lemma OpenBehind(n: string, list: string)
    requires '<' !in n
    ensures var s := n + "<" + list; FindOpen(s, 0) == |n| && |n| < |s| && s[..|n| + 1] == n + "<"
  {
    var s := n + "<" + list;
    assert s[|n|] == '<' && s[0..|n|] == n;
    OpenIsFirst(s, 0, |n|);
  }

  lemma PolyMaps(kw: Keywords, n: string, args: Arguments)
    requires PlainKeys(kw) && WellFormed(kw, Poly(n, args))
    ensures MapPolymorphicName(kw, n + "<" + UnoList(args)) == Name(n + "<" + CliList(kw, args))
    decreases args, 1
  {
    var s := n + "<" + UnoList(args);
    OpenBehind(n, UnoList(args));
    AtEnd(n + "<", UnoList(args));
    ScanList(kw, s, |n| + 1, 0, args, 0, n + "<");
    assert n + "<" + "" + CliList(kw, args) == n + "<" + CliList(kw, args);
  }

  lemma PlainMaps(kw: Keywords, n: string)
    requires '<' !in n
    ensures MapPolymorphicName(kw, n) == Name(n)
  {
    assert n[0..|n|] == n;
    OpenIsFirst(n, 0, |n|);
  }

  /** Every UNO type, nested to any depth, maps to exactly its CLI spelling. */
  lemma {:induction false} TypeNameMaps(kw: Keywords, t: UnoType)
    requires WellFormed(kw, t) && PlainKeys(kw)
    ensures MapTypeName(kw, UnoSpelling(t)) == Name(CliSpelling(kw, t))
    decreases t
  {
    StripSpelling(kw, t);
    BaseSpelling(kw, t);
    match Base(t)
    case Basic(k) =>
    case Named(n) =>
      PlainMaps(kw, n);
    case Poly(n, args) =>
      assert UnoSpelling(Base(t))[|n|] == '<';
      PolyMaps(kw, n, args);
  }

  // ------------------------------------------------------------------ names cut off

  lemma {:induction false} StripAll(s: string, index: nat, dims: nat, n: nat, tail: string)
    requires index >= 1 && n + |tail| >= 1 && (tail == "" || tail == "[")
    requires index - 1 + 2 * n + |tail| == |s| && s[index - 1..] == Brackets(n) + tail
    ensures Strip(s, index, dims) == PastEnd
    decreases n
  {
    if n > 0 {
      var rest := Brackets(n - 1) + tail;
      assert s[index - 1..] == "[]" + rest;
      assert s[index + 1..] == s[index - 1..][2..] == rest && s[index] == s[index - 1..][1];
      if rest != "" {
        assert rest[0] == '[' by { if n > 1 { assert Brackets(n - 1) == "[]" + Brackets(n - 2); } }
        assert s[index + 1] == s[index + 1..][0];
        StripAll(s, index + 2, dims + 1, n - 1, tail);
      }
    }
  }

  /** Brackets without an element lead past the end, also when the last one is cut off. */
  lemma OnlyBrackets(kw: Keywords, n: nat, tail: string)
    requires n + |tail| >= 1 && (tail == "" || tail == "[")
    ensures MapTypeName(kw, Brackets(n) + tail) == IndexOutOfRange
  {
    var s := Brackets(n) + tail;
    BracketsLength(n);
    assert s[0..] == s;
    assert s[0] == '[' by { if n > 0 { assert Brackets(n) == "[]" + Brackets(n - 1); } }
    StripAll(s, 1, 0, n, tail);
  }

  /** So do nested type arguments that are not closed. */
  lemma UnclosedNested(kw: Keywords, n: string, m: string, w: string)
    requires PlainName(n) && PlainName(m) && '<' !in w && '>' !in w && PlainKeys(kw)
    ensures MapTypeName(kw, n + "<" + (m + ("<" + w))) == IndexOutOfRange
  {
    var list := m + ("<" + w);
    OpenBehind(n, list);
    assert (n + "<" + list)[|n|] == '<';
    AtEnd(n + "<", list);
    ScanUnclosed(kw, n + "<" + list, |n| + 1, m, w, n + "<");
  }

  lemma ScanUnclosed(kw: Keywords, s: string, p: nat, m: string, w: string, acc: string)
    requires p >= 1 && p + |m| + 1 + |w| == |s| && At(s, p, m + ("<" + w))
    requires PlainName(m) && '<' !in w && '>' !in w
    ensures ScanArgs(kw, s, p, p, 0, acc) == IndexOutOfRange
  {
    var q := p + |m|;
    AtSplit(s, p, m, "<" + w);
    AtSplit(s, q, "<", w);
    AtChar(s, q, '<');
    ScanOverPlain(kw, s, p, m, p, 0, acc);
    CloseOverPlain(s, q + 1, w, 0);
  }

  /** An argument list that is not closed loses its last argument, without an exception. */
  lemma UnclosedList(kw: Keywords, n: string, m: string)
    requires PlainName(n) && PlainName(m) && PlainKeys(kw)
    ensures MapTypeName(kw, n + "<" + m) == Name("unoidl." + (n + "<" + ">"))
  {
    var s, p := n + "<" + m, |n| + 1;
    OpenBehind(n, m);
    assert s[|n|] == '<';
    AtEnd(n + "<", m);
    ScanOverPlain(kw, s, p, m, p, 0, n + "<");
    assert "unoidl." + (n + "<" + ">") + Brackets(0) == "unoidl." + (n + "<" + ">");
  }

  /** The source's own comment shows an argument with a blank after the comma. Such a
      blank becomes part of a name, so the keyword behind it is not translated. */
  lemma BlankAfterComma(kw: Keywords, n: string, k: string, l: string)
    requires PlainKeys(kw) && PlainName(n) && k in kw && l in kw && " " + l !in kw
    ensures MapTypeName(kw, n + "<" + (k + ("," + ((" " + l) + ">"))))
         == Name("unoidl." + (n + "<" + (kw[k] + ("," + ("unoidl." + (" " + l) + ">")))))
  {
    var blank := Named(" " + l);
    var args := More(Basic(k), Last(blank));
    assert PlainName(k) && PlainName(l) && PlainName(" " + l);
    assert AllWellFormed(kw, Last(blank)) && WellFormed(kw, Basic(k));
    assert UnoList(args) == k + ("," + UnoList(Last(blank)));
    assert CliList(kw, args) == kw[k] + ("," + CliList(kw, Last(blank)));
    TypeNameMaps(kw, Poly(n, args));
  }

  // ------------------------------------------------------- the table of the source

  const CLI_NUMBERS: Keywords := map[
    "byte" := "System.Byte", "short" := "System.Int16", "unsigned short" := "System.UInt16",
    "long" := "System.Int32", "unsigned long" := "System.UInt32",
    "hyper" := "System.Int64", "unsigned hyper" := "System.UInt64",
    "float" := "System.Single", "double" := "System.Double"]

  const CLI_OTHERS: Keywords := map[
    "boolean" := "System.Boolean", "char" := "System.Char", "string" := "System.String",
    "void" := "System.Void", "type" := "System.Type",
    "com.sun.star.uno.XInterface" := "System.Object", "any" := "uno.Any"]

  function CliKeywords(): (kw: Keywords)
    ensures PlainKeys(kw)
  {
    NumbersPlain();
    OthersPlain();
    CLI_NUMBERS + CLI_OTHERS
  }

  lemma NumbersPlain()
    ensures PlainKeys(CLI_NUMBERS)
  {}

  lemma OthersPlain()
    ensures PlainKeys(CLI_OTHERS)
  {
    InterfacePlain("com.sun.star.uno.XInterface");
  }

  lemma InterfacePlain(n: string)
    requires n == "com.sun.star.uno.XInterface"
    ensures PlainName(n)
  {}

  datatype Width = W16 | W32 | W64

  function UnoInteger(w: Width): string {
    match w case W16 => "short" case W32 => "long" case W64 => "hyper"
  }

  function Digits(w: Width): string {
    match w case W16 => "16" case W32 => "32" case W64 => "64"
  }

  /** The integer types go to those of their width, signed or not; a byte and the
      floating-point types to their own. */
  lemma NumberKeywords(w: Width)
    ensures var kw := CLI_NUMBERS;
      && UnoInteger(w) in kw && kw[UnoInteger(w)] == "System.Int" + Digits(w)
      && "unsigned " + UnoInteger(w) in kw && kw["unsigned " + UnoInteger(w)] == "System.UInt" + Digits(w)
    ensures forall k :: k in CLI_NUMBERS ==>
      k in {"byte", "float", "double"} || exists v :: k == UnoInteger(v) || k == "unsigned " + UnoInteger(v)
  {
    assert "unsigned " + "short" == "unsigned short" && "unsigned " + "long" == "unsigned long";
    assert "unsigned " + "hyper" == "unsigned hyper";
    forall k | k in CLI_NUMBERS && k !in {"byte", "float", "double"}
      ensures exists v :: k == UnoInteger(v) || k == "unsigned " + UnoInteger(v)
    {
      if k == "short" || k == "unsigned short" {
        assert k == UnoInteger(W16) || k == "unsigned " + UnoInteger(W16);
      } else if k == "long" || k == "unsigned long" {
        assert k == UnoInteger(W32) || k == "unsigned " + UnoInteger(W32);
      } else {
        assert k == UnoInteger(W64) || k == "unsigned " + UnoInteger(W64);
      }
    }
  }

  /** No keyword is missing and none is added. */
  lemma KeywordNames()
    ensures CliKeywords().Keys == {
      "byte", "short", "unsigned short", "long", "unsigned long", "hyper", "unsigned hyper", "float", "double",
      "boolean", "char", "string", "void", "type", "com.sun.star.uno.XInterface", "any"}
  {
    assert CliKeywords().Keys == CLI_NUMBERS.Keys + CLI_OTHERS.Keys;
  }
}
