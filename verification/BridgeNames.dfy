/**
 The mapping of type names in the Mono bridge (scratch/mono-uno-bridge/bridge.cs), from UNO
 to CLI names and back, for names without type arguments.
 */
module BridgeNames {
  import opened TypeNames

  // --------------------------------------------------------------------- UNO to CLI

  function UnoToCli(kw: Keywords, s: string): Mapped {
    if s == "" then IndexOutOfRange
    else
      match StripBrackets(s)
      case PastEnd => IndexOutOfRange
      case Rest(dims, name) => Name(CliElementName(kw, name) + Brackets(dims))
  }

  function CliElementName(kw: Keywords, name: string): string { if name in kw then kw[name] else "unoidl." + name }

  method MapUnoTypeName(kw: Keywords, name: string) returns (r: Mapped)
    requires '<' !in name
    ensures r == UnoToCli(kw, name)
  {
    var typeName, dims := name, 0;
    if |typeName| == 0 { return IndexOutOfRange; }
    if typeName[0] == '[' {
      var stripped := RemoveBrackets(typeName);
      if stripped.PastEnd? { return IndexOutOfRange; }
      typeName, dims := stripped.name, stripped.dims;
    }
    var buf := if typeName in kw then kw[typeName] else "unoidl." + typeName;
    buf := AppendBrackets(buf, dims);
    return Name(buf);
  }

  // --------------------------------------------------------------------- CLI to UNO

  /** The first pair of brackets at or behind from, or -1. */
  function IndexOfBrackets(s: string, from: nat): (p: int)
    ensures p >= 0 ==> from <= p && p + 2 <= |s|
    decreases |s| - from
  {
    if from + 2 > |s| then -1
    else if s[from] == '[' && s[from + 1] == ']' then from
    else IndexOfBrackets(s, from + 1)
  }

  function IndexOfDot(s: string, from: nat): (p: int)
    ensures -1 <= p < |s|
    decreases |s| - from
  {
    if from >= |s| then -1 else if s[from] == '.' then from else IndexOfDot(s, from + 1)
  }

  /** The pairs of brackets behind the one at cur. */
  function CountBrackets(s: string, cur: nat): nat
    decreases |s| - cur
  {
    if cur + 2 < |s| then
      var next := IndexOfBrackets(s, cur + 2);
      if next > 0 then 1 + CountBrackets(s, next) else 0
    else 0
  }

  /** The element name and the number of brackets behind it. */
  function ElementAndBrackets(s: string): (string, nat) {
    var index := IndexOfBrackets(s, 0);
    if index > 0 then (s[..index], 1 + CountBrackets(s, index)) else (s, 0)
  }

  function CliToUno(back: Keywords, s: string): string {
    var (name, dims) := ElementAndBrackets(s);
    Brackets(dims) + CliElementToUno(back, name)
  }

  function CliElementToUno(back: Keywords, name: string): string {
    if name in back then back[name] else Substring(name, IndexOfDot(name, 0) + 1, |name|)
  }

  method CutBrackets(typeName: string) returns (name: string, dims: nat)
    ensures (name, dims) == ElementAndBrackets(typeName)
  {
    var index := IndexOfBrackets(typeName, 0);
    if index <= 0 { return typeName, 0; }
    dims := 1;
    var curIndex := index;
    while curIndex + 2 < |typeName|
      invariant dims >= 1 && curIndex >= 0
      invariant dims + CountBrackets(typeName, curIndex) == 1 + CountBrackets(typeName, index)
      decreases |typeName| - curIndex
    {
      var next := IndexOfBrackets(typeName, curIndex + 2);
      if !(next > 0) { break; }
      curIndex := next;
      dims := dims + 1;
    }
    name := typeName[..index];
  }

  method MapManagedTypeName(back: Keywords, name: string) returns (buf: string)
    requires '<' !in name
    ensures buf == CliToUno(back, name)
  {
    var typeName, dims := CutBrackets(name);
    buf := AppendBrackets("", dims);
    assert buf == Brackets(dims);
    if typeName in back {
      buf := buf + back[typeName];
    } else {
      var i := IndexOfDot(typeName, 0);
      SubstringIs(typeName, i + 1, |typeName|);
      buf := buf + typeName[i + 1..];
    }
  }

  // --------------------------------------------------------------------- round trip

  /** The two tables are inverse, and their CLI names are no names of this compiler. */
  ghost predicate Inverse(kw: Keywords, back: Keywords) {
    && (forall k :: k in kw ==> kw[k] in back && back[kw[k]] == k && kw[k] != "" && '[' !in kw[k])
    && NoneUnoidl(back)
  }

  ghost predicate NoneUnoidl(back: Keywords) { forall n :: "unoidl." + n !in back }

  predicate SimpleName(n: string) { n != "" && '[' !in n && '<' !in n }

  lemma {:induction false} NoBracketsBefore(elem: string, dims: nat, from: nat)
    requires '[' !in elem && from <= |elem|
    ensures dims == 0 ==> IndexOfBrackets(elem + Brackets(dims), from) == -1
    ensures dims > 0 ==> IndexOfBrackets(elem + Brackets(dims), from) == |elem|
    decreases |elem| - from
  {
    var s := elem + Brackets(dims);
    if from < |elem| {
      assert s[from] == elem[from];
      NoBracketsBefore(elem, dims, from + 1);
    } else if dims > 0 {
      assert Brackets(dims) == "[]" + Brackets(dims - 1);
      assert s[from] == '[' && s[from + 1] == ']';
    }
  }

  lemma {:induction false} CountsAll(s: string, cur: nat, dims: nat)
    requires cur + 2 * dims == |s| && cur > 0 && dims > 0 && s[cur..] == Brackets(dims)
    ensures CountBrackets(s, cur) == dims - 1
    decreases dims
  {
    if dims > 1 {
      assert Brackets(dims) == "[]" + ("[]" + Brackets(dims - 2));
      assert s[cur + 2..] == s[cur..][2..] == Brackets(dims - 1);
      assert s[cur + 2] == s[cur..][2] && s[cur + 3] == s[cur..][3];
      CountsAll(s, cur + 2, dims - 1);
    }
  }

  lemma ElementFound(elem: string, dims: nat)
    requires elem != "" && '[' !in elem
    ensures ElementAndBrackets(elem + Brackets(dims)) == (elem, dims)
  {
    NoBracketsBefore(elem, dims, 0);
    if dims > 0 {
      BracketsCounted(elem, dims);
      TakeElement(elem, Brackets(dims));
    } else {
      assert elem + Brackets(dims) == elem;
    }
  }

  lemma CliElement(back: Keywords, elem: string, dims: nat)
    requires elem != "" && '[' !in elem
    ensures CliToUno(back, elem + Brackets(dims)) == Brackets(dims) + CliElementToUno(back, elem)
  {
    ElementFound(elem, dims);
  }

  lemma TakeElement(a: string, b: string)
    ensures (a + b)[..|a|] == a
  {}

  lemma BracketsCounted(elem: string, dims: nat)
    requires elem != "" && dims > 0
    ensures CountBrackets(elem + Brackets(dims), |elem|) == dims - 1
  {
    var s := elem + Brackets(dims);
    BracketsLength(dims);
    assert s[|elem|..] == Brackets(dims);
    CountsAll(s, |elem|, dims);
  }

  lemma UnoElement(kw: Keywords, n: string, dims: nat)
    requires SimpleName(n)
    ensures UnoToCli(kw, Brackets(dims) + n) == Name(CliElementName(kw, n) + Brackets(dims))
  {
    var s := Brackets(dims) + n;
    if dims > 0 {
      BracketsLength(dims);
      assert Brackets(dims)[0] == '[';
      assert s[0..] == s;
      StripAt(s, 1, 0, dims, n);
    } else {
      assert s == n;
    }
  }

  /** A name under any number of brackets comes back from its CLI name. */
  lemma RoundTrip(kw: Keywords, back: Keywords, n: string, dims: nat)
    requires Inverse(kw, back) && SimpleName(n)
    ensures UnoToCli(kw, Brackets(dims) + n).Name?
    ensures CliToUno(back, UnoToCli(kw, Brackets(dims) + n).text) == Brackets(dims) + n
  {
    UnoElement(kw, n, dims);
    ElementComesBack(kw, back, n);
    CliElement(back, CliElementName(kw, n), dims);
  }

  lemma ElementComesBack(kw: Keywords, back: Keywords, n: string)
    requires Inverse(kw, back) && SimpleName(n)
    ensures CliElementName(kw, n) != "" && '[' !in CliElementName(kw, n)
    ensures CliElementToUno(back, CliElementName(kw, n)) == n
  {
    if n !in kw {
      UnoidlRemoved(n);
    }
  }

  lemma UnoidlRemoved(n: string)
    ensures var s := "unoidl." + n; Substring(s, IndexOfDot(s, 0) + 1, |s|) == n
  {
    SubstringIs("unoidl." + n, 7, 7 + |n|);
    var u := "unoidl";
    assert "unoidl." + n == u + "." + n;
    DotAt(u, "." + n, 0);
    assert u + ("." + n) == u + "." + n;
  }

  lemma {:induction false} DotAt(a: string, b: string, from: nat)
    requires '.' !in a && b != "" && b[0] == '.' && from <= |a|
    ensures IndexOfDot(a + b, from) == |a|
    decreases |a| - from
  {
    if from < |a| {
      assert (a + b)[from] == a[from];
      DotAt(a, b, from + 1);
    }
  }

  /** So no two of these names share a CLI name. */
  lemma Injective(kw: Keywords, back: Keywords, m: string, i: nat, n: string, j: nat)
    requires Inverse(kw, back) && SimpleName(m) && SimpleName(n)
    requires UnoToCli(kw, Brackets(i) + m) == UnoToCli(kw, Brackets(j) + n)
    ensures Brackets(i) + m == Brackets(j) + n
  {
    RoundTrip(kw, back, m, i);
    RoundTrip(kw, back, n, j);
  }

  // --------------------------------------------------------- agreement with the compiler

  predicate NoArguments(t: UnoType) {
    match t
    case Poly(_, _) => false
    case Sequence(e) => NoArguments(e)
    case _ => true
  }

  /** On names without type arguments the bridge and the type compiler agree, whatever the
      name; only the empty name is an error for the bridge alone. */
  lemma SameAsCompiler(kw: Keywords, s: string)
    requires '<' !in s && s != ""
    ensures UnoToCli(kw, s) == MapTypeName(kw, s)
  {
    var stripped := StripBrackets(s);
    if stripped.Rest? {
      StrippedIsPart(s);
      PlainMaps(kw, stripped.name);
    }
  }

  lemma StrippedIsPart(s: string)
    requires StripBrackets(s).Rest?
    ensures forall c :: c in StripBrackets(s).name ==> c in s
  {
    if |s| > 0 && s[0] == '[' { StripIsPart(s, 1, 0); }
  }

  lemma {:induction false} StripIsPart(s: string, index: nat, dims: nat)
    requires index >= 1 && Strip(s, index, dims).Rest?
    ensures forall c :: c in Strip(s, index, dims).name ==> c in s
    decreases |s| - index
  {
    if s[index + 1] == '[' {
      StripIsPart(s, index + 2, if s[index] == ']' then dims + 1 else dims);
    }
  }

  /** Every type without type arguments maps to its CLI spelling, in the bridge as in the
      compiler: keywords by the table, other names behind the prefix. */
  lemma TypeMaps(kw: Keywords, t: UnoType)
    requires WellFormed(kw, t) && NoArguments(t) && PlainKeys(kw)
    ensures UnoToCli(kw, UnoSpelling(t)) == MapTypeName(kw, UnoSpelling(t)) == Name(CliSpelling(kw, t))
  {
    SpellingStart(kw, t);
    NoOpening(kw, t);
    SameAsCompiler(kw, UnoSpelling(t));
    TypeNameMaps(kw, t);
  }

  lemma {:induction false} NoOpening(kw: Keywords, t: UnoType)
    requires WellFormed(kw, t) && NoArguments(t)
    ensures '<' !in UnoSpelling(t)
    decreases t
  {
    if t.Sequence? {
      NoOpening(kw, t.element);
      assert '<' !in "[]";
    }
  }

  /** The bridge leads every such type back to its UNO spelling. */
  lemma TypeComesBack(kw: Keywords, back: Keywords, t: UnoType)
    requires Inverse(kw, back) && WellFormed(kw, t) && NoArguments(t) && PlainKeys(kw)
    requires '[' !in UnoSpelling(Base(t))
    ensures CliToUno(back, CliSpelling(kw, t)) == UnoSpelling(t)
  {
    TypeMaps(kw, t);
    BaseSpelling(kw, t);
    BaseWithoutArguments(t);
    NoOpening(kw, Base(t));
    SpellingStart(kw, Base(t));
    RoundTrip(kw, back, UnoSpelling(Base(t)), Dims(t));
  }

  lemma {:induction false} BaseWithoutArguments(t: UnoType)
    requires NoArguments(t)
    ensures NoArguments(Base(t))
  {
    if t.Sequence? { BaseWithoutArguments(t.element); }
  }

  // ----------------------------------------------------------- the table of the source

  const UNO_NUMBERS: Keywords := map[
    "System.Byte" := "byte", "System.Int16" := "short", "System.UInt16" := "unsigned short",
    "System.Int32" := "long", "System.UInt32" := "unsigned long",
    "System.Int64" := "hyper", "System.UInt64" := "unsigned hyper",
    "System.Single" := "float", "System.Double" := "double"]

  const UNO_OTHERS: Keywords := map[
    "System.Boolean" := "boolean", "System.Char" := "char", "System.String" := "string",
    "System.Void" := "void", "System.Type" := "type",
    "System.Object" := "com.sun.star.uno.XInterface", "uno.Any" := "any"]

  function UnoKeywords(): (back: Keywords)
    ensures Inverse(CliKeywords(), back)
  {
    NumbersInverse();
    OthersInverse();
    NoNumberIsOther();
    UNO_OTHERS + UNO_NUMBERS
  }

  lemma NumbersInverse()
    ensures Inverse(CLI_NUMBERS, UNO_NUMBERS)
  {
    NumbersNotUnoidl();
  }

  lemma OthersInverse()
    ensures Inverse(CLI_OTHERS, UNO_OTHERS)
  {
    OthersNotUnoidl();
  }

  lemma NumbersNotUnoidl()
    ensures NoneUnoidl(UNO_NUMBERS)
  {
    forall n ensures "unoidl." + n !in UNO_NUMBERS { NotUnoidl(n); }
  }

  lemma OthersNotUnoidl()
    ensures NoneUnoidl(UNO_OTHERS)
  {
    forall n ensures "unoidl." + n !in UNO_OTHERS { NotUnoidl(n); }
  }

  lemma NotUnoidl(n: string)
    ensures ("unoidl." + n)[0] == 'u' && ("unoidl." + n)[2] == 'o' && ("unoidl." + n)[3] == 'i'
  {}

  lemma NoNumberIsOther()
    ensures UNO_NUMBERS.Keys !! UNO_OTHERS.Keys
  {}

  /** The table back holds nothing else. */
  lemma NothingElse()
    ensures forall n :: n in UnoKeywords() ==>
      UnoKeywords()[n] in CliKeywords() && CliKeywords()[UnoKeywords()[n]] == n
  {
    BackToNumbers();
    BackToOthers();
    NoNumberIsKeywordOfOthers();
  }

  lemma BackToNumbers()
    ensures forall n :: n in UNO_NUMBERS ==> UNO_NUMBERS[n] in CLI_NUMBERS && CLI_NUMBERS[UNO_NUMBERS[n]] == n
  {}

  lemma BackToOthers()
    ensures forall n :: n in UNO_OTHERS ==> UNO_OTHERS[n] in CLI_OTHERS && CLI_OTHERS[UNO_OTHERS[n]] == n
  {}

  lemma NoNumberIsKeywordOfOthers()
    ensures CLI_NUMBERS.Keys !! CLI_OTHERS.Keys
  {}
}
