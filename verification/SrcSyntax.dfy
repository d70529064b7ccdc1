/**
 What the parser of resource sources (scratch/layout-src2xml/source/srcparser.py) makes of
 its tokens, as a state machine over values: a stack of open elements, the tokens since the
 last delimiter, and the tokens left of the last '='.
 */
module SrcSyntax {
  import opened Wrappers

  /** A state, or the reason why the parser stops. Special stands for the elements and
      attributes that have parsers of their own and are not part of this model. */
  datatype Result<+T> = Ok(value: T) | AssertWrong | IndexError | Special

  /** The outcome alone. */
  function Status<T>(r: Result<T>): (o: Result<()>)
    ensures o.Ok? == r.Ok?
  {
    match r
    case Ok(_) => Ok(())
    case AssertWrong => AssertWrong
    case IndexError => IndexError
    case Special => Special
  }

  function Failure<T>(r: Result<()>): (f: Result<T>)
    requires !r.Ok?
    ensures Status(f) == r
  {
    match r
    case AssertWrong => AssertWrong
    case IndexError => IndexError
    case Special => Special
  }

  // ------------------------------------------------------------------------- names

  predicate IsUpper(c: char) { 'A' <= c <= 'Z' }

  function LowerChar(c: char): char { if IsUpper(c) then (c as int + 32) as char else c }

  function Lower(s: string): string { seq(|s|, i requires 0 <= i < |s| => LowerChar(s[i])) }

  /** Lower case, with a dash before each capital that is not within one character of the
      last dash; the number counts the characters since then. */
  function Dashed(s: string): (string, nat) {
    if s == "" then ("", 0)
    else
      var (text, run) := Dashed(s[..|s| - 1]);
      var c := s[|s| - 1];
      if IsUpper(c) && run > 1 then (text + "-" + [LowerChar(c)], 1) else (text + [LowerChar(c)], run + 1)
  }

  function PostTrans(name: string): string {
    if name == "ok-button" then "okbutton"
    else if name == "cancel-button" then "cancelbutton"
    else if name == "help-button" then "helpbutton"
    else name
  }

  function TransName(name: string): string { PostTrans(Dashed(name).0) }

  function TransValue(value: string): string {
    if Lower(value) == "true" || Lower(value) == "false" then Lower(value) else value
  }

  function RenameAttribute(name: string, elemName: string): string {
    if elemName == "metric-field" && name == "spin-size" then "step-size" else name
  }

  function RemoveQuote(text: string): string {
    if |text| >= 2 && text[0] == text[|text| - 1] == '"' then text[1..|text| - 1] else text
  }

  // ---------------------------------------------------------------------- the parser

  datatype Tree = Tree(name: string, rid: Option<string>, attrs: map<string, string>, children: seq<Tree>)

  /** open: the root and the elements whose brace is open, each with its finished children. */
  datatype State = State(open: seq<Tree>, tokenBuf: seq<string>, leftTokens: seq<string>)

  const ROOT := Tree("", None, map[], [])

  const START := State([ROOT], [], [])

  /** The element an opening brace starts: Name = {, Type Name {, or LeftName = Name {. */
  function Opened(tokenBuf: seq<string>, leftTokens: seq<string>): Result<Tree> {
    if tokenBuf == [] && leftTokens != [] then
      Ok(Tree(TransName(leftTokens[0]), None, map[], []))
    else if tokenBuf != [] && leftTokens == [] then
      Ok(Tree(TransName(tokenBuf[0]), if |tokenBuf| >= 2 then Some(tokenBuf[1]) else None, map[], []))
    else if leftTokens == [] then IndexError
    else Ok(Tree(TransName(leftTokens[0]), None, map["type" := RemoveQuote(tokenBuf[0])], []))
  }

  function OpenBrace(s: State): Result<State> {
    match Opened(s.tokenBuf, s.leftTokens)
    case Ok(t) =>
      if t.name == "string-list" then Special
      else if s.open == [] then IndexError
      else Ok(State(s.open + [t], [], []))
    case AssertWrong => AssertWrong
    case IndexError => IndexError
    case Special => Special
  }

  /** A finished element becomes a child of the one below it on the stack. */
  function Close(open: seq<Tree>): seq<Tree>
    requires open != []
  {
    var n := |open| - 1;
    if n == 0 then [] else open[..n - 1] + [open[n - 1].(children := open[n - 1].children + [open[n]])]
  }

  function CloseBrace(s: State): Result<State> {
    if s.tokenBuf != [] then AssertWrong
    else if s.open == [] then IndexError
    else Ok(s.(open := Close(s.open)))
  }

  function AttributeName(leftTokens: seq<string>): string {
    if leftTokens == [] then "none" else TransName(leftTokens[0])
  }

  function SetAttr(t: Tree, name: string, value: string): Tree {
    t.(attrs := t.attrs[name := RemoveQuote(value)])
  }

  predicate IsGeometry(name: string) { name == "pos" || name == "size" }

  function SemiColon(s: State): Result<State> {
    var done := State(s.open, [], []);
    if s.tokenBuf == [] || |s.open| == 1 then Ok(done)
    else if s.open == [] then IndexError
    else
      var name := AttributeName(s.leftTokens);
      var n := |s.open| - 1;
      if IsGeometry(name) then Special
      else if |s.tokenBuf| != 1 then Ok(done)
      else
        var elemName, value := s.open[n].name, TransValue(s.tokenBuf[0]);
        Ok(done.(open := s.open[n := SetAttr(s.open[n], RenameAttribute(name, elemName), value)]))
  }

  function Step(s: State, tk: string): Result<State> {
    if tk == "{" then OpenBrace(s)
    else if tk == "}" then CloseBrace(s)
    else if tk == ";" then SemiColon(s)
    else if tk == "=" then Ok(State(s.open, [], s.tokenBuf))
    else Ok(s.(tokenBuf := s.tokenBuf + [tk]))
  }

  function Run(s: State, tokens: seq<string>): Result<State>
    decreases |tokens|
  {
    if tokens == [] then Ok(s)
    else
      match Step(s, tokens[0])
      case Ok(next) => Run(next, tokens[1..])
      case AssertWrong => AssertWrong
      case IndexError => IndexError
      case Special => Special
  }

  /** The tree below the bottom of the stack: elements are children from their opening
      brace on, so that a missing closing brace does no harm. */
  function Assembled(open: seq<Tree>): Tree
    requires open != []
  {
    if |open| == 1 then open[0] else open[0].(children := open[0].children + [Assembled(open[1..])])
  }

  function Parsed(tokens: seq<string>): Result<Tree> {
    match Run(START, tokens)
    case Ok(s) => if s.open == [] then IndexError else Ok(Assembled(s.open))
    case AssertWrong => AssertWrong
    case IndexError => IndexError
    case Special => Special
  }

  // ------------------------------------------------------------------- resource files

  /** The ways to start a block: Type Name {, and LeftName = { or LeftName = Type {. Further
      tokens on either side have no effect. */
  datatype Head =
    | OfType(kind: string, more: seq<string>)
    | OfName(name: string, more: seq<string>, kinds: seq<string>)

  /** An attribute takes the first token left of '='; a value of several tokens is ignored. */
  datatype Item =
    | Attr(left: seq<string>, value: seq<string>)
    | Block(head: Head, items: seq<Item>)

  function HeadTokens(h: Head): seq<string> {
    match h
    case OfType(kind, more) => [kind] + more
    case OfName(name, more, kinds) => ([name] + more) + (["="] + kinds)
  }

  function Print(items: seq<Item>): seq<string>
    decreases items
  {
    if items == [] then [] else PrintItem(items[0]) + Print(items[1..])
  }

  function PrintItem(item: Item): seq<string>
    decreases item
  {
    match item
    case Attr(left, value) => left + (["="] + (value + [";"]))
    case Block(head, items) => HeadTokens(head) + (["{"] + (Print(items) + ["}", ";"]))
  }

  /** The element of a block before its items. */
  function HeadTree(h: Head): Tree {
    match h
    case OfType(kind, more) => Tree(TransName(kind), if more == [] then None else Some(more[0]), map[], [])
    case OfName(name, _, kinds) =>
      Tree(TransName(name), None, if kinds == [] then map[] else map["type" := RemoveQuote(kinds[0])], [])
  }

  /** The element t with the items added: attributes renamed and translated, blocks as
      children in order. Attributes outside of all blocks are ignored. */
  function Meaning(t: Tree, items: seq<Item>, isRoot: bool): Tree
    decreases items
  {
    if items == [] then t else Meaning(ItemMeaning(t, items[0], isRoot), items[1..], isRoot)
  }

  function ItemMeaning(t: Tree, item: Item, isRoot: bool): Tree
    decreases item
  {
    match item
    case Attr(left, value) =>
      if isRoot || |value| != 1 then t
      else SetAttr(t, RenameAttribute(AttributeName(left), t.name), TransValue(value[0]))
    case Block(head, items) => t.(children := t.children + [Meaning(HeadTree(head), items, false)])
  }

  predicate PlainToken(s: string) { s != "{" && s != "}" && s != ";" && s != "=" }

  predicate PlainTokens(tokens: seq<string>) { forall i :: 0 <= i < |tokens| ==> PlainToken(tokens[i]) }

  predicate PlainHead(h: Head) {
    match h
    case OfType(kind, more) => PlainTokens([kind] + more) && TransName(kind) != "string-list"
    case OfName(name, more, kinds) =>
      PlainTokens([name] + more) && PlainTokens(kinds) && TransName(name) != "string-list"
  }

  predicate Plain(items: seq<Item>)
    decreases items
  {
    forall i :: 0 <= i < |items| ==>
      match items[i]
      case Attr(left, value) => PlainTokens(left) && PlainTokens(value) && !IsGeometry(AttributeName(left))
      case Block(head, inner) => PlainHead(head) && Plain(inner)
  }

  // ------------------------------------------------------------------------ theorems

  lemma {:induction false} RunAppend(s: State, a: seq<string>, b: seq<string>)
    requires Run(s, a).Ok?
    ensures Run(s, a + b) == Run(Run(s, a).value, b)
    decreases |a|
  {
    if a == [] {
      assert a + b == b;
    } else {
      assert (a + b)[1..] == a[1..] + b;
      RunAppend(Step(s, a[0]).value, a[1..], b);
    }
  }

  lemma RunFirst(s: State, tk: string, tokens: seq<string>)
    requires Step(s, tk).Ok?
    ensures Run(s, [tk] + tokens) == Run(Step(s, tk).value, tokens)
  {
    assert ([tk] + tokens)[1..] == tokens;
  }

  lemma RunStep(s: State, tokens: seq<string>, i: nat)
    requires i < |tokens|
    ensures var next := Step(s, tokens[i]);
      if next.Ok? then Run(s, tokens[i..]) == Run(next.value, tokens[i + 1..])
      else Status(Run(s, tokens[i..])) == Status(next)
  {
    assert tokens[i..][0] == tokens[i] && tokens[i..][1..] == tokens[i + 1..];
  }

  function WithTop(open: seq<Tree>, t: Tree): State
    requires open != []
  {
    State(open[|open| - 1 := t], [], [])
  }

  lemma {:induction false} RunPlain(open: seq<Tree>, buf: seq<string>, left: seq<string>, plain: seq<string>,
                                    tokens: seq<string>)
    requires PlainTokens(plain)
    ensures Run(State(open, buf, left), plain + tokens) == Run(State(open, buf + plain, left), tokens)
    decreases |plain|
  {
    if plain == [] {
      assert plain + tokens == tokens && buf + plain == buf;
    } else {
      var tk, rest := plain[0], plain[1..];
      assert plain + tokens == [tk] + (rest + tokens) && buf + plain == buf + [tk] + rest;
      RunFirst(State(open, buf, left), tk, rest + tokens);
      RunPlain(open, buf + [tk], left, rest, tokens);
    }
  }

  lemma RunEquals(open: seq<Tree>, buf: seq<string>, left: seq<string>, tokens: seq<string>)
    ensures Run(State(open, buf, left), ["="] + tokens) == Run(State(open, [], buf), tokens)
  {
    RunFirst(State(open, buf, left), "=", tokens);
  }

  /** Tokens on both sides of '='. */
  lemma RunAssignment(open: seq<Tree>, left: seq<string>, right: seq<string>, tokens: seq<string>)
    requires PlainTokens(left) && PlainTokens(right)
    ensures Run(State(open, [], []), left + (["="] + (right + tokens))) == Run(State(open, right, left), tokens)
  {
    assert [] + left == left && [] + right == right;
    RunPlain(open, [], [], left, ["="] + (right + tokens));
    RunEquals(open, left, [], right + tokens);
    RunPlain(open, [], left, right, tokens);
  }

  lemma RunAttr(open: seq<Tree>, left: seq<string>, value: seq<string>)
    requires open != [] && Plain([Attr(left, value)])
    ensures Run(State(open, [], []), PrintItem(Attr(left, value)))
         == Ok(WithTop(open, ItemMeaning(open[|open| - 1], Attr(left, value), |open| == 1)))
  {
    assert [Attr(left, value)][0] == Attr(left, value);
    RunAssignment(open, left, value, [";"]);
    AttrSemiColon(open, left, value);
    assert [";"] == [";"] + [];
    RunFirst(State(open, value, left), ";", []);
  }

  lemma AttrSemiColon(open: seq<Tree>, left: seq<string>, value: seq<string>)
    requires open != [] && !IsGeometry(AttributeName(left))
    ensures SemiColon(State(open, value, left))
         == Ok(WithTop(open, ItemMeaning(open[|open| - 1], Attr(left, value), |open| == 1)))
  {
    assert open[|open| - 1 := open[|open| - 1]] == open;
  }

  /** The tokens in front of a brace, as the parser holds them. */
  function HeadBuf(h: Head): seq<string> { if h.OfType? then [h.kind] + h.more else h.kinds }

  function HeadLeft(h: Head): seq<string> { if h.OfType? then [] else [h.name] + h.more }

  lemma RunHeadTokens(open: seq<Tree>, h: Head, tokens: seq<string>)
    requires PlainHead(h)
    ensures Run(State(open, [], []), HeadTokens(h) + tokens) == Run(State(open, HeadBuf(h), HeadLeft(h)), tokens)
  {
    match h
    case OfType(kind, more) =>
      assert [] + ([kind] + more) == [kind] + more;
      RunPlain(open, [], [], [kind] + more, tokens);
    case OfName(name, more, kinds) =>
      assert HeadTokens(h) + tokens == ([name] + more) + (["="] + (kinds + tokens));
      RunAssignment(open, [name] + more, kinds, tokens);
  }

  lemma HeadOpens(open: seq<Tree>, h: Head)
    requires open != [] && PlainHead(h)
    ensures OpenBrace(State(open, HeadBuf(h), HeadLeft(h))) == Ok(State(open + [HeadTree(h)], [], []))
  {}

  lemma RunHead(open: seq<Tree>, h: Head, rest: seq<string>)
    requires open != [] && PlainHead(h)
    ensures Run(State(open, [], []), HeadTokens(h) + (["{"] + rest)) == Run(State(open + [HeadTree(h)], [], []), rest)
  {
    RunHeadTokens(open, h, ["{"] + rest);
    HeadOpens(open, h);
    RunFirst(State(open, HeadBuf(h), HeadLeft(h)), "{", rest);
  }

  lemma RunTail(open: seq<Tree>, t: Tree)
    requires open != []
    ensures Run(State(open + [t], [], []), ["}", ";"])
         == Ok(WithTop(open, open[|open| - 1].(children := open[|open| - 1].children + [t])))
  {
    var n := |open| - 1;
    var closed := open[n := open[n].(children := open[n].children + [t])];
    assert Close(open + [t]) == closed;
    assert ["}", ";"] == ["}"] + ([";"] + []);
    RunFirst(State(open + [t], [], []), "}", [";"] + []);
    RunFirst(State(closed, [], []), ";", []);
  }

  /** Printed items, parsed inside any open element, add their meaning to it. */
  lemma {:induction false} RunItems(open: seq<Tree>, items: seq<Item>)
    requires open != [] && Plain(items)
    ensures Run(State(open, [], []), Print(items)) == Ok(WithTop(open, Meaning(open[|open| - 1], items, |open| == 1)))
    decreases items, 1
  {
    if items == [] {
      assert open[|open| - 1 := open[|open| - 1]] == open;
    } else {
      var item, rest := items[0], items[1..];
      assert [item][0] == item && Plain([item]);
      RunItem(open, item);
      var t := ItemMeaning(open[|open| - 1], item, |open| == 1);
      var next := open[|open| - 1 := t];
      RunItems(next, rest);
      RunAppend(State(open, [], []), PrintItem(item), Print(rest));
      assert next[|next| - 1 := Meaning(t, rest, |open| == 1)] == open[|open| - 1 := Meaning(t, rest, |open| == 1)];
    }
  }

  lemma {:induction false} RunItem(open: seq<Tree>, item: Item)
    requires open != [] && Plain([item])
    ensures Run(State(open, [], []), PrintItem(item))
         == Ok(WithTop(open, ItemMeaning(open[|open| - 1], item, |open| == 1)))
    decreases item, 0
  {
    assert [item][0] == item;
    match item
    case Attr(left, value) => RunAttr(open, left, value);
    case Block(head, items) =>
      var inner := open + [HeadTree(head)];
      var t := Meaning(HeadTree(head), items, false);
      RunHead(open, head, Print(items) + ["}", ";"]);
      RunItems(inner, items);
      assert inner[|inner| - 1 := t] == open + [t];
      RunAppend(State(inner, [], []), Print(items), ["}", ";"]);
      RunTail(open, t);
  }

  /** Parsing printed blocks rebuilds them, with names and values translated. */
  lemma ParsesPrinted(items: seq<Item>)
    requires Plain(items)
    ensures Run(START, Print(items)) == Ok(State([Meaning(ROOT, items, true)], [], []))
    ensures Parsed(Print(items)) == Ok(Meaning(ROOT, items, true))
  {
    RunItems([ROOT], items);
    assert [ROOT][0 := Meaning(ROOT, items, true)] == [Meaning(ROOT, items, true)];
  }

  function Braces(tokens: seq<string>): int {
    if tokens == [] then 0
    else (if tokens[0] == "{" then 1 else if tokens[0] == "}" then -1 else 0) + Braces(tokens[1..])
  }

  /** The stack is as deep as there are open braces. */
  lemma {:induction false} DepthIsBraces(s: State, tokens: seq<string>)
    requires Run(s, tokens).Ok?
    ensures |Run(s, tokens).value.open| == |s.open| + Braces(tokens)
    decreases |tokens|
  {
    if tokens != [] {
      DepthIsBraces(Step(s, tokens[0]).value, tokens[1..]);
    }
  }

  function Undash(s: string): string {
    if s == "" then ""
    else Undash(s[..|s| - 1]) + if s[|s| - 1] == '-' then "" else [s[|s| - 1]]
  }

  lemma UndashLast(s: string, c: char)
    ensures Undash(s + [c]) == Undash(s) + if c == '-' then "" else [c]
  {
    assert (s + [c])[..|s|] == s;
  }

  /** No character of a name is lost or moved: dashes apart, only the case changes. */
  lemma {:induction false} DashedKeeps(s: string)
    requires '-' !in s
    ensures Undash(Dashed(s).0) == Lower(s)
    decreases |s|
  {
    if s != "" {
      var front, c := s[..|s| - 1], LowerChar(s[|s| - 1]);
      assert c != '-' by { assert s[|s| - 1] in s; }
      DashedKeeps(front);
      assert Lower(s) == Lower(front) + [c];
      var text := Dashed(front).0;
      UndashLast(text, c);
      UndashLast(text, '-');
      UndashLast(text + "-", c);
    }
  }

  /** A dash never stands at the start, and two dashes have a character between them. */
  lemma {:induction false} DashesApart(s: string)
    requires '-' !in s
    ensures var (text, run) := Dashed(s);
      && (text == "" <==> s == "") && (text != "" ==> text[0] != '-' && text[|text| - 1] != '-' && run > 0)
      && forall i :: 0 <= i < |text| - 1 && text[i] == '-' ==> text[i + 1] != '-'
    decreases |s|
  {
    if s != "" {
      var front, c := s[..|s| - 1], LowerChar(s[|s| - 1]);
      assert c != '-' by { assert s[|s| - 1] in s; }
      DashesApart(front);
    }
  }

  // -------------------------------------------------------------- names in camel case

  /** The parts in lower case, with dashes between them. */
  function Joined(parts: seq<string>): string {
    if parts == [] then ""
    else
      var n := |parts| - 1;
      if n == 0 then Lower(parts[0]) else Joined(parts[..n]) + "-" + Lower(parts[n])
  }

  /** A word of a name: a capital first; the second character may be a capital too. */
  ghost predicate Word(w: string) {
    |w| >= 2 && IsUpper(w[0]) && forall i :: 2 <= i < |w| ==> !IsUpper(w[i])
  }

  function Concat(words: seq<string>): string {
    if words == [] then "" else Concat(words[..|words| - 1]) + words[|words| - 1]
  }

  /** The characters of one word more. */
  lemma {:induction false} DashedWord(front: string, w: string, k: nat)
    requires Word(w) && 1 <= k <= |w| && (front == "" || Dashed(front).1 >= 2)
    ensures Dashed(front + w[..k]) == (Dashed(front).0 + (if front == "" then "" else "-") + Lower(w[..k]), k)
    decreases k
  {
    var before, c := w[..k - 1], w[k - 1];
    assert w[..k] == before + [c];
    assert front + (before + [c]) == front + before + [c];
    LowerLast(before, c);
    DashedLast(front + before, c);
    if k == 1 {
      assert before == "" && front + before == front && IsUpper(c);
      assert Lower(w[..1]) == [LowerChar(c)];
      var text := Dashed(front).0;
      assert text + "" + [LowerChar(c)] == text + [LowerChar(c)];
    } else {
      DashedWord(front, w, k - 1);
      AppendLast(Dashed(front).0 + (if front == "" then "" else "-"), Lower(before), LowerChar(c));
    }
  }

  lemma AppendLast(a: string, b: string, c: char)
    ensures a + b + [c] == a + (b + [c])
  {}

  lemma LowerLast(s: string, c: char)
    ensures Lower(s + [c]) == Lower(s) + [LowerChar(c)]
  {}

  lemma DashedLast(s: string, c: char)
    ensures var (text, run) := Dashed(s);
      Dashed(s + [c])
      == if IsUpper(c) && run > 1 then (text + "-" + [LowerChar(c)], 1) else (text + [LowerChar(c)], run + 1)
  {
    assert (s + [c])[..|s|] == s;
  }

  /** A name of such words becomes the words in lower case with dashes between them. */
  lemma {:induction false} DashesBetweenWords(words: seq<string>)
    requires words != [] && forall i :: 0 <= i < |words| ==> Word(words[i])
    ensures Dashed(Concat(words)) == (Joined(words), |words[|words| - 1]|)
    decreases |words|
  {
    var n := |words| - 1;
    var front, w := words[..n], words[n];
    assert w[..|w|] == w;
    if n == 0 {
      assert front == [] && Concat(words) == "" + w == w && words == [w];
      DashedWord("", w, |w|);
      assert "" + "" + Lower(w) == Lower(w);
    } else {
      DashesBetweenWords(front);
      DashedSize(Concat(front));
      DashedWord(Concat(front), w, |w|);
    }
  }

  /** So are the names of blocks and attributes, the three buttons apart. */
  lemma NameOfWords(words: seq<string>, more: seq<string>)
    requires words != [] && forall i :: 0 <= i < |words| ==> Word(words[i])
    ensures AttributeName([Concat(words)] + more) == PostTrans(Joined(words))
    ensures HeadTree(OfType(Concat(words), more)).name == PostTrans(Joined(words))
    ensures AttributeName([]) == "none"
  {
    DashesBetweenWords(words);
  }

  /** Position and size are the attributes with a parser of their own. */
  lemma GeometryStops(open: seq<Tree>, value: seq<string>, left: seq<string>)
    requires |open| > 1 && value != []
    ensures SemiColon(State(open, value, ["Pos"] + left)) == Special == SemiColon(State(open, value, ["Size"] + left))
  {
    assert Word("Pos") && Word("Size");
    NameOfWord("Pos", left);
    NameOfWord("Size", left);
    assert Lower("Pos") == "pos" && Lower("Size") == "size";
  }

  lemma NameOfWord(w: string, more: seq<string>)
    requires Word(w)
    ensures AttributeName([w] + more) == PostTrans(Lower(w))
  {
    assert [w][..0] == [] && Concat([w]) == "" + w == w;
    NameOfWords([w], more);
  }

  lemma {:induction false} DashedSize(s: string)
    ensures Dashed(s).1 <= |s|
  {
    if s != "" { DashedSize(s[..|s| - 1]); }
  }

  // ----------------------------------------------------- characters, values, exceptions

  lemma LowerLetters(k: nat)
    requires k < 26
    ensures LowerChar(('A' as int + k) as char) == ('a' as int + k) as char
    ensures LowerChar(('a' as int + k) as char) == ('a' as int + k) as char
  {}

  lemma LowerTwice(s: string)
    ensures Lower(Lower(s)) == Lower(s)
  {
    var low := Lower(s);
    forall i | 0 <= i < |s| ensures LowerChar(low[i]) == low[i] {}
  }

  /** Three buttons lose their dash, no other name changes. */
  lemma PostTransNames(name: string)
    ensures PostTrans(name) == name <==> name !in {"ok-button", "cancel-button", "help-button"}
    ensures forall x :: x in {"ok", "cancel", "help"} ==> PostTrans(x + "-button") == x + "button"
  {
    assert "ok" + "-button" == "ok-button" && "cancel" + "-button" == "cancel-button";
    assert "help" + "-button" == "help-button" && "ok" + "button" == "okbutton";
    assert "cancel" + "button" == "cancelbutton" && "help" + "button" == "helpbutton";
  }

  lemma RenamedAttributes(name: string, elemName: string)
    ensures RenameAttribute(name, elemName) == name <==> !(name == "spin-size" && elemName == "metric-field")
    ensures RenameAttribute("spin-size", "metric-field") == "step-size"
  {}

  /** Truth values in lower case, all other values as they are. */
  lemma TransValueIs(v: string)
    ensures Lower(TransValue(v)) == Lower(v)
    ensures Lower(v) in {"true", "false"} ==> TransValue(v) in {"true", "false"}
    ensures Lower(v) !in {"true", "false"} ==> TransValue(v) == v
  {
    LowerTwice(v);
  }

  /** One pair of quotes is removed, and nothing else. */
  lemma RemoveQuoteIs(s: string)
    ensures RemoveQuote("\"" + s + "\"") == s
    ensures !Quoted(s) ==> RemoveQuote(s) == s
  {
    var q := "\"" + s + "\"";
    assert q[1..|q| - 1] == s;
  }

  predicate Quoted(s: string) { |s| >= 2 && s[0] == '"' && s[|s| - 1] == '"' }

  /** What a value of one token means: a truth value in lower case, a text without its quotes,
      anything else as it is. */
  ghost predicate IsValueOf(a: string, v: string) {
    && (Lower(v) in {"true", "false"} ==> a in {"true", "false"} && Lower(a) == Lower(v))
    && (forall s :: v == "\"" + s + "\"" ==> a == s)
    && (Lower(v) !in {"true", "false"} && !Quoted(v) ==> a == v)
  }

  lemma ValueOfAttribute(v: string)
    ensures IsValueOf(RemoveQuote(TransValue(v)), v)
  {
    TransValueIs(v);
    RemoveQuoteIs(TransValue(v));
    forall s | v == "\"" + s + "\"" ensures RemoveQuote(TransValue(v)) == s {
      assert v[0] == '"' && Lower(v)[0] == '"';
      RemoveQuoteIs(s);
    }
  }

  lemma {:induction false} MeaningLast(t: Tree, items: seq<Item>, item: Item, isRoot: bool)
    ensures Meaning(t, items + [item], isRoot) == ItemMeaning(Meaning(t, items, isRoot), item, isRoot)
    decreases |items|
  {
    if items == [] {
      assert [] + [item] == [item] && [item][1..] == [];
    } else {
      assert (items + [item])[1..] == items[1..] + [item];
      MeaningLast(ItemMeaning(t, items[0], isRoot), items[1..], item, isRoot);
    }
  }

  lemma {:induction false} MeaningName(t: Tree, items: seq<Item>, isRoot: bool)
    ensures Meaning(t, items, isRoot).name == t.name
    decreases |items|
  {
    if items != [] {
      MeaningName(ItemMeaning(t, items[0], isRoot), items[1..], isRoot);
    }
  }

  /** The last attribute of a printed block, in the tree that is parsed. */
  lemma PrintedAttribute(head: Head, before: seq<Item>, left: seq<string>, v: string)
    requires Plain([Block(head, before + [Attr(left, [v])])])
    ensures var r := Parsed(Print([Block(head, before + [Attr(left, [v])])]));
      && r.Ok? && |r.value.children| == 1
      && var e := r.value.children[0]; var name := RenameAttribute(AttributeName(left), e.name);
         e.name == HeadTree(head).name && name in e.attrs && IsValueOf(e.attrs[name], v)
  {
    var attr := Attr(left, [v]);
    var block := Block(head, before + [attr]);
    ParsesPrinted([block]);
    assert [block][0] == block && [block][1..] == [];
    MeaningLast(HeadTree(head), before, attr, false);
    MeaningName(HeadTree(head), before, false);
    ValueOfAttribute(v);
    assert Meaning(ROOT, [block], true) == ItemMeaning(ROOT, block, true);
  }
}
