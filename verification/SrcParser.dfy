/**
 The parser of resource sources on its own objects (scratch/layout-src2xml/source/
 srcparser.py): the macro expander runs first, then the token handlers update the element
 stack. The objects are proved to show what SrcSyntax computes, with every parent link
 right.
 */
module SrcParser {
  import opened Wrappers
  import opened SrcSyntax
  import MacroExpander

  // ------------------------------------------------------------------------ names

  lemma JoinedLast(parts: seq<string>, buf: string, c: char)
    ensures Joined(parts + [buf + [c]]) == Joined(parts + [buf]) + [LowerChar(c)]
  {
    assert (parts + [buf])[..|parts|] == parts == (parts + [buf + [c]])[..|parts|];
    assert Lower(buf + [c]) == Lower(buf) + [LowerChar(c)];
  }

  /** One more character of a name, in a part of its own or not. */
  lemma SplitStep(name: string, i: nat, parts: seq<string>, buf: string)
    requires i < |name| && Dashed(name[..i]) == (Joined(parts + [buf]), |buf|)
    ensures Dashed(name[..i + 1]) ==
      if IsUpper(name[i]) && |buf| > 1 then (Joined(parts + [buf] + [[name[i]]]), 1)
      else (Joined(parts + [buf + [name[i]]]), |buf| + 1)
  {
    var c := name[i];
    assert name[..i + 1][..i] == name[..i];
    if IsUpper(c) && |buf| > 1 {
      assert (parts + [buf] + [[c]])[..|parts| + 1] == parts + [buf];
      assert Lower([c]) == [LowerChar(c)];
    } else {
      JoinedLast(parts, buf, c);
    }
  }

  lemma JoinedTake(parts: seq<string>, j: nat)
    requires j < |parts|
    ensures Joined(parts[..j + 1]) == (if j == 0 then "" else Joined(parts[..j]) + "-") + Lower(parts[j])
  {
    assert parts[..j + 1][..j] == parts[..j];
  }

  method TransNameParts(name: string) returns (newname: string)
    ensures newname == TransName(name)
  {
    newname := "";
    var parts: seq<string>, buf: string := [], "";
    var i := 0;
    assert name[..0] == "" && parts + [buf] == [""] && Lower("") == "";
    while i < |name|
      invariant 0 <= i <= |name|
      invariant if i == 0 then parts == [] && buf == "" else buf != ""
      invariant Dashed(name[..i]) == (Joined(parts + [buf]), |buf|)
    {
      SplitStep(name, i, parts, buf);
      if IsUpper(name[i]) && |buf| > 1 {
        parts := parts + [buf];
        buf := [name[i]];
      } else {
        buf := buf + [name[i]];
      }
      i := i + 1;
    }
    assert name[..i] == name;
    if |buf| > 0 {
      parts := parts + [buf];
    }
    assert Joined(parts) == Dashed(name).0;
    newname := JoinParts(parts);
    newname := PostTrans(newname);
  }

  method JoinParts(parts: seq<string>) returns (newname: string)
    ensures newname == Joined(parts)
  {
    newname := "";
    var first := true;
    for j := 0 to |parts|
      invariant newname == Joined(parts[..j]) && first == (j == 0)
    {
      JoinedTake(parts, j);
      if first {
        first := false;
      } else {
        newname := newname + "-";
      }
      newname := newname + Lower(parts[j]);
    }
    assert parts[..|parts|] == parts;
  }

  // ---------------------------------------------------------------------- elements

  class Element {
    var name: string
    var rid: Option<string>
    var attrs: map<string, string>
    var children: seq<Element>
    var parent: Element?

    constructor (name: string, rid: Option<string>)
      ensures this.name == name && this.rid == rid && attrs == map[] && children == [] && parent == null
    {
      this.name, this.rid, attrs, children, parent := name, rid, map[], [], null;
    }

    method AppendChild(child: Element)
      requires child != this
      modifies this`children, child`parent
      ensures children == old(children) + [child] && child.parent == this
    {
      children := children + [child];
      child.parent := this;
    }

    method SetAttr(name: string, value: string)
      modifies this`attrs
      ensures attrs == old(attrs)[name := RemoveQuote(value)]
    {
      attrs := attrs[name := RemoveQuote(value)];
    }
  }

  ghost predicate SameFields(e: Element, t: Tree)
    reads e
  {
    e.name == t.name && e.rid == t.rid && e.attrs == t.attrs
  }

  /** e, a child of parent, shows tree t over the elements S, with every parent link right. */
  ghost predicate Shows(e: Element, t: Tree, parent: Element?, S: set<Element>)
    reads S
    decreases t
  {
    && e in S && e.parent == parent && SameFields(e, t)
    && |e.children| == |t.children|
    && forall j :: 0 <= j < |t.children| ==> Shows(e.children[j], t.children[j], e, S)
  }

  /** An element of the stack: its finished children, then the element above it if any. */
  ghost predicate ShowsOpen(e: Element, t: Tree, above: seq<Element>, done: set<Element>)
    reads e, done
  {
    var n := |t.children|;
    && SameFields(e, t)
    && n <= |e.children| && e.children[n..] == above
    && forall j :: 0 <= j < n ==> Shows(e.children[j], t.children[j], e, done)
  }

  /** The elements of the stack but the last are open and have the next one as last child. */
  ghost predicate Linked(open: seq<Tree>, stack: seq<Element>, done: set<Element>)
    requires |open| == |stack|
    reads Elements(stack), done
  {
    forall i, j :: 0 <= i < j < |stack| && j == i + 1 ==>
      ShowsOpen(stack[i], open[i], [stack[j]], done) && stack[j].parent == stack[i]
  }

  ghost predicate Represents(open: seq<Tree>, stack: seq<Element>, done: set<Element>)
    reads Elements(stack), done
  {
    && |stack| == |open| && Distinct(stack) && Elements(stack) !! done
    && Linked(open, stack, done)
    && (stack != [] ==>
         && stack[0].parent == null
         && ShowsOpen(stack[|stack| - 1], open[|stack| - 1], [], done))
  }

  lemma {:induction false} ShowsMore(e: Element, t: Tree, parent: Element?, S: set<Element>, S': set<Element>)
    requires Shows(e, t, parent, S) && S <= S'
    ensures Shows(e, t, parent, S')
    decreases t
  {
    forall j | 0 <= j < |t.children| ensures Shows(e.children[j], t.children[j], e, S') {
      ShowsMore(e.children[j], t.children[j], e, S, S');
    }
  }

  lemma ShowsOpenMore(e: Element, t: Tree, above: seq<Element>, S: set<Element>, S': set<Element>)
    requires ShowsOpen(e, t, above, S) && S <= S'
    ensures ShowsOpen(e, t, above, S')
  {
    forall j | 0 <= j < |t.children| ensures Shows(e.children[j], t.children[j], e, S') {
      ShowsMore(e.children[j], t.children[j], e, S, S');
    }
  }

  /** An element all of whose children are finished is finished. */
  lemma ShowsWhole(e: Element, t: Tree, done: set<Element>)
    requires ShowsOpen(e, t, [], done) && e in done
    ensures Shows(e, t, e.parent, done)
  {
    assert e.children == e.children[..|t.children|] + e.children[|t.children|..];
  }

  /** What the bottom of the stack shows when parsing stops. */
  lemma {:induction false} StackShows(open: seq<Tree>, stack: seq<Element>, done: set<Element>, i: nat)
    requires Represents(open, stack, done) && i < |stack|
    ensures Shows(stack[i], Assembled(open[i..]), stack[i].parent, done + Elements(stack[i..]))
    decreases |stack| - i
  {
    var e, S := stack[i], done + Elements(stack[i..]);
    assert e == stack[i..][0];
    if i + 1 == |stack| {
      ShowsOpenMore(e, open[i], [], done, S);
      ShowsWhole(e, open[i], S);
      assert open[i..] == [open[i]];
    } else {
      var next := stack[i + 1];
      StackShows(open, stack, done, i + 1);
      assert open[i..][1..] == open[i + 1..];
      assert stack[i..] == [e] + stack[i + 1..];
      var top := Assembled(open[i + 1..]);
      ShowsOpenMore(e, open[i], [next], done, S);
      ShowsMore(next, top, e, done + Elements(stack[i + 1..]), S);
      ShowsWithLast(e, open[i], next, top, S);
    }
  }

  lemma ShowsWithLast(e: Element, t: Tree, last: Element, lastTree: Tree, S: set<Element>)
    requires ShowsOpen(e, t, [last], S) && e in S && Shows(last, lastTree, e, S)
    ensures Shows(e, t.(children := t.children + [lastTree]), e.parent, S)
  {
    assert e.children[|t.children|] == e.children[|t.children|..][0];
    assert |e.children[|t.children|..]| == 1;
  }

  // ------------------------------------------------------------------------ parser

  class SrcParser {
    var tokens: seq<string>
    const defines: MacroExpander.Defines
    var elementStack: seq<Element>
    var tokenBuf: seq<string>
    var leftTokens: seq<string>

    constructor (tokens: seq<string>, defines: MacroExpander.Defines)
      ensures this.tokens == tokens && this.defines == defines
    {
      this.tokens, this.defines := tokens, defines;
      elementStack, tokenBuf, leftTokens := [], [], [];
    }

    static method AppendOpen(e: Element, obj: Element, ghost t: Tree, ghost done: set<Element>)
      requires ShowsOpen(e, t, [], done) && e !in done && obj !in done && obj != e
      modifies e`children, obj`parent
      ensures ShowsOpen(e, t, [obj], done) && obj.parent == e
    {
      ghost var n := |t.children|;
      assert e.children[..n] == e.children;
      e.AppendChild(obj);
    }

    static method SetOpenAttr(e: Element, name: string, value: string, ghost t: Tree, ghost done: set<Element>)
      requires ShowsOpen(e, t, [], done) && e !in done
      modifies e`attrs
      ensures ShowsOpen(e, SrcSyntax.SetAttr(t, name, value), [], done)
    {
      e.SetAttr(name, value);
    }

    ghost predicate Holds(s: State, done: set<Element>)
      reads this, elementStack, done
    {
      tokenBuf == s.tokenBuf && leftTokens == s.leftTokens && Represents(s.open, elementStack, done)
    }

    method Assignment(ghost s: State, ghost done: set<Element>)
      requires Holds(s, done)
      modifies this`tokenBuf, this`leftTokens
      ensures Holds(State(s.open, [], s.tokenBuf), done)
    {
      leftTokens := tokenBuf;
      tokenBuf := [];
    }

    /** The element an opening brace starts. */
    method NewElement() returns (r: Result<Element>)
      ensures Status(r) == Status(Opened(tokenBuf, leftTokens))
      ensures r.Ok? ==> var t := Opened(tokenBuf, leftTokens).value;
        fresh(r.value) && SameFields(r.value, t) && r.value.children == [] && t.children == []
    {
      var obj;
      if tokenBuf == [] && leftTokens != [] {
        obj := new Element(leftTokens[0], None);
      } else if tokenBuf != [] && leftTokens == [] {
        obj := new Element(tokenBuf[0], if |tokenBuf| >= 2 then Some(tokenBuf[1]) else None);
      } else {
        if leftTokens == [] { return IndexError; }
        obj := new Element(leftTokens[0], None);
        obj.SetAttr("type", tokenBuf[0]);
      }
      obj.name := TransNameParts(obj.name);
      r := Ok(obj);
    }

    method OpenBrace(ghost s: State, ghost done: set<Element>) returns (r: Result<()>)
      requires Holds(s, done)
      modifies this`elementStack, this`tokenBuf, this`leftTokens, Elements(elementStack)
      ensures r == Status(SrcSyntax.OpenBrace(s))
      ensures r.Ok? ==> Holds(SrcSyntax.OpenBrace(s).value, done)
      ensures fresh(Elements(elementStack) - old(Elements(elementStack)))
    {
      var made := NewElement();
      if made.IndexError? { return IndexError; }
      var obj := made.value;
      if obj.name == "string-list" { return Special; }
      if elementStack == [] { return IndexError; }
      Push(obj, s.open, Opened(s.tokenBuf, s.leftTokens).value, done);
      tokenBuf, leftTokens := [], [];
      r := Ok(());
    }

    method Push(obj: Element, ghost open: seq<Tree>, ghost t: Tree, ghost done: set<Element>)
      requires Represents(open, elementStack, done) && elementStack != []
      requires obj !in elementStack && obj !in done && obj.children == [] && SameFields(obj, t) && t.children == []
      modifies this`elementStack, obj`parent, Elements(elementStack)
      ensures elementStack == old(elementStack) + [obj]
      ensures Represents(open + [t], elementStack, done)
    {
      ghost var stack, n := elementStack, |elementStack| - 1;
      var top := elementStack[|elementStack| - 1];
      assert top in Elements(elementStack);
      AppendOpen(top, obj, open[n], done);
      elementStack := elementStack + [obj];
      assert Linked(open, stack, done) by {
        forall i, j | 0 <= i < j < |stack| && j == i + 1
          ensures ShowsOpen(stack[i], open[i], [stack[j]], done) && stack[j].parent == stack[i]
        {
          assert old(ShowsOpen(stack[i], open[i], [stack[j]], done));
        }
      }
      PushRepresents(open, stack, obj, t, done);
    }

    method SetTop(name: string, value: string, ghost open: seq<Tree>, ghost done: set<Element>)
      requires Represents(open, elementStack, done) && elementStack != []
      modifies Elements(elementStack)
      ensures var n := |elementStack| - 1;
        Represents(open[n := SrcSyntax.SetAttr(open[n], name, value)], elementStack, done)
    {
      ghost var stack, n := elementStack, |elementStack| - 1;
      var top := elementStack[|elementStack| - 1];
      assert top in Elements(elementStack);
      SetOpenAttr(top, name, value, open[n], done);
      ghost var next := open[n := SrcSyntax.SetAttr(open[n], name, value)];
      assert Linked(next, stack, done) by {
        forall i, j | 0 <= i < j < |stack| && j == i + 1
          ensures ShowsOpen(stack[i], next[i], [stack[j]], done) && stack[j].parent == stack[i]
        {
          assert old(ShowsOpen(stack[i], open[i], [stack[j]], done));
        }
      }
    }

    method CloseBrace(ghost s: State, ghost done: set<Element>) returns (r: Result<()>, ghost done': set<Element>)
      requires Holds(s, done)
      modifies this`elementStack
      ensures r == Status(SrcSyntax.CloseBrace(s))
      ensures r.Ok? ==> Holds(SrcSyntax.CloseBrace(s).value, done')
      ensures done' + Elements(elementStack) <= done + old(Elements(elementStack))
    {
      done' := done;
      if tokenBuf != [] { return AssertWrong, done; }
      if elementStack == [] { return IndexError, done; }
      done' := Pop(s.open, done);
      r := Ok(());
    }

    method Pop(ghost open: seq<Tree>, ghost done: set<Element>) returns (ghost done': set<Element>)
      requires Represents(open, elementStack, done) && elementStack != []
      modifies this`elementStack
      ensures Represents(Close(open), elementStack, done')
      ensures done' + Elements(elementStack) <= done + old(Elements(elementStack))
    {
      ghost var top := elementStack[|elementStack| - 1];
      PopShows(open, elementStack, done);
      ElementsPop(elementStack);
      elementStack := elementStack[..|elementStack| - 1];
      done' := done + {top};
    }

    method StatementName() returns (name: string)
      ensures name == AttributeName(leftTokens)
    {
      name := "none";
      if |leftTokens| > 0 {
        name := TransNameParts(leftTokens[0]);
      }
    }

    /** A statement within a scope becomes an attribute of the current element. */
    method ImportStatement(ghost s: State, ghost done: set<Element>) returns (r: Result<()>)
      requires Holds(s, done) && |elementStack| > 1 && tokenBuf != []
      modifies Elements(elementStack)
      ensures r == Status(SrcSyntax.SemiColon(s))
      ensures r.Ok? ==> Represents(SrcSyntax.SemiColon(s).value.open, elementStack, done)
    {
      var elem := elementStack[|elementStack| - 1];
      var name := StatementName();
      if IsGeometry(name) { return Special; }
      if |tokenBuf| == 1 {
        assert ShowsOpen(elem, s.open[|s.open| - 1], [], done);
        name := RenameAttribute(name, elem.name);
        var value := TransValue(tokenBuf[0]);
        ghost var n := |s.open| - 1;
        assert SrcSyntax.SemiColon(s).value.open == s.open[n := SrcSyntax.SetAttr(s.open[n], name, value)];
        SetTop(name, value, s.open, done);
      }
      r := Ok(());
    }

    method SemiColon(ghost s: State, ghost done: set<Element>) returns (r: Result<()>)
      requires Holds(s, done)
      modifies this`tokenBuf, this`leftTokens, Elements(elementStack)
      ensures r == Status(SrcSyntax.SemiColon(s))
      ensures r.Ok? ==> Holds(SrcSyntax.SemiColon(s).value, done)
    {
      var scope := |elementStack| - 1;
      if |tokenBuf| > 0 && scope != 0 {
        if elementStack == [] { return IndexError; }
        r := ImportStatement(s, done);
        if !r.Ok? { return; }
      }
      tokenBuf, leftTokens := [], [];
      r := Ok(());
    }

    /** The body of the main loop. */
    method Take(tk: string, ghost s: State, ghost done: set<Element>) returns (r: Result<()>, ghost done': set<Element>)
      requires Holds(s, done)
      modifies this`elementStack, this`tokenBuf, this`leftTokens, Elements(elementStack)
      ensures r == Status(Step(s, tk))
      ensures r.Ok? ==> Holds(Step(s, tk).value, done')
      ensures fresh(Elements(elementStack) + done' - (old(Elements(elementStack)) + done))
    {
      r, done' := Ok(()), done;
      if tk == "{" {
        r := OpenBrace(s, done);
      } else if tk == "}" {
        r, done' := CloseBrace(s, done);
      } else if tk == ";" {
        r := SemiColon(s, done);
      } else if tk == "=" {
        Assignment(s, done);
      } else {
        tokenBuf := tokenBuf + [tk];
      }
    }

    method Init()
      requires MacroExpander.Acyclic(defines, tokens)
      modifies this
      ensures tokens == MacroExpander.FullExpansion(defines, old(tokens))
      ensures Holds(START, {}) && fresh(Elements(elementStack))
    {
      var expander := new MacroExpander.Expander(tokens, defines);
      expander.Expand();
      tokens := expander.tokens;
      var root := new Element("", None);
      elementStack, tokenBuf, leftTokens := [root], [], [];
    }

    method TakeAll() returns (r: Result<()>, ghost s: State, ghost done: set<Element>)
      requires Holds(START, {})
      modifies this`elementStack, this`tokenBuf, this`leftTokens, Elements(elementStack)
      ensures r == Status(Run(START, tokens))
      ensures r.Ok? ==> Run(START, tokens) == Ok(s) && Holds(s, done)
      ensures fresh(Elements(elementStack) + done - old(Elements(elementStack)))
    {
      r, s, done := Ok(()), START, {};
      var i := 0;
      assert tokens[0..] == tokens;
      while i < |tokens|
        invariant 0 <= i <= |tokens| && r == Ok(())
        invariant Holds(s, done) && fresh(Elements(elementStack) + done - old(Elements(elementStack)))
        invariant Run(START, tokens) == Run(s, tokens[i..])
      {
        RunStep(s, tokens, i);
        ghost var next := Step(s, tokens[i]);
        r, done := Take(tokens[i], s, done);
        if !r.Ok? { return; }
        s := next.value;
        i := i + 1;
      }
    }

    /** Macro expansion, then the main loop: the root element shows the parsed tree. */
    method Parse() returns (r: Result<Element>, ghost S: set<Element>)
      requires MacroExpander.Acyclic(defines, tokens)
      modifies this
      ensures tokens == MacroExpander.FullExpansion(defines, old(tokens))
      ensures Status(r) == Status(Parsed(tokens))
      ensures r.Ok? ==> Shows(r.value, Parsed(tokens).value, null, S)
      ensures fresh(S)
    {
      S := {};
      Init();
      var status;
      ghost var s, done;
      status, s, done := TakeAll();
      if !status.Ok? { return Failure(status), {}; }
      if elementStack == [] { return IndexError, {}; }
      StackShows(s.open, elementStack, done, 0);
      assert s.open[0..] == s.open && elementStack[0..] == elementStack;
      r, S := Ok(elementStack[0]), done + Elements(elementStack);
    }
  }

  lemma PushRepresents(open: seq<Tree>, stack: seq<Element>, obj: Element, t: Tree, done: set<Element>)
    requires |open| == |stack| > 0 && Distinct(stack) && Elements(stack) !! done && Linked(open, stack, done)
    requires stack[0].parent == null && obj !in stack && obj !in done
    requires var n := |stack| - 1; ShowsOpen(stack[n], open[n], [obj], done) && obj.parent == stack[n]
    requires ShowsOpen(obj, t, [], done)
    ensures Represents(open + [t], stack + [obj], done)
  {
    var open', stack' := open + [t], stack + [obj];
    forall i, j | 0 <= i < j < |stack'| && j == i + 1
      ensures ShowsOpen(stack'[i], open'[i], [stack'[j]], done) && stack'[j].parent == stack'[i]
    {
      if j < |stack| {
        assert stack'[i] == stack[i] && stack'[j] == stack[j];
      }
    }
  }

  lemma ElementsPop(stack: seq<Element>)
    requires stack != []
    ensures Elements(stack) == Elements(stack[..|stack| - 1]) + {stack[|stack| - 1]}
  {
    var n := |stack| - 1;
    assert stack == stack[..n] + [stack[n]];
  }

  /** Popping the stack finishes the top element. */
  lemma PopShows(open: seq<Tree>, stack: seq<Element>, done: set<Element>)
    requires Represents(open, stack, done) && stack != []
    ensures var n := |stack| - 1; Represents(Close(open), stack[..n], done + {stack[n]})
  {
    var n := |stack| - 1;
    var top, done', rest, open' := stack[n], done + {stack[n]}, stack[..n], Close(open);
    if n > 0 {
      var e := stack[n - 1];
      assert ShowsOpen(e, open[n - 1], [top], done) && top.parent == e;
      ShowsOpenMore(top, open[n], [], done, done');
      ShowsWhole(top, open[n], done');
      ShowsOpenMore(e, open[n - 1], [top], done, done');
      ShowsOpenWithLast(e, open[n - 1], top, open[n], done');
      forall i, j | 0 <= i < j < n && j == i + 1
        ensures ShowsOpen(rest[i], open'[i], [rest[j]], done') && rest[j].parent == rest[i]
      {
        assert ShowsOpen(stack[i], open[i], [stack[j]], done);
        ShowsOpenMore(stack[i], open[i], [stack[j]], done, done');
      }
    }
  }

  lemma ShowsOpenWithLast(e: Element, t: Tree, last: Element, lastTree: Tree, done: set<Element>)
    requires ShowsOpen(e, t, [last], done) && Shows(last, lastTree, e, done)
    ensures ShowsOpen(e, t.(children := t.children + [lastTree]), [], done)
  {
    assert e.children[|t.children|] == e.children[|t.children|..][0];
    assert |e.children[|t.children|..]| == 1;
  }

  /** An attribute of a printed block, on the element that the parser makes of the block. */
  lemma ShownAttribute(root: Element, S: set<Element>, head: Head, before: seq<Item>, left: seq<string>, v: string)
    requires Plain([Block(head, before + [Attr(left, [v])])])
    requires Parsed(Print([Block(head, before + [Attr(left, [v])])])).Ok?
    requires Shows(root, Parsed(Print([Block(head, before + [Attr(left, [v])])])).value, null, S)
    ensures |root.children| == 1
    ensures var e := root.children[0]; var name := RenameAttribute(AttributeName(left), e.name);
      name in e.attrs && IsValueOf(e.attrs[name], v)
  {
    PrintedAttribute(head, before, left, v);
  }
}
