/**
 Conditional compilation in the lexer (scratch/layout-src2xml/source/srclexer.py): a flat
 stack with one of three marks for each open #if decides which text is kept. The outcomes
 of the conditions are given.
 */
module ConditionalText {
  import opened Wrappers

  datatype Visibility = Visible | InvisiblePre | InvisiblePost

  /** A line of the source: tokens, or a directive with the outcome of its condition. */
  datatype Line =
    | Text(tokens: seq<string>)
    | If(outcome: bool)    // #if, #ifdef, #ifndef
    | Elif(outcome: bool)
    | Else
    | Endif

  // ------------------------------------------------------------- what the lexer does

  ghost predicate AllVisible(stack: seq<Visibility>) {
    forall i :: 0 <= i < |stack| ==> stack[i] == Visible
  }

  /** The mark of the innermost group after a directive inside it. */
  function Turn(mark: Visibility, line: Line): Visibility {
    match line
    case Elif(outcome) =>
      if mark == Visible then InvisiblePost
      else if mark == InvisiblePre && outcome then Visible
      else mark
    case Else =>
      if mark == Visible then InvisiblePost else if mark == InvisiblePre then Visible else mark
    case _ => mark
  }

  /** The stack after a line; None where AssertWrong is raised. */
  function Next(stack: seq<Visibility>, line: Line): Option<seq<Visibility>> {
    match line
    case Text(_) => Some(stack)
    case If(outcome) => Some(stack + [if outcome then Visible else InvisiblePre])
    case _ =>
      if stack == [] then None
      else
        var n := |stack| - 1;
        if line == Endif then Some(stack[..n]) else Some(stack[..n] + [Turn(stack[n], line)])
  }

  ghost function Kept(stack: seq<Visibility>, line: Line): seq<string> {
    if line.Text? && AllVisible(stack) then line.tokens else []
  }

  datatype Scan = Scan(stack: seq<Visibility>, tokens: seq<string>)

  /** One line: the stack moves, and the tokens of visible text are added. */
  ghost function Step(scan: Scan, line: Line): Option<Scan> {
    match Next(scan.stack, line)
    case None => None
    case Some(stack) => Some(Scan(stack, scan.tokens + Kept(scan.stack, line)))
  }

  ghost function Run(scan: Scan, lines: seq<Line>): Option<Scan>
    decreases |lines|
  {
    if lines == [] then Some(scan)
    else
      match Step(scan, lines[0])
      case None => None
      case Some(next) => Run(next, lines[1..])
  }

  const START := Scan([], [])

  class SrcLexer {
    var visibilityStack: seq<Visibility>
    var tokens: seq<string>

    constructor ()
      ensures visibilityStack == [] && tokens == []
    {
      visibilityStack, tokens := [], [];
    }

    method IsCodeVisible() returns (visible: bool)
      ensures visible <==> AllVisible(visibilityStack)
    {
      if |visibilityStack| == 0 { return true; }
      for i := 0 to |visibilityStack|
        invariant forall j :: 0 <= j < i ==> visibilityStack[j] == Visible
      {
        if visibilityStack[i] != Visible { return false; }
      }
      return true;
    }

    /** A directive; false where AssertWrong is raised. */
    method Pound(line: Line) returns (ok: bool)
      requires !line.Text?
      modifies this`visibilityStack
      ensures ok == Next(old(visibilityStack), line).Some?
      ensures ok ==> visibilityStack == Next(old(visibilityStack), line).value
    {
      ok := true;
      var n := |visibilityStack| - 1;
      match line {
        case If(outcome) =>
          if outcome {
            visibilityStack := visibilityStack + [Visible];
          } else {
            visibilityStack := visibilityStack + [InvisiblePre];
          }
        case Elif(outcome) =>
          if |visibilityStack| == 0 { return false; }
          if visibilityStack[n] == Visible {
            visibilityStack := visibilityStack[n := InvisiblePost];
          } else if visibilityStack[n] == InvisiblePre {
            if outcome { visibilityStack := visibilityStack[n := Visible]; }
          }
        case Else =>
          if |visibilityStack| == 0 { return false; }
          if visibilityStack[n] == Visible {
            visibilityStack := visibilityStack[n := InvisiblePost];
          }
          if visibilityStack[n] == InvisiblePre {
            visibilityStack := visibilityStack[n := Visible];
          }
        case Endif =>
          if |visibilityStack| == 0 { return false; }
          visibilityStack := visibilityStack[..n];
      }
    }

    method Tokenize(lines: seq<Line>) returns (ok: bool)
      modifies this
      ensures ok == Run(START, lines).Some?
      ensures ok ==> Run(START, lines) == Some(Scan(visibilityStack, tokens))
    {
      visibilityStack, tokens := [], [];
      for i := 0 to |lines|
        invariant Run(START, lines) == Run(Scan(visibilityStack, tokens), lines[i..])
      {
        assert lines[i..][0] == lines[i] && lines[i..][1..] == lines[i + 1..];
        ghost var before := tokens;
        if lines[i].Text? {
          var visible := IsCodeVisible();
          if visible {
            tokens := tokens + lines[i].tokens;
          } else {
            assert tokens == before + [];
          }
        } else {
          ok := Pound(lines[i]);
          if !ok { return; }
          assert tokens == before + [];
        }
      }
      ok := true;
    }
  }

  // ----------------------------------------------------------- the structured meaning

  datatype Block =
    | Plain(tokens: seq<string>)
    | Group(outcome: bool, body: seq<Block>, tail: Tail)

  datatype Tail =
    | End
    | ElifTail(outcome: bool, body: seq<Block>, tail: Tail)
    | ElseTail(body: seq<Block>)

  function Lines(blocks: seq<Block>): seq<Line>
    decreases blocks
  {
    if blocks == [] then [] else BlockLines(blocks[0]) + Lines(blocks[1..])
  }

  function BlockLines(b: Block): seq<Line>
    decreases b
  {
    match b
    case Plain(tokens) => [Text(tokens)]
    case Group(outcome, body, tail) => [If(outcome)] + Lines(body) + TailLines(tail)
  }

  function TailLines(t: Tail): seq<Line>
    decreases t
  {
    match t
    case End => [Endif]
    case ElifTail(outcome, body, tail) => [Elif(outcome)] + Lines(body) + TailLines(tail)
    case ElseTail(body) => [Else] + Lines(body) + [Endif]
  }

  /** The text of the first true branch of each group, at every level. */
  function Select(blocks: seq<Block>): seq<string>
    decreases blocks
  {
    if blocks == [] then [] else SelectBlock(blocks[0]) + Select(blocks[1..])
  }

  function SelectBlock(b: Block): seq<string>
    decreases b
  {
    match b
    case Plain(tokens) => tokens
    case Group(outcome, body, tail) => if outcome then Select(body) else SelectTail(tail)
  }

  function SelectTail(t: Tail): seq<string>
    decreases t
  {
    match t
    case End => []
    case ElifTail(outcome, body, tail) => if outcome then Select(body) else SelectTail(tail)
    case ElseTail(body) => Select(body)
  }

  // -------------------------------------------------------------------- the theorem

  lemma {:induction false} RunAppend(scan: Scan, a: seq<Line>, b: seq<Line>)
    ensures Run(scan, a + b) == match Run(scan, a) { case None => None case Some(s) => Run(s, b) }
    decreases |a|
  {
    if a == [] {
      assert a + b == b;
    } else {
      assert (a + b)[1..] == a[1..] + b;
      if Step(scan, a[0]).Some? { RunAppend(Step(scan, a[0]).value, a[1..], b); }
    }
  }

  lemma RunFirst(scan: Scan, line: Line, lines: seq<Line>)
    ensures Run(scan, [line] + lines) == match Step(scan, line) { case None => None case Some(s) => Run(s, lines) }
  {
    assert ([line] + lines)[1..] == lines;
  }

  /** What is kept of text whose structure selects chosen. */
  ghost function Shown(stack: seq<Visibility>, chosen: seq<string>): seq<string> {
    if AllVisible(stack) then chosen else []
  }

  /** Whole blocks leave the stack as it was and keep what the structure selects. */
  lemma {:induction false} RunBlocks(scan: Scan, blocks: seq<Block>)
    ensures Run(scan, Lines(blocks)) == Some(Scan(scan.stack, scan.tokens + Shown(scan.stack, Select(blocks))))
    decreases blocks, 1
  {
    if blocks == [] {
      assert scan.tokens + [] == scan.tokens;
    } else {
      RunBlock(scan, blocks[0]);
      var next := Run(scan, BlockLines(blocks[0])).value;
      RunBlocks(next, blocks[1..]);
      RunAppend(scan, BlockLines(blocks[0]), Lines(blocks[1..]));
      var first, rest := Shown(scan.stack, SelectBlock(blocks[0])), Shown(scan.stack, Select(blocks[1..]));
      assert scan.tokens + first + rest == scan.tokens + (first + rest);
      assert first + rest == Shown(scan.stack, Select(blocks));
    }
  }

  lemma {:induction false} RunBlock(scan: Scan, b: Block)
    ensures Run(scan, BlockLines(b)) == Some(Scan(scan.stack, scan.tokens + Shown(scan.stack, SelectBlock(b))))
    decreases b, 0
  {
    match b
    case Plain(tokens) =>
      assert BlockLines(b) == [Text(tokens)] + [];
      RunFirst(scan, Text(tokens), []);
    case Group(outcome, body, tail) =>
      var mark := if outcome then Visible else InvisiblePre;
      assert BlockLines(b) == [If(outcome)] + (Lines(body) + TailLines(tail));
      RunFirst(scan, If(outcome), Lines(body) + TailLines(tail));
      assert scan.tokens + [] == scan.tokens;
      RunBlocks(Inside(scan, mark), body);
      RunTail(AfterBody(scan, mark, body), mark, tail);
      BodyThenTail(scan, mark, body, tail);
  }

  /** The scan after the branch of a group that has the given mark. */
  ghost function AfterBody(scan: Scan, mark: Visibility, body: seq<Block>): Scan {
    Scan(scan.stack, scan.tokens + Shown(scan.stack + [mark], Select(body)))
  }

  ghost function Inside(scan: Scan, mark: Visibility): Scan { Scan(scan.stack + [mark], scan.tokens) }

  /** What a tail keeps: nothing more once a branch was taken. */
  ghost function AfterTail(scan: Scan, mark: Visibility, tail: Tail): Scan {
    Scan(scan.stack, scan.tokens + if mark == InvisiblePre then Shown(scan.stack, SelectTail(tail)) else [])
  }

  /** A branch of a group under its mark, and the rest of the group. */
  lemma BodyThenTail(scan: Scan, mark: Visibility, body: seq<Block>, tail: Tail)
    requires Run(Inside(scan, mark), Lines(body)) == Some(Inside(AfterBody(scan, mark, body), mark))
    requires Run(Inside(AfterBody(scan, mark, body), mark), TailLines(tail))
          == Some(AfterTail(AfterBody(scan, mark, body), mark, tail))
    ensures Run(Inside(scan, mark), Lines(body) + TailLines(tail))
         == Some(Scan(scan.stack, scan.tokens + Shown(scan.stack,
              match mark case Visible => Select(body) case InvisiblePre => SelectTail(tail) case InvisiblePost => [])))
  {
    VisibleInside(scan.stack, mark);
    var chosen := Shown(scan.stack + [mark], Select(body));
    RunAppend(Inside(scan, mark), Lines(body), TailLines(tail));
    if mark == Visible {
      assert scan.tokens + chosen + [] == scan.tokens + chosen;
    } else {
      assert scan.tokens + chosen == scan.tokens;
    }
  }

  lemma VisibleInside(stack: seq<Visibility>, mark: Visibility)
    ensures AllVisible(stack + [mark]) <==> AllVisible(stack) && mark == Visible
  {
    if AllVisible(stack + [mark]) {
      assert (stack + [mark])[|stack|] == mark;
      forall i | 0 <= i < |stack| ensures stack[i] == Visible { assert (stack + [mark])[i] == stack[i]; }
    }
  }

  lemma {:induction false} RunTail(scan: Scan, mark: Visibility, tail: Tail)
    ensures Run(Inside(scan, mark), TailLines(tail)) == Some(AfterTail(scan, mark, tail))
    decreases tail, 1
  {
    var inner := Inside(scan, mark);
    assert inner.stack[..|scan.stack|] == scan.stack && scan.tokens + [] == scan.tokens;
    match tail
    case End =>
      RunEnd(scan, mark);
    case ElifTail(outcome, body, more) =>
      var turned := Turn(mark, Elif(outcome));
      RunBlocks(Inside(scan, turned), body);
      RunTail(AfterBody(scan, turned, body), turned, more);
      RunElif(scan, mark, outcome, body, more);
    case ElseTail(body) =>
      var turned := Turn(mark, Else);
      assert TailLines(tail) == [Else] + (Lines(body) + TailLines(End));
      RunFirst(inner, Else, Lines(body) + TailLines(End));
      RunBlocks(Inside(scan, turned), body);
      RunEnd(AfterBody(scan, turned, body), turned);
      BodyThenTail(scan, turned, body, End);
  }

  lemma RunElif(scan: Scan, mark: Visibility, outcome: bool, body: seq<Block>, more: Tail)
    requires var turned := Turn(mark, Elif(outcome)); var next := AfterBody(scan, turned, body);
      && Run(Inside(scan, turned), Lines(body)) == Some(Inside(next, turned))
      && Run(Inside(next, turned), TailLines(more)) == Some(AfterTail(next, turned, more))
    ensures Run(Inside(scan, mark), TailLines(ElifTail(outcome, body, more)))
         == Some(AfterTail(scan, mark, ElifTail(outcome, body, more)))
  {
    var turned, rest := Turn(mark, Elif(outcome)), Lines(body) + TailLines(more);
    assert Inside(scan, mark).stack[..|scan.stack|] == scan.stack && scan.tokens + [] == scan.tokens;
    assert TailLines(ElifTail(outcome, body, more)) == [Elif(outcome)] + rest;
    RunFirst(Inside(scan, mark), Elif(outcome), rest);
    BodyThenTail(scan, turned, body, more);
  }

  lemma RunEnd(scan: Scan, mark: Visibility)
    ensures Run(Inside(scan, mark), TailLines(End)) == Some(AfterTail(scan, mark, End))
  {
    assert (scan.stack + [mark])[..|scan.stack|] == scan.stack && scan.tokens + [] == scan.tokens;
    assert TailLines(End) == [Endif] + [];
    RunFirst(Inside(scan, mark), Endif, []);
  }

  /** For every properly nested source the tokens are those of the first true branches, and
      the stack ends as it began. */
  lemma TokenizesSelection(blocks: seq<Block>)
    ensures Run(START, Lines(blocks)) == Some(Scan([], Select(blocks)))
  {
    RunBlocks(START, blocks);
    assert [] + Select(blocks) == Select(blocks);
  }

  // ------------------------------------------------------------------ failing sources

  /** Groups still open after the lines. */
  function Depth(lines: seq<Line>): int {
    if lines == [] then 0
    else Depth(lines[..|lines| - 1]) + match lines[|lines| - 1] { case If(_) => 1 case Endif => -1 case _ => 0 }
  }

  predicate NeedsGroup(line: Line) { line.Elif? || line.Else? || line.Endif? }

  /** Where a directive needs an open group, there is one. */
  ghost predicate InGroups(lines: seq<Line>) {
    forall i :: 0 <= i < |lines| && NeedsGroup(lines[i]) ==> Depth(lines[..i]) > 0
  }

  lemma InGroupsLast(front: seq<Line>, last: Line)
    ensures InGroups(front + [last]) <==> InGroups(front) && (NeedsGroup(last) ==> Depth(front) > 0)
  {
    var lines, n := front + [last], |front|;
    assert lines[..n] == front && lines[n] == last;
    assert forall i :: 0 <= i < n ==> lines[i] == front[i] && lines[..i] == front[..i];
  }

  /** The lexer raises exactly when #elif, #else or #endif comes with no group open. */
  lemma {:induction false} RunDepth(lines: seq<Line>)
    ensures Run(START, lines).Some? ==> |Run(START, lines).value.stack| == Depth(lines)
    ensures Run(START, lines).Some? <==> InGroups(lines)
    decreases |lines|
  {
    if lines != [] {
      var front, last := lines[..|lines| - 1], lines[|lines| - 1];
      RunDepth(front);
      RunDepthLast(front, last);
      assert lines == front + [last];
    }
  }

  /** One line more. */
  lemma RunDepthLast(front: seq<Line>, last: Line)
    requires Run(START, front).Some? ==> |Run(START, front).value.stack| == Depth(front)
    requires Run(START, front).Some? <==> InGroups(front)
    ensures var all := front + [last];
      && (Run(START, all).Some? ==> |Run(START, all).value.stack| == Depth(all))
      && (Run(START, all).Some? <==> InGroups(all))
  {
    RunLast(front, last);
    InGroupsLast(front, last);
    assert (front + [last])[..|front|] == front;
  }

  lemma RunLast(front: seq<Line>, last: Line)
    ensures Run(START, front).Some? ==> Run(START, front + [last]) == Step(Run(START, front).value, last)
    ensures Run(START, front) == None ==> Run(START, front + [last]) == None
  {
    RunAppend(START, front, [last]);
    if Run(START, front).Some? {
      assert [last] == [last] + [];
      RunFirst(Run(START, front).value, last, []);
    }
  }
}
