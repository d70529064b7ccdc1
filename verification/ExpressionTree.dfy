/**
 The expression parser (scratch/layout-src2xml/source/expression.py): one pass over the
 tokens that moves ptr through a tree of nodes with parent links. The place of ptr
 in the tree is described by a cursor, a pure value; the pass over the heap is
 proved to do on nodes what Step does on cursors.
 */
module ExpressionTree {
  import opened Wrappers

  datatype Sym = Plus | Minus | Times | Over

  datatype Token = Number(value: int) | Operator(sym: Sym)

  /** What a node shows: an unset operand, a number, or a node's two operands. */
  datatype Tree = Empty | Leaf(value: int) | Bin(left: Tree, op: Option<Sym>, right: Tree)

  // ------------------------------------------------------------------- cursors

  /** A node on the way from the root to ptr; its right operand is the next one. */
  datatype Frame = Frame(left: Tree, op: Option<Sym>)

  datatype Cursor = Cursor(above: seq<Frame>, left: Tree, op: Option<Sym>, right: Tree)

  /** The tree of the i-th node on that way. */
  function PlugFrom(above: seq<Frame>, i: nat, inner: Tree): Tree
    requires i <= |above|
    decreases |above| - i
  {
    if i == |above| then inner else Bin(above[i].left, above[i].op, PlugFrom(above, i + 1, inner))
  }

  function Plug(above: seq<Frame>, inner: Tree): Tree { PlugFrom(above, 0, inner) }

  function Here(c: Cursor): Tree { Bin(c.left, c.op, c.right) }

  function Whole(c: Cursor): Tree { Plug(c.above, Here(c)) }

  const START := Cursor([], Empty, None, Empty)

  /** One token; None where the parser raises AssertWrong. */
  function Step(c: Cursor, token: Token): Option<Cursor> {
    match token
    case Number(n) =>
      if c.left == Empty then Some(c.(left := Leaf(n)))
      else if c.right == Empty then Some(c.(right := Leaf(n)))
      else None
    case Operator(sym) =>
      if c.left == Empty then None
      else if c.right == Empty then Some(c.(op := Some(sym)))
      else if sym.Plus? || sym.Minus? then Some(Cursor([], Whole(c), Some(sym), Empty))
      else Some(Cursor(c.above + [Frame(c.left, c.op)], c.right, Some(sym), Empty))
  }

  function Run(tokens: seq<Token>): Option<Cursor> {
    if tokens == [] then Some(START)
    else
      match Run(tokens[..|tokens| - 1])
      case None => None
      case Some(c) => Step(c, tokens[|tokens| - 1])
  }

  // ------------------------------------------------------------------- the heap

  datatype Operand = Nothing | Num(value: int) | Sub(node: Node)

  class Node {
    var left: Operand
    var right: Operand
    var parent: Node?
    var op: Option<Sym>

    constructor ()
      ensures left == Nothing && right == Nothing && parent == null && op == None
    {
      left, right, parent, op := Nothing, Nothing, null, None;
    }
  }

  /** The operand of holder shows tree t, over the nodes S, with every parent link right. */
  ghost predicate Shows(o: Operand, t: Tree, holder: Node?, S: set<Node>)
    reads S
    decreases t
  {
    match t
    case Empty => o == Nothing
    case Leaf(v) => o == Num(v)
    case Bin(l, op, r) =>
      && o.Sub? && o.node in S && o.node.parent == holder && o.node.op == op
      && Shows(o.node.left, l, o.node, S) && Shows(o.node.right, r, o.node, S)
  }

  /** spine runs from the root to ptr, done holds the nodes of finished subtrees. */
  ghost predicate Represents(c: Cursor, spine: seq<Node>, done: set<Node>)
    reads Elements(spine), done
  {
    && |spine| == |c.above| + 1 && Distinct(spine) && Elements(spine) !! done
    && spine[0].parent == null
    && (forall i :: 0 <= i < |c.above| ==>
          && spine[i].right == Sub(spine[i + 1]) && spine[i + 1].parent == spine[i]
          && spine[i].op == c.above[i].op
          && Shows(spine[i].left, c.above[i].left, spine[i], done))
    && var ptr := spine[|c.above|];
      && ptr.op == c.op && Shows(ptr.left, c.left, ptr, done)
      && !c.right.Bin? && Shows(ptr.right, c.right, ptr, done)
  }

  lemma {:induction false} ShowsMore(o: Operand, t: Tree, holder: Node?, S: set<Node>, S': set<Node>)
    requires Shows(o, t, holder, S) && S <= S'
    ensures Shows(o, t, holder, S')
    decreases t
  {
    if t.Bin? {
      ShowsMore(o.node.left, t.left, o.node, S, S');
      ShowsMore(o.node.right, t.right, o.node, S, S');
    }
  }

  /** The nodes behind place i. */
  function Behind(spine: seq<Node>, i: nat): set<Node> { set j | i < j < |spine| :: spine[j] }

  /** The part of the tree below spine[i] is finished as soon as ptr leaves it. */
  lemma {:induction false} SpineShows(c: Cursor, spine: seq<Node>, done: set<Node>, i: nat)
    requires Represents(c, spine, done) && i <= |c.above|
    ensures var t := PlugFrom(c.above, i, Here(c)); var S := done + Behind(spine, i);
      && t.Bin? && t.op == spine[i].op && spine[i] !in S
      && Shows(spine[i].left, t.left, spine[i], S) && Shows(spine[i].right, t.right, spine[i], S)
    decreases |c.above| - i
  {
    var S := done + Behind(spine, i);
    if i == |c.above| {
      ShowsMore(spine[i].left, c.left, spine[i], done, S);
      ShowsMore(spine[i].right, c.right, spine[i], done, S);
    } else {
      SpineShows(c, spine, done, i + 1);
      ShowsMore(spine[i].left, c.above[i].left, spine[i], done, S);
      var t := PlugFrom(c.above, i + 1, Here(c));
      var next, S' := spine[i + 1], done + Behind(spine, i + 1);
      assert next in Behind(spine, i) && S' <= S;
      ShowsMore(next.left, t.left, next, S', S);
      ShowsMore(next.right, t.right, next, S', S);
    }
  }

  class ExpParser {
    const tokens: seq<Token>
    var ptr: Node

    constructor (tokens: seq<Token>)
      ensures this.tokens == tokens
    {
      this.tokens := tokens;
      ptr := new Node();
    }

    method JumpToRoot(ghost c: Cursor, ghost spine: seq<Node>, ghost done: set<Node>)
      requires Represents(c, spine, done) && ptr == spine[|c.above|]
      modifies this`ptr
      ensures ptr == spine[0]
    {
      ghost var i: int := |c.above|;
      while ptr.parent != null
        invariant 0 <= i <= |c.above| && ptr == spine[i]
        invariant i > 0 ==> ptr.parent == spine[i - 1]
        decreases i
      {
        i := i - 1;
        ptr := ptr.parent;
        assert i > 0 ==> spine[i - 1 + 1].parent == spine[i - 1];
      }
    }

    /** '+' or '-' behind a complete operand: the tree becomes the left operand of a new root. */
    method NewRoot(sym: Sym, ghost c: Cursor, ghost spine: seq<Node>, ghost done: set<Node>)
      returns (ghost spine': seq<Node>, ghost done': set<Node>)
      requires Represents(c, spine, done) && ptr == spine[|c.above|]
      modifies this`ptr, Elements(spine)
      ensures Represents(Cursor([], Whole(c), Some(sym), Empty), spine', done') && spine' == [ptr]
      ensures fresh(ptr) && done' == done + Elements(spine)
    {
      JumpToRoot(c, spine, done);
      SpineShows(c, spine, done, 0);
      ghost var below := done + Behind(spine, 0);
      done' := done + Elements(spine);
      assert done' == below + {ptr};
      ptr := MakeRoot(ptr, sym, Whole(c), below);
      spine' := [ptr];
    }

    static method MakeRoot(node: Node, sym: Sym, ghost t: Tree, ghost below: set<Node>) returns (root: Node)
      requires t.Bin? && t.op == node.op && node !in below
      requires Shows(node.left, t.left, node, below) && Shows(node.right, t.right, node, below)
      modifies node`parent
      ensures fresh(root) && Represents(Cursor([], t, Some(sym), Empty), [root], below + {node})
    {
      root := new Node();
      node.parent := root;
      root.left := Sub(node);
      root.op := Some(sym);
      ShowsMore(node.left, t.left, node, below, below + {node});
      ShowsMore(node.right, t.right, node, below, below + {node});
    }

    /** '*' or '/' behind a complete operand: the last number moves into a new node below. */
    method Descend(sym: Sym, ghost c: Cursor, ghost spine: seq<Node>, ghost done: set<Node>)
      returns (ghost spine': seq<Node>)
      requires Represents(c, spine, done) && ptr == spine[|c.above|]
      modifies this`ptr, Elements(spine)
      ensures Represents(Cursor(c.above + [Frame(c.left, c.op)], c.right, Some(sym), Empty), spine', done)
      ensures fresh(ptr) && spine' == spine + [ptr]
    {
      var num := ptr.right;
      var sub := new Node();
      ptr.right := Sub(sub);
      sub.parent := ptr;
      sub.left := num;
      sub.op := Some(sym);
      ptr := sub;
      spine' := spine + [sub];
    }

    /** The loop body; false where AssertWrong is raised. */
    method Take(token: Token, ghost c: Cursor, ghost spine: seq<Node>, ghost done: set<Node>)
      returns (ok: bool, ghost spine': seq<Node>, ghost done': set<Node>)
      requires Represents(c, spine, done) && ptr == spine[|c.above|]
      modifies this`ptr, Elements(spine)
      ensures ok == Step(c, token).Some?
      ensures ok ==> var c' := Step(c, token).value; Represents(c', spine', done') && ptr == spine'[|c'.above|]
      ensures fresh((Elements(spine') + done') - (Elements(spine) + done))
    {
      ok, spine', done' := true, spine, done;
      match token {
        case Operator(sym) =>
          if ptr.left == Nothing {
            ok := false;
          } else if ptr.right == Nothing {
            ptr.op := Some(sym);
          } else if sym.Plus? || sym.Minus? {
            spine', done' := NewRoot(sym, c, spine, done);
          } else {
            spine' := Descend(sym, c, spine, done);
          }
        case Number(n) =>
          if ptr.left == Nothing {
            ptr.left := Num(n);
          } else if ptr.right == Nothing {
            ptr.right := Num(n);
          } else {
            ok := false;
          }
      }
    }

    /** The pass over the tokens; false where AssertWrong is raised. */
    method Build() returns (ok: bool, ghost spine: seq<Node>, ghost done: set<Node>)
      modifies this
      ensures ok == Run(tokens).Some?
      ensures ok ==> Represents(Run(tokens).value, spine, done) && ptr == spine[|spine| - 1]
      ensures fresh(Elements(spine) + done)
    {
      ptr := new Node();
      spine, done := [ptr], {};
      ghost var c := START;
      ok := true;
      var i := 0;
      while i < |tokens|
        invariant 0 <= i <= |tokens| && Run(tokens[..i]) == Some(c)
        invariant Represents(c, spine, done) && ptr == spine[|c.above|]
        invariant fresh(Elements(spine) + done)
      {
        assert tokens[..i + 1][..i] == tokens[..i];
        ok, spine, done := Take(tokens[i], c, spine, done);
        assert Run(tokens[..i + 1]) == Step(c, tokens[i]);
        if !ok {
          PrefixFails(tokens, i + 1);
          return;
        }
        c := Step(c, tokens[i]).value;
        i := i + 1;
      }
      assert tokens[..i] == tokens;
    }

    /** The text of the whole tree, every node in parentheses. */
    method DumpTree(ghost c: Cursor, ghost spine: seq<Node>, ghost done: set<Node>) returns (chars: seq<Lexeme>)
      requires Represents(c, spine, done) && ptr == spine[|c.above|] && Complete(Whole(c))
      modifies this`ptr
      ensures chars == Render(Whole(c))
    {
      JumpToRoot(c, spine, done);
      SpineShows(c, spine, done, 0);
      ghost var S := done + Behind(spine, 0) + {ptr};
      ShowsMore(ptr.left, Whole(c).left, ptr, S - {ptr}, S);
      ShowsMore(ptr.right, Whole(c).right, ptr, S - {ptr}, S);
      chars := ToString(Sub(ptr), Whole(c), null, S);
    }
  }

  // -------------------------------------------------------------------- the dump

  datatype Lexeme = Open | Close | Tok(token: Token)

  predicate Complete(t: Tree) {
    t.Leaf? || (t.Bin? && t.op.Some? && Complete(t.left) && Complete(t.right))
  }

  function Render(t: Tree): seq<Lexeme>
    requires Complete(t)
  {
    match t
    case Leaf(v) => [Tok(Number(v))]
    case Bin(l, op, r) => [Open] + Render(l) + [Tok(Operator(op.value))] + Render(r) + [Close]
  }

  method ToString(node: Operand, ghost t: Tree, ghost holder: Node?, ghost S: set<Node>) returns (chars: seq<Lexeme>)
    requires Shows(node, t, holder, S) && Complete(t)
    ensures chars == Render(t)
    decreases t
  {
    if node.Num? { return [Tok(Number(node.value))]; }
    var n := node.node;
    var left := ToString(n.left, t.left, n, S);
    var right := ToString(n.right, t.right, n, S);
    chars := [Open] + left + [Tok(Operator(n.op.value))] + right + [Close];
  }

  lemma {:induction false} PrefixFails(tokens: seq<Token>, i: nat)
    requires i <= |tokens| && Run(tokens[..i]).None?
    ensures Run(tokens).None?
    decreases |tokens| - i
  {
    if i == |tokens| {
      assert tokens[..i] == tokens;
    } else {
      assert tokens[..i + 1][..i] == tokens[..i];
      PrefixFails(tokens, i + 1);
    }
  }

  ghost predicate TwoNumbers(tokens: seq<Token>, i: nat) {
    i + 1 < |tokens| && tokens[i].Number? && tokens[i + 1].Number?
  }

  /** An operator in front, or a number behind a number that is not the first token. */
  ghost predicate Misplaced(tokens: seq<Token>) {
    (tokens != [] && tokens[0].Operator?) || exists i: nat :: i >= 1 && TwoNumbers(tokens, i)
  }

  lemma MisplacedLast(front: seq<Token>, t: Token)
    ensures var n := |front|;
      Misplaced(front + [t])
      <==> Misplaced(front) || (n == 0 && t.Operator?) || (n >= 2 && front[n - 1].Number? && t.Number?)
  {
    var all, n := front + [t], |front|;
    assert forall i: nat :: i + 1 < n ==> (TwoNumbers(all, i) <==> TwoNumbers(front, i));
    if n >= 2 && front[n - 1].Number? && t.Number? { assert TwoNumbers(all, n - 1); }
    if Misplaced(front) && !(front != [] && front[0].Operator?) {
      var i: nat :| i >= 1 && TwoNumbers(front, i);
      assert TwoNumbers(all, i);
    }
  }

  /** The parser raises exactly on misplaced tokens; a second operator replaces the first. */
  lemma {:induction false} RaisesIff(tokens: seq<Token>)
    ensures Run(tokens).None? <==> Misplaced(tokens)
    ensures Run(tokens).Some? ==>
      && (Run(tokens).value.left == Empty <==> tokens == [])
      && (Run(tokens).value.right != Empty <==> |tokens| >= 2 && tokens[|tokens| - 1].Number?)
    decreases |tokens|
  {
    if tokens != [] {
      var n := |tokens| - 1;
      RaisesIff(tokens[..n]);
      MisplacedLast(tokens[..n], tokens[n]);
      assert tokens == tokens[..n] + [tokens[n]];
    } else {
      assert !Misplaced(tokens);
    }
  }

  // ------------------------------------------- which tree an expression should have

  predicate IsSum(t: Token) { t.Operator? && (t.sym.Plus? || t.sym.Minus?) }

  /** Numbers at even places, operators between them. */
  ghost predicate Alternating(tokens: seq<Token>) {
    && |tokens| % 2 == 1
    && forall i :: 0 <= i < |tokens| ==> if i % 2 == 0 then tokens[i].Number? else tokens[i].Operator?
  }

  /** Place of the last '+' or '-', or -1. */
  function LastSum(tokens: seq<Token>): (i: int)
    ensures -1 <= i < |tokens|
    ensures i >= 0 ==> IsSum(tokens[i])
    ensures forall k :: i < k < |tokens| ==> !IsSum(tokens[k])
  {
    if tokens == [] then -1
    else if IsSum(tokens[|tokens| - 1]) then |tokens| - 1
    else LastSum(tokens[..|tokens| - 1])
  }

  /** A product nests to the right: the parser extends it at its last number. */
  function ProductTree(tokens: seq<Token>): Tree
    requires Alternating(tokens)
  {
    if |tokens| == 1 then Leaf(tokens[0].value)
    else Bin(Leaf(tokens[0].value), Some(tokens[1].sym), ProductTree(tokens[2..]))
  }

  lemma SumParts(tokens: seq<Token>)
    requires Alternating(tokens) && LastSum(tokens) >= 0
    ensures var i := LastSum(tokens); i % 2 == 1 && Alternating(tokens[..i]) && Alternating(tokens[i + 1..])
  {
    AlternatingParts(tokens, LastSum(tokens));
  }

  lemma AlternatingParts(tokens: seq<Token>, i: nat)
    requires Alternating(tokens) && i < |tokens| && tokens[i].Operator?
    ensures i % 2 == 1 && Alternating(tokens[..i]) && Alternating(tokens[i + 1..])
  {
    var behind := tokens[i + 1..];
    forall k | 0 <= k < |behind| ensures if k % 2 == 0 then behind[k].Number? else behind[k].Operator? {
      assert behind[k] == tokens[i + 1 + k];
    }
  }

  /** A sum splits at its last '+' or '-', so it nests to the left. */
  function SumTree(tokens: seq<Token>): Tree
    requires Alternating(tokens)
    decreases |tokens|
  {
    var i := LastSum(tokens);
    if i < 0 then ProductTree(tokens)
    else
      SumParts(tokens);
      Bin(SumTree(tokens[..i]), Some(tokens[i].sym), ProductTree(tokens[i + 1..]))
  }

  // ------------------------------------------------------- the parser builds that tree

  function LastValue(tokens: seq<Token>): int
    requires Alternating(tokens)
  {
    tokens[|tokens| - 1].value
  }

  /** The nodes from the root to ptr after an alternating list. */
  function Frames(tokens: seq<Token>): seq<Frame>
    requires Alternating(tokens)
    decreases |tokens|
  {
    if |tokens| == 1 then []
    else
      var front, op := tokens[..|tokens| - 2], tokens[|tokens| - 2];
      if IsSum(op) then [Frame(SumTree(front), Some(op.sym))]
      else Frames(front) + [Frame(Leaf(LastValue(front)), Some(op.sym))]
  }

  lemma {:induction false} PlugSnoc(above: seq<Frame>, i: nat, f: Frame, inner: Tree)
    requires i <= |above|
    ensures PlugFrom(above + [f], i, inner) == PlugFrom(above, i, Bin(f.left, f.op, inner))
    decreases |above| - i
  {
    if i < |above| {
      PlugSnoc(above, i + 1, f, inner);
    } else {
      assert PlugFrom(above + [f], i + 1, inner) == inner;
    }
  }

  /** Puts a tree in the place of the rightmost leaf. */
  function Extend(t: Tree, inner: Tree): Tree {
    match t
    case Bin(l, op, r) => Bin(l, op, Extend(r, inner))
    case _ => inner
  }

  lemma {:induction false} ExtendPlug(above: seq<Frame>, i: nat, v: int, inner: Tree)
    requires i <= |above|
    ensures Extend(PlugFrom(above, i, Leaf(v)), inner) == PlugFrom(above, i, inner)
    decreases |above| - i
  {
    if i < |above| { ExtendPlug(above, i + 1, v, inner); }
  }

  lemma {:induction false} ExtendProduct(tokens: seq<Token>, op: Token, n: Token)
    requires Alternating(tokens) && op.Operator? && n.Number?
    ensures Alternating(tokens + [op, n])
    ensures ProductTree(tokens + [op, n])
         == Extend(ProductTree(tokens), Bin(Leaf(LastValue(tokens)), Some(op.sym), Leaf(n.value)))
    decreases |tokens|
  {
    var all := tokens + [op, n];
    if |tokens| == 1 {
      assert all[2..] == [n];
    } else {
      assert all[2..] == tokens[2..] + [op, n];
      ExtendProduct(tokens[2..], op, n);
    }
  }

  lemma LastSumOfMore(tokens: seq<Token>, op: Token, n: Token)
    requires Alternating(tokens) && op.Operator? && n.Number?
    ensures LastSum(tokens + [op, n]) == if IsSum(op) then |tokens| else LastSum(tokens)
  {
    var all := tokens + [op, n];
    assert all[..|all| - 1] == tokens + [op];
    assert (tokens + [op])[..|tokens|] == tokens;
  }

  lemma MoreBehindSum(tokens: seq<Token>, i: nat, more: seq<Token>)
    requires i < |tokens|
    ensures (tokens + more)[..i] == tokens[..i] && (tokens + more)[i + 1..] == tokens[i + 1..] + more
  {}

  lemma SumTreeOfSum(tokens: seq<Token>, op: Token, n: Token)
    requires Alternating(tokens) && IsSum(op) && n.Number? && Alternating(tokens + [op, n])
    ensures SumTree(tokens + [op, n]) == Bin(SumTree(tokens), Some(op.sym), Leaf(n.value))
  {
    var all := tokens + [op, n];
    LastSumOfMore(tokens, op, n);
    assert all[..|tokens|] == tokens && all[|tokens| + 1..] == [n];
  }

  lemma SumTreeOfFactor(tokens: seq<Token>, op: Token, n: Token)
    requires Alternating(tokens) && op.Operator? && !IsSum(op) && n.Number? && Alternating(tokens + [op, n])
    ensures SumTree(tokens + [op, n])
         == Extend(SumTree(tokens), Bin(Leaf(LastValue(tokens)), Some(op.sym), Leaf(n.value)))
  {
    var i := LastSum(tokens);
    LastSumOfMore(tokens, op, n);
    if i < 0 {
      ExtendProduct(tokens, op, n);
    } else {
      SumParts(tokens);
      SumParts(tokens + [op, n]);
      MoreBehindSum(tokens, i, [op, n]);
      ExtendProduct(tokens[i + 1..], op, n);
    }
  }

  lemma SumTreeOfMore(tokens: seq<Token>, op: Token, n: Token)
    requires Alternating(tokens) && op.Operator? && n.Number?
    ensures Alternating(tokens + [op, n])
    ensures SumTree(tokens + [op, n])
         == if IsSum(op) then Bin(SumTree(tokens), Some(op.sym), Leaf(n.value))
            else Extend(SumTree(tokens), Bin(Leaf(LastValue(tokens)), Some(op.sym), Leaf(n.value)))
  {
    if IsSum(op) {
      SumTreeOfSum(tokens, op, n);
    } else {
      SumTreeOfFactor(tokens, op, n);
    }
  }

  /** The frames with the last number plugged in are the expected tree. */
  lemma {:induction false} FramesTree(tokens: seq<Token>)
    requires Alternating(tokens)
    ensures Plug(Frames(tokens), Leaf(LastValue(tokens))) == SumTree(tokens)
    decreases |tokens|
  {
    if |tokens| > 1 {
      var front, op, n := tokens[..|tokens| - 2], tokens[|tokens| - 2], tokens[|tokens| - 1];
      assert tokens == front + [op, n];
      FramesTree(front);
      FramesTreeOfMore(front, op, n, tokens);
    } else {
      SingleNumber(tokens);
    }
  }

  lemma FramesTreeOfMore(tokens: seq<Token>, op: Token, n: Token, all: seq<Token>)
    requires Alternating(tokens) && op.Operator? && n.Number? && all == tokens + [op, n] && Alternating(all)
    requires Plug(Frames(tokens), Leaf(LastValue(tokens))) == SumTree(tokens)
    ensures Plug(Frames(all), Leaf(LastValue(all))) == SumTree(all)
  {
    SumTreeOfMore(tokens, op, n);
    FramesOfMore(tokens, op, n);
    if !IsSum(op) {
      PlugSnoc(Frames(tokens), 0, Frame(Leaf(LastValue(tokens)), Some(op.sym)), Leaf(n.value));
      ExtendPlug(Frames(tokens), 0, LastValue(tokens), Bin(Leaf(LastValue(tokens)), Some(op.sym), Leaf(n.value)));
    } else {
      PlugSnoc([], 0, Frame(SumTree(tokens), Some(op.sym)), Leaf(n.value));
      assert [] + [Frame(SumTree(tokens), Some(op.sym))] == [Frame(SumTree(tokens), Some(op.sym))];
    }
  }

  lemma RunTwo(tokens: seq<Token>, op: Token, n: Token)
    requires Run(tokens).Some?
    ensures Run(tokens + [op, n])
         == match Step(Run(tokens).value, op) { case None => None case Some(c) => Step(c, n) }
  {
    var all := tokens + [op, n];
    assert all[..|all| - 1] == tokens + [op];
    assert (tokens + [op])[..|tokens|] == tokens;
  }

  lemma FramesOfMore(tokens: seq<Token>, op: Token, n: Token)
    requires Alternating(tokens) && op.Operator? && n.Number?
    ensures Alternating(tokens + [op, n])
    ensures Frames(tokens + [op, n])
         == if IsSum(op) then [Frame(SumTree(tokens), Some(op.sym))]
            else Frames(tokens) + [Frame(Leaf(LastValue(tokens)), Some(op.sym))]
  {
    var all := tokens + [op, n];
    assert all[..|all| - 2] == tokens;
  }

  lemma StepFromNumber(tokens: seq<Token>, op: Token, n: Token)
    requires |tokens| == 1 && Alternating(tokens) && op.Operator? && n.Number?
    ensures var c := Step(Step(Cursor([], Leaf(tokens[0].value), None, Empty), op).value, n).value;
      c.above + [Frame(c.left, c.op)] == Frames(tokens + [op, n]) && c.right == Leaf(n.value)
  {
    FramesOfMore(tokens, op, n);
    SingleNumber(tokens);
    assert [] + [Frame(Leaf(tokens[0].value), Some(op.sym))] == [Frame(Leaf(tokens[0].value), Some(op.sym))];
  }

  lemma SingleNumber(tokens: seq<Token>)
    requires |tokens| == 1 && Alternating(tokens)
    ensures LastSum(tokens) == -1 && SumTree(tokens) == Leaf(tokens[0].value) && Frames(tokens) == []
  {
    assert tokens[..0] == [];
  }

  lemma StepFromTree(tokens: seq<Token>, op: Token, n: Token, c: Cursor)
    requires Alternating(tokens) && op.Operator? && n.Number?
    requires c.above + [Frame(c.left, c.op)] == Frames(tokens) && c.right == Leaf(LastValue(tokens))
    requires Whole(c) == SumTree(tokens) && c.left != Empty
    ensures Step(c, op).Some? && Step(Step(c, op).value, n).Some?
    ensures var c' := Step(Step(c, op).value, n).value;
      c'.above + [Frame(c'.left, c'.op)] == Frames(tokens + [op, n]) && c'.right == Leaf(n.value) && c'.left != Empty
  {
    FramesOfMore(tokens, op, n);
    var c1 := Step(c, op).value;
    if IsSum(op) {
      var f := Frame(SumTree(tokens), Some(op.sym));
      assert c1 == Cursor([], SumTree(tokens), Some(op.sym), Empty);
      assert [] + [f] == [f];
    } else {
      assert c1 == Cursor(Frames(tokens), Leaf(LastValue(tokens)), Some(op.sym), Empty);
    }
  }

  lemma WholeIs(tokens: seq<Token>, c: Cursor)
    requires Alternating(tokens) && c.above + [Frame(c.left, c.op)] == Frames(tokens)
    requires c.right == Leaf(LastValue(tokens))
    ensures Whole(c) == SumTree(tokens)
  {
    PlugSnoc(c.above, 0, Frame(c.left, c.op), c.right);
    FramesTree(tokens);
  }

  /** The cursor after one number, or after at least one operator. */
  predicate AtFrames(tokens: seq<Token>)
    requires Alternating(tokens)
  {
    Run(tokens).Some? &&
    var c := Run(tokens).value;
    if |tokens| == 1 then c == Cursor([], Leaf(tokens[0].value), None, Empty)
    else c.above + [Frame(c.left, c.op)] == Frames(tokens) && c.right == Leaf(LastValue(tokens))
         && c.left != Empty && Whole(c) == SumTree(tokens)
  }

  /** The parser never raises on an alternating list, and its cursor stands at the last number. */
  lemma {:induction false} RunFrames(tokens: seq<Token>)
    requires Alternating(tokens)
    ensures AtFrames(tokens)
    decreases |tokens|
  {
    if |tokens| == 1 {
      assert tokens[..0] == [];
      assert Run(tokens) == Step(START, tokens[0]);
    } else {
      var front, op, n := tokens[..|tokens| - 2], tokens[|tokens| - 2], tokens[|tokens| - 1];
      RunFrames(front);
      RunFramesMore(front, op, n);
      assert tokens == front + [op, n];
    }
  }

  /** One operator and one number more. */
  lemma RunFramesMore(front: seq<Token>, op: Token, n: Token)
    requires Alternating(front) && op.Operator? && n.Number? && AtFrames(front)
    ensures Alternating(front + [op, n]) && AtFrames(front + [op, n])
  {
    RunTwo(front, op, n);
    FramesOfMore(front, op, n);
    TwoSteps(front, op, n, Run(front).value);
    WholeIs(front + [op, n], Run(front + [op, n]).value);
  }

  lemma TwoSteps(front: seq<Token>, op: Token, n: Token, c: Cursor)
    requires Alternating(front) && op.Operator? && n.Number? && AtFrames(front) && c == Run(front).value
    ensures Alternating(front + [op, n]) && Step(c, op).Some? && Step(Step(c, op).value, n).Some?
    ensures var c' := Step(Step(c, op).value, n).value;
      c'.above + [Frame(c'.left, c'.op)] == Frames(front + [op, n]) && c'.right == Leaf(n.value) && c'.left != Empty
  {
    FramesOfMore(front, op, n);
    if |front| == 1 {
      StepFromNumber(front, op, n);
    } else {
      StepFromTree(front, op, n, c);
    }
  }

  // --------------------------------------------------------------- what the tree means

  function Yield(t: Tree): seq<Token>
    requires Complete(t)
  {
    match t
    case Leaf(v) => [Number(v)]
    case Bin(l, op, r) => Yield(l) + [Operator(op.value)] + Yield(r)
  }

  /** Without the parentheses. */
  function Erase(text: seq<Lexeme>): seq<Token> {
    if text == [] then []
    else
      var n := |text| - 1;
      Erase(text[..n]) + if text[n].Tok? then [text[n].token] else []
  }

  lemma {:induction false} EraseAppend(a: seq<Lexeme>, b: seq<Lexeme>)
    ensures Erase(a + b) == Erase(a) + Erase(b)
    decreases |b|
  {
    if b == [] {
      assert a + b == a;
    } else {
      var n := |b| - 1;
      EraseAppend(a, b[..n]);
      assert (a + b)[..|a + b| - 1] == a + b[..n];
    }
  }

  lemma EraseSingle(x: Lexeme)
    ensures Erase([x]) == if x.Tok? then [x.token] else []
  {
    assert [x][..0] == [];
  }

  lemma EraseParentheses(l: seq<Lexeme>, o: Token, r: seq<Lexeme>)
    ensures Erase([Open] + l + [Tok(o)] + r + [Close]) == Erase(l) + [o] + Erase(r)
  {
    EraseAppend([Open] + l + [Tok(o)] + r, [Close]);
    EraseAppend([Open] + l + [Tok(o)], r);
    EraseAppend([Open] + l, [Tok(o)]);
    EraseAppend([Open], l);
    EraseSingle(Open);
    EraseSingle(Close);
    EraseSingle(Tok(o));
  }

  lemma {:induction false} EraseRender(t: Tree)
    requires Complete(t)
    ensures Erase(Render(t)) == Yield(t)
  {
    if t.Bin? {
      EraseRender(t.left);
      EraseRender(t.right);
      EraseParentheses(Render(t.left), Operator(t.op.value), Render(t.right));
    } else {
      EraseSingle(Tok(Number(t.value)));
    }
  }

  /** A dump and what stands behind it belong to one tree: the parentheses tell where it ends. */
  lemma {:induction false} RenderPrefix(t: Tree, u: Tree, x: seq<Lexeme>, y: seq<Lexeme>)
    requires Complete(t) && Complete(u) && Render(t) + x == Render(u) + y
    ensures t == u && x == y
    decreases t
  {
    RenderStart(t, x);
    RenderStart(u, y);
    if t.Bin? {
      var l, r := Render(t.right) + ([Close] + x), Render(u.right) + ([Close] + y);
      BinParts(t, x, l);
      BinParts(u, y, r);
      RenderPrefix(t.left, u.left, [Tok(Operator(t.op.value))] + l, [Tok(Operator(u.op.value))] + r);
      ConsEqual(Tok(Operator(t.op.value)), l, Tok(Operator(u.op.value)), r);
      RenderPrefix(t.right, u.right, [Close] + x, [Close] + y);
      ConsEqual(Close, x, Close, y);
    } else {
      ConsEqual(Tok(Number(t.value)), x, Tok(Number(u.value)), y);
    }
  }

  lemma ConsEqual<T>(a: T, x: seq<T>, b: T, y: seq<T>)
    ensures [a] + x == [b] + y ==> a == b && x == y
  {
    assert ([a] + x)[0] == a && ([a] + x)[1..] == x;
    assert ([b] + y)[0] == b && ([b] + y)[1..] == y;
  }

  lemma RenderStart(t: Tree, x: seq<Lexeme>)
    requires Complete(t)
    ensures Render(t) != [] && (Render(t) + x)[0] == if t.Bin? then Open else Tok(Number(t.value))
  {}

  lemma BinParts(t: Tree, x: seq<Lexeme>, rest: seq<Lexeme>)
    requires Complete(t) && t.Bin? && rest == Render(t.right) + ([Close] + x)
    ensures (Render(t) + x)[1..] == Render(t.left) + ([Tok(Operator(t.op.value))] + rest)
  {
    Grouped(Open, Render(t.left), Tok(Operator(t.op.value)), Render(t.right), [Close], x);
  }

  lemma Grouped<T>(open: T, l: seq<T>, op: T, r: seq<T>, close: seq<T>, x: seq<T>)
    ensures ([open] + l + [op] + r + close + x)[1..] == l + ([op] + (r + (close + x)))
  {
    assert [open] + l + [op] + r + close + x == [open] + (l + ([op] + (r + (close + x))));
  }

  /** So no two trees have the same dump. */
  lemma DumpDetermines(t: Tree, u: Tree)
    requires Complete(t) && Complete(u) && Render(t) == Render(u)
    ensures t == u
  {
    assert Render(t) + [] == Render(t) && Render(u) + [] == Render(u);
    RenderPrefix(t, u, [], []);
  }

  lemma {:induction false} ProductTreeYield(tokens: seq<Token>)
    requires Alternating(tokens)
    ensures Complete(ProductTree(tokens)) && Yield(ProductTree(tokens)) == tokens
    decreases |tokens|
  {
    if |tokens| > 1 {
      ProductTreeYield(tokens[2..]);
      assert tokens == [tokens[0]] + [tokens[1]] + tokens[2..];
    } else {
      assert tokens == [tokens[0]];
    }
  }

  lemma SplitAt(tokens: seq<Token>, i: nat)
    requires i < |tokens|
    ensures tokens == tokens[..i] + [tokens[i]] + tokens[i + 1..]
  {}

  lemma {:induction false} SumTreeYield(tokens: seq<Token>)
    requires Alternating(tokens)
    ensures Complete(SumTree(tokens)) && Yield(SumTree(tokens)) == tokens
    decreases |tokens|
  {
    var i := LastSum(tokens);
    if i < 0 {
      ProductTreeYield(tokens);
    } else {
      SumParts(tokens);
      SumTreeYield(tokens[..i]);
      ProductTreeYield(tokens[i + 1..]);
      SplitAt(tokens, i);
    }
  }

  /** The parser never raises on an alternating list with an operator, and its tree is the
      expected one: reading it in order gives back the tokens, also from the dump. */
  lemma BuildsTheExpression(tokens: seq<Token>)
    requires Alternating(tokens) && |tokens| > 1
    ensures Run(tokens).Some?
    ensures var t := Whole(Run(tokens).value);
      t == SumTree(tokens) && Complete(t) && Yield(t) == tokens && Erase(Render(t)) == tokens
  {
    RunFrames(tokens);
    SumTreeYield(tokens);
    EraseRender(SumTree(tokens));
  }
}
