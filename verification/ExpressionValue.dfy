/**
 The value of the tree that the expression parser builds (scratch/layout-src2xml/source/
 expression.py). Products nest to the right, so division decides: the value is the usual
 one, whatever the numbers are, exactly when every '/' is the only operator of its product.
 */
module ExpressionValue {
  import opened Wrappers
  import opened ExpressionTree

  /** Division as the integer division of the language of the parser, zero divisors apart. */
  function Apply(sym: Sym, a: int, b: int): int {
    match sym
    case Plus => a + b
    case Minus => a - b
    case Times => a * b
    case Over => if b == 0 then 0 else FloorDiv(a, b)
  }

  /** The quotient rounded down. */
  function FloorDiv(a: int, b: int): (q: int)
    requires b != 0
    ensures if b > 0 then q * b <= a < q * b + b else q * b + b < a <= q * b
  {
    if b > 0 then a / b else (-a) / (-b)
  }

  function Eval(t: Tree): int
    requires Complete(t)
  {
    match t
    case Leaf(v) => v
    case Bin(l, op, r) => Apply(op.value, Eval(l), Eval(r))
  }

  /** The usual value of a product: from left to right. */
  function Product(tokens: seq<Token>): int
    requires Alternating(tokens)
    decreases |tokens|
  {
    if |tokens| == 1 then tokens[0].value
    else Apply(tokens[|tokens| - 2].sym, Product(tokens[..|tokens| - 2]), LastValue(tokens))
  }

  /** The usual value of an expression: products first, then from left to right. */
  function Value(tokens: seq<Token>): int
    requires Alternating(tokens)
    decreases |tokens|
  {
    var i := LastSum(tokens);
    if i < 0 then Product(tokens)
    else
      SumParts(tokens);
      Apply(tokens[i].sym, Value(tokens[..i]), Product(tokens[i + 1..]))
  }

  lemma JoinAt(front: seq<Token>, op: Token, term: seq<Token>, k: nat)
    requires k <= |front| + |term|
    ensures (front + [op] + term)[k]
         == if k < |front| then front[k] else if k == |front| then op else term[k - |front| - 1]
  {}

  lemma JoinParts(front: seq<Token>, op: Token, term: seq<Token>)
    requires Alternating(front) && IsSum(op) && Alternating(term) && LastSum(term) < 0
    ensures var all, n := front + [op] + term, |front|;
      Alternating(all) && LastSum(all) == n && all[n] == op && all[..n] == front && all[n + 1..] == term
  {
    var all, n := front + [op] + term, |front|;
    forall k | 0 <= k < |all|
      ensures (if k % 2 == 0 then all[k].Number? else all[k].Operator?) && (k > n ==> !IsSum(all[k]))
    {
      JoinAt(front, op, term, k);
    }
    JoinAt(front, op, term, n);
  }

  /** What the usual value is: a number is itself, the last term is added or subtracted, ... */
  lemma ValueOfTerm(front: seq<Token>, op: Token, term: seq<Token>)
    requires Alternating(front) && IsSum(op) && Alternating(term) && LastSum(term) < 0
    ensures Alternating(front + [op] + term)
    ensures Value(front + [op] + term)
         == if op.sym.Plus? then Value(front) + Value(term) else Value(front) - Value(term)
  {
    JoinParts(front, op, term);
  }

  /** ... and within a term the last factor multiplies or divides. */
  lemma ValueOfFactor(term: seq<Token>, op: Token, n: Token)
    requires Alternating(term) && LastSum(term) < 0 && op.Operator? && !IsSum(op) && n.Number?
    ensures Alternating(term + [op, n]) && Value([n]) == n.value
    ensures op.sym.Times? ==> Value(term + [op, n]) == Value(term) * n.value
    ensures op.sym.Over? && n.value > 0 ==>
      var q := Value(term + [op, n]); q * n.value <= Value(term) < q * n.value + n.value
  {
    var all := term + [op, n];
    LastSumOfMore(term, op, n);
    assert all[..|all| - 2] == term && LastSum([n]) < 0;
  }

  predicate NoDivision(tokens: seq<Token>) { Operator(Over) !in tokens }

  ghost predicate IsProduct(tokens: seq<Token>) { Alternating(tokens) && LastSum(tokens) < 0 }

  lemma ProductParts(tokens: seq<Token>)
    requires IsProduct(tokens) && |tokens| > 1
    ensures var n := |tokens| - 2;
      IsProduct(tokens[..n]) && IsProduct(tokens[2..])
      && tokens[n].sym in {Times, Over} && tokens[1].sym in {Times, Over}
  {
    var n := |tokens| - 2;
    assert !IsSum(tokens[n]) && !IsSum(tokens[1]);
    assert forall k {:trigger tokens[2..][k]} :: 0 <= k < n ==> tokens[2..][k] == tokens[k + 2];
    assert forall k {:trigger tokens[..n][k]} :: 0 <= k < n ==> tokens[..n][k] == tokens[k];
  }

  lemma ProductOfThree(tokens: seq<Token>)
    requires Alternating(tokens) && |tokens| == 3
    ensures Product(tokens) == Apply(tokens[1].sym, tokens[0].value, tokens[2].value)
    ensures Alternating(tokens[2..]) && Product(tokens[2..]) == tokens[2].value
  {
    assert tokens[..1] == [tokens[0]] && tokens[2..] == [tokens[2]];
  }

  /** Without division the first factor can be taken out. */
  lemma {:induction false} ProductFromLeft(tokens: seq<Token>)
    requires IsProduct(tokens) && |tokens| > 1 && NoDivision(tokens)
    ensures Alternating(tokens[2..]) && Product(tokens) == tokens[0].value * Product(tokens[2..])
    decreases |tokens|
  {
    var n := |tokens| - 2;
    ProductParts(tokens);
    assert tokens[n] in tokens && tokens[1] in tokens;
    if n == 1 {
      ProductOfThree(tokens);
    } else {
      ProductFromLeft(tokens[..n]);
      assert tokens[2..][..n - 2] == tokens[..n][2..];
      Associate(tokens[0].value, Product(tokens[..n][2..]), LastValue(tokens));
    }
  }

  lemma Associate(a: int, b: int, c: int)
    ensures a * b * c == a * (b * c)
  {}

  lemma {:induction false} ProductTreeValue(tokens: seq<Token>)
    requires IsProduct(tokens) && NoDivision(tokens)
    ensures Complete(ProductTree(tokens)) && Eval(ProductTree(tokens)) == Product(tokens)
    decreases |tokens|
  {
    if |tokens| > 1 {
      ProductParts(tokens);
      assert tokens[1] in tokens;
      ProductTreeValue(tokens[2..]);
      ProductFromLeft(tokens);
    }
  }

  // ------------------------------------------------------------- division standing alone

  predicate SumAt(tokens: seq<Token>, i: int) { 0 <= i < |tokens| ==> IsSum(tokens[i]) }

  /** Every '/' is the only operator of its product: on both sides comes '+', '-' or an end. */
  predicate DivisionAlone(tokens: seq<Token>) {
    forall i :: 0 <= i < |tokens| && tokens[i] == Operator(Over) ==> SumAt(tokens, i - 2) && SumAt(tokens, i + 2)
  }

  lemma DivisionAloneParts(tokens: seq<Token>, i: nat)
    requires Alternating(tokens) && i < |tokens| && IsSum(tokens[i])
    ensures Alternating(tokens[..i]) && Alternating(tokens[i + 1..])
    ensures DivisionAlone(tokens) <==> DivisionAlone(tokens[..i]) && DivisionAlone(tokens[i + 1..])
  {
    AlternatingParts(tokens, i);
    var front, back := tokens[..i], tokens[i + 1..];
    assert forall k :: 0 <= k < |front| ==> front[k] == tokens[k];
    assert forall k {:trigger back[k]} :: 0 <= k < |back| ==> back[k] == tokens[i + 1 + k];
    if DivisionAlone(tokens) {
      forall k | 0 <= k < |back| && back[k] == Operator(Over) ensures SumAt(back, k - 2) && SumAt(back, k + 2) {
        assert tokens[i + 1 + k] == Operator(Over);
      }
    }
    if DivisionAlone(front) && DivisionAlone(back) {
      DivisionAloneJoin(tokens, i);
    }
  }

  lemma AloneBefore(tokens: seq<Token>, i: nat, k: nat)
    requires Alternating(tokens) && k < i < |tokens| && IsSum(tokens[i]) && tokens[k] == Operator(Over)
    requires DivisionAlone(tokens[..i])
    ensures SumAt(tokens, k - 2) && SumAt(tokens, k + 2)
  {
    var front := tokens[..i];
    assert front[k] == tokens[k];
    assert k >= 2 ==> front[k - 2] == tokens[k - 2];
    assert k % 2 == 1 == i % 2;
    assert k + 2 < i ==> front[k + 2] == tokens[k + 2];
  }

  lemma AloneBehind(tokens: seq<Token>, i: nat, k: nat)
    requires Alternating(tokens) && i < k < |tokens| && IsSum(tokens[i]) && tokens[k] == Operator(Over)
    requires DivisionAlone(tokens[i + 1..])
    ensures SumAt(tokens, k - 2) && SumAt(tokens, k + 2)
  {
    var back, j := tokens[i + 1..], k - i - 1;
    assert back[j] == tokens[k];
    assert k % 2 == 1 == i % 2;
    assert j >= 2 ==> back[j - 2] == tokens[k - 2];
    assert j + 2 < |back| ==> back[j + 2] == tokens[k + 2];
  }

  lemma DivisionAloneJoin(tokens: seq<Token>, i: nat)
    requires Alternating(tokens) && i < |tokens| && IsSum(tokens[i])
    requires DivisionAlone(tokens[..i]) && DivisionAlone(tokens[i + 1..])
    ensures DivisionAlone(tokens)
  {
    forall k | 0 <= k < |tokens| && tokens[k] == Operator(Over) ensures SumAt(tokens, k - 2) && SumAt(tokens, k + 2) {
      if k < i {
        AloneBefore(tokens, i, k);
      } else {
        AloneBehind(tokens, i, k);
      }
    }
  }

  /** A product without sums in which division stands alone: one division, or none at all. */
  lemma AloneInProduct(tokens: seq<Token>)
    requires IsProduct(tokens)
    ensures DivisionAlone(tokens) <==> |tokens| <= 3 || NoDivision(tokens)
  {
    if |tokens| > 3 {
      forall i | 0 <= i < |tokens| && tokens[i] == Operator(Over) ensures !DivisionAlone(tokens) {
        assert i % 2 == 1 && !IsSum(tokens[if i >= 2 then i - 2 else i + 2]);
      }
    }
    if |tokens| <= 3 {
      forall i | 0 <= i < |tokens| && tokens[i] == Operator(Over) ensures i == 1 {}
    }
  }

  lemma AloneProductValue(tokens: seq<Token>)
    requires IsProduct(tokens) && DivisionAlone(tokens)
    ensures Complete(ProductTree(tokens)) && Eval(ProductTree(tokens)) == Product(tokens)
  {
    AloneInProduct(tokens);
    if NoDivision(tokens) {
      ProductTreeValue(tokens);
    } else if |tokens| == 3 {
      assert tokens[..1] == [tokens[0]] && tokens[2..] == [tokens[2]];
    }
  }

  /** With division standing alone the value is the usual one. */
  lemma {:induction false} SumTreeValue(tokens: seq<Token>)
    requires Alternating(tokens) && DivisionAlone(tokens)
    ensures Complete(SumTree(tokens)) && Eval(SumTree(tokens)) == Value(tokens)
    decreases |tokens|
  {
    var i := LastSum(tokens);
    if i < 0 {
      AloneProductValue(tokens);
    } else {
      SumParts(tokens);
      DivisionAloneParts(tokens, i);
      NoSumBehind(tokens);
      SumTreeValue(tokens[..i]);
      AloneProductValue(tokens[i + 1..]);
    }
  }

  lemma NoSumBehind(tokens: seq<Token>)
    ensures LastSum(tokens) >= 0 ==> LastSum(tokens[LastSum(tokens) + 1..]) < 0
  {
    var i := LastSum(tokens);
    if i >= 0 {
      var back := tokens[i + 1..];
      assert forall k {:trigger back[k]} :: 0 <= k < |back| ==> back[k] == tokens[i + 1 + k];
    }
  }

  // ------------------------------------------------------- numbers that show the difference

  /** The same expression with other numbers. */
  ghost predicate SameOperators(tokens: seq<Token>, other: seq<Token>) {
    && Alternating(tokens) && Alternating(other) && |other| == |tokens|
    && forall i :: 0 <= i < |tokens| && tokens[i].Operator? ==> other[i] == tokens[i]
  }

  lemma SameLastSum(tokens: seq<Token>, other: seq<Token>)
    requires SameOperators(tokens, other)
    ensures LastSum(other) == LastSum(tokens)
  {
    var i, j := LastSum(tokens), LastSum(other);
    assert i >= 0 ==> other[i] == tokens[i];
    assert j >= 0 ==> tokens[j].Operator? && other[j] == tokens[j];
  }

  /** The value of the tree of a product. */
  function TreeValue(tokens: seq<Token>): int
    requires Alternating(tokens)
  {
    ProductTreeYield(tokens);
    Eval(ProductTree(tokens))
  }

  lemma TreeValueFirst(tokens: seq<Token>)
    requires Alternating(tokens) && |tokens| > 1
    ensures Alternating(tokens[2..])
    ensures TreeValue(tokens) == Apply(tokens[1].sym, tokens[0].value, TreeValue(tokens[2..]))
  {
    var first := Leaf(tokens[0].value);
    ProductTreeYield(tokens);
    ProductTreeYield(tokens[2..]);
    assert ProductTree(tokens) == Bin(first, Some(tokens[1].sym), ProductTree(tokens[2..]));
    assert Eval(first) == tokens[0].value;
  }

  predicate OnesFrom(tokens: seq<Token>, m: nat) {
    forall i :: m <= i < |tokens| && tokens[i].Number? ==> tokens[i].value == 1
  }

  lemma LastIsOne(tokens: seq<Token>)
    requires IsProduct(tokens) && |tokens| > 1 && LastValue(tokens) == 1
    ensures Alternating(tokens[..|tokens| - 2]) && Product(tokens) == Product(tokens[..|tokens| - 2])
  {
    ProductParts(tokens);
  }

  /** Multiplying with ones and dividing by them changes nothing, ... */
  lemma {:induction false} ProductOnes(tokens: seq<Token>)
    requires IsProduct(tokens) && OnesFrom(tokens, 0)
    ensures Product(tokens) == 1
    decreases |tokens|
  {
    if |tokens| > 1 {
      ProductParts(tokens);
      assert tokens[|tokens| - 1].Number?;
      LastIsOne(tokens);
      ProductOnes(tokens[..|tokens| - 2]);
    }
  }

  lemma {:induction false} ProductOfFive(tokens: seq<Token>)
    requires IsProduct(tokens) && |tokens| >= 5 && OnesFrom(tokens, 5)
    ensures Product(tokens)
         == Apply(tokens[3].sym, Apply(tokens[1].sym, tokens[0].value, tokens[2].value), tokens[4].value)
    decreases |tokens|
  {
    if |tokens| > 5 {
      ProductParts(tokens);
      assert tokens[|tokens| - 1].Number?;
      LastIsOne(tokens);
      ProductOfFive(tokens[..|tokens| - 2]);
    } else {
      ProductOfThree(tokens[..3]);
    }
  }

  /** ... and the same holds for the tree that nests to the right. */
  lemma {:induction false} TreeOnes(tokens: seq<Token>)
    requires IsProduct(tokens) && OnesFrom(tokens, 1)
    ensures TreeValue(tokens) == tokens[0].value
    decreases |tokens|
  {
    if |tokens| > 1 {
      ProductParts(tokens);
      TreeValueFirst(tokens);
      TreeOnes(tokens[2..]);
    }
  }

  /** The first three numbers, with ones behind them. */
  lemma Three(tokens: seq<Token>)
    requires IsProduct(tokens) && |tokens| >= 5 && OnesFrom(tokens, 5)
    ensures var a, f, b, g, c := tokens[0].value, tokens[1].sym, tokens[2].value, tokens[3].sym, tokens[4].value;
      && Product(tokens) == Apply(g, Apply(f, a, b), c)
      && TreeValue(tokens) == Apply(f, a, Apply(g, b, c))
  {
    ProductOfFive(tokens);
    TreeValueFirst(tokens);
    ProductParts(tokens);
    TreeValueFirst(tokens[2..]);
    ProductParts(tokens[2..]);
    assert tokens[2..][2..] == tokens[4..];
    TreeOnes(tokens[4..]);
  }

  /** The same operators between other numbers: three of them, then ones. */
  function Numbers(tokens: seq<Token>, a: int, b: int, c: int): (other: seq<Token>)
    ensures |other| == |tokens|
  {
    seq(|tokens|, i requires 0 <= i < |tokens| =>
      if tokens[i].Operator? then tokens[i]
      else Number(if i == 0 then a else if i == 2 then b else if i == 4 then c else 1))
  }

  lemma {:induction false} OneInFront(tokens: seq<Token>)
    requires Alternating(tokens) && |tokens| > 1 && tokens[0] == Number(1) && tokens[1] == Operator(Times)
    ensures Alternating(tokens[2..]) && Product(tokens) == Product(tokens[2..])
    decreases |tokens|
  {
    var n := |tokens| - 2;
    if n == 1 {
      ProductOfThree(tokens);
    } else {
      OneInFront(tokens[..n]);
      assert tokens[2..][..n - 2] == tokens[..n][2..];
    }
  }

  /** 3 * 1 / 2, 2 / 2 * 2 or 8 / 2 / 2, when a division is near the left end. */
  lemma DiffersAtFirst(tokens: seq<Token>) returns (other: seq<Token>)
    requires IsProduct(tokens) && |tokens| >= 5 && (tokens[1] == Operator(Over) || tokens[3] == Operator(Over))
    ensures SameOperators(tokens, other) && TreeValue(other) != Product(other)
  {
    var f, g := tokens[1].sym, tokens[3].sym;
    assert !IsSum(tokens[1]) && !IsSum(tokens[3]);
    var a, b := if f.Times? then 3 else if g.Times? then 2 else 8, if f.Times? then 1 else 2;
    other := Numbers(tokens, a, b, 2);
    SameLastSum(tokens, other);
    Three(other);
    assert Apply(g, Apply(f, a, b), 2) != Apply(f, a, Apply(g, b, 2));
  }

  lemma DiffersBehindOne(tokens: seq<Token>, rest: seq<Token>) returns (other: seq<Token>)
    requires Alternating(tokens) && |tokens| > 1 && tokens[1] == Operator(Times)
    requires SameOperators(tokens[2..], rest) && TreeValue(rest) != Product(rest)
    ensures SameOperators(tokens, other) && TreeValue(other) != Product(other)
  {
    other := [Number(1), Operator(Times)] + rest;
    forall k | 2 <= k < |tokens| ensures tokens[k] == tokens[2..][k - 2] && other[k] == rest[k - 2] {}
    assert other[2..] == rest;
    OneInFront(other);
    TreeValueFirst(other);
  }

  /** Numbers for a product of two or more operators with a division: the two values differ. */
  lemma {:induction false} ProductDiffers(tokens: seq<Token>) returns (other: seq<Token>)
    requires IsProduct(tokens) && |tokens| >= 5 && Operator(Over) in tokens
    ensures SameOperators(tokens, other) && TreeValue(other) != Product(other)
    decreases |tokens|
  {
    if tokens[1] == Operator(Over) || tokens[3] == Operator(Over) {
      other := DiffersAtFirst(tokens);
    } else {
      ProductParts(tokens);
      var i :| 0 <= i < |tokens| && tokens[i] == Operator(Over);
      assert i % 2 == 1;
      assert tokens[2..][i - 2] == tokens[i];
      var rest := ProductDiffers(tokens[2..]);
      other := DiffersBehindOne(tokens, rest);
    }
  }

  function SumValue(tokens: seq<Token>): int
    requires Alternating(tokens)
  {
    SumTreeYield(tokens);
    Eval(SumTree(tokens))
  }

  /** Other numbers on both sides of the last sum. */
  lemma Combine(tokens: seq<Token>, i: nat, front: seq<Token>, back: seq<Token>) returns (other: seq<Token>)
    requires Alternating(tokens) && i == LastSum(tokens)
    requires Alternating(tokens[..i]) && SameOperators(tokens[..i], front)
    requires Alternating(tokens[i + 1..]) && SameOperators(tokens[i + 1..], back)
    ensures SameOperators(tokens, other)
    ensures SumValue(other) == Apply(tokens[i].sym, SumValue(front), TreeValue(back))
    ensures Value(other) == Apply(tokens[i].sym, Value(front), Product(back))
    ensures SumValue(front) == Value(front) ==> (SumValue(other) == Value(other) <==> TreeValue(back) == Product(back))
    ensures TreeValue(back) == Product(back) ==> (SumValue(other) == Value(other) <==> SumValue(front) == Value(front))
  {
    var op := tokens[i];
    other := front + [op] + back;
    CombineAlternates(tokens, i, front, back);
    SameLastSum(tokens, other);
    assert other[..i] == front && other[i + 1..] == back && other[i] == op;
  }

  lemma CombineAlternates(tokens: seq<Token>, i: nat, front: seq<Token>, back: seq<Token>)
    requires Alternating(tokens) && i < |tokens| && tokens[i].Operator?
    requires SameOperators(tokens[..i], front) && SameOperators(tokens[i + 1..], back)
    ensures SameOperators(tokens, front + [tokens[i]] + back)
  {
    var other := front + [tokens[i]] + back;
    forall k | 0 <= k < |tokens|
      ensures (other[k].Number? <==> k % 2 == 0) && (tokens[k].Operator? ==> other[k] == tokens[k])
    {
      if k < i {
        assert other[k] == front[k] && tokens[..i][k] == tokens[k];
      } else if k > i {
        assert other[k] == back[k - i - 1] && tokens[i + 1..][k - i - 1] == tokens[k];
      }
    }
  }

  /** With ones alone in each product the two values agree, ... */
  lemma OnesForProduct(tokens: seq<Token>) returns (other: seq<Token>)
    requires IsProduct(tokens)
    ensures SameOperators(tokens, other) && TreeValue(other) == Product(other)
  {
    other := Numbers(tokens, 1, 1, 1);
    SameLastSum(tokens, other);
    ProductOnes(other);
    TreeOnes(other);
  }

  lemma {:induction false} Agreeing(tokens: seq<Token>) returns (other: seq<Token>)
    requires Alternating(tokens)
    ensures SameOperators(tokens, other) && SumValue(other) == Value(other)
    decreases |tokens|
  {
    var i := LastSum(tokens);
    if i < 0 {
      other := OnesForProduct(tokens);
      SameLastSum(tokens, other);
    } else {
      SumParts(tokens);
      AlternatingParts(tokens, i);
      NoSumBehind(tokens);
      var front := Agreeing(tokens[..i]);
      var back := OnesForProduct(tokens[i + 1..]);
      other := Combine(tokens, i, front, back);
    }
  }

  lemma DiffersInProduct(tokens: seq<Token>) returns (other: seq<Token>)
    requires IsProduct(tokens) && !DivisionAlone(tokens)
    ensures SameOperators(tokens, other) && TreeValue(other) != Product(other)
  {
    AloneInProduct(tokens);
    other := ProductDiffers(tokens);
  }

  /** ... and where a division does not stand alone some numbers make them differ. */
  lemma {:induction false} Differing(tokens: seq<Token>) returns (other: seq<Token>)
    requires Alternating(tokens) && !DivisionAlone(tokens)
    ensures SameOperators(tokens, other) && SumValue(other) != Value(other)
    decreases |tokens|
  {
    var i := LastSum(tokens);
    if i < 0 {
      other := DiffersInProduct(tokens);
      SameLastSum(tokens, other);
    } else {
      SumParts(tokens);
      DivisionAloneParts(tokens, i);
      NoSumBehind(tokens);
      var front, back;
      if DivisionAlone(tokens[..i]) {
        front := Agreeing(tokens[..i]);
        back := DiffersInProduct(tokens[i + 1..]);
      } else {
        front := Differing(tokens[..i]);
        back := OnesForProduct(tokens[i + 1..]);
      }
      other := Combine(tokens, i, front, back);
    }
  }

  /** What the parser makes of an expression. */
  function ParsedValue(tokens: seq<Token>): int
    requires Alternating(tokens) && |tokens| > 1
  {
    BuildsTheExpression(tokens);
    Eval(Whole(Run(tokens).value))
  }

  /** The parsed value is the usual one, also when other numbers stand in the expression. */
  ghost predicate RightForAllNumbers(tokens: seq<Token>)
    requires Alternating(tokens) && |tokens| > 1
  {
    forall other :: SameOperators(tokens, other) ==> ParsedValue(other) == Value(other)
  }

  lemma AloneInOther(tokens: seq<Token>, other: seq<Token>)
    requires SameOperators(tokens, other) && DivisionAlone(tokens)
    ensures DivisionAlone(other)
  {
    forall i | 0 <= i < |other| && other[i] == Operator(Over) ensures SumAt(other, i - 2) && SumAt(other, i + 2) {
      assert tokens[i].Operator?;
      assert i >= 2 ==> tokens[i - 2].Operator?;
      assert i + 2 < |tokens| ==> tokens[i + 2].Operator?;
    }
  }

  /** The parser gets the usual value, whatever the numbers are, if and only if every division
      in the expression stands alone. */
  lemma DivisionIffAlone(tokens: seq<Token>)
    requires Alternating(tokens) && |tokens| > 1
    ensures DivisionAlone(tokens) <==> RightForAllNumbers(tokens)
  {
    if DivisionAlone(tokens) {
      forall other | SameOperators(tokens, other) ensures ParsedValue(other) == Value(other) {
        AloneInOther(tokens, other);
        BuildsTheExpression(other);
        SumTreeValue(other);
      }
    } else {
      var other := Differing(tokens);
      BuildsTheExpression(other);
      assert ParsedValue(other) != Value(other);
    }
  }

  /** 8 / 4 / 2 comes out as 8 / (4 / 2). */
  lemma DivisionNestsToTheRight()
    ensures var tokens := [Number(8), Operator(Over), Number(4), Operator(Over), Number(2)];
      Alternating(tokens) && Value(tokens) == 1 && ParsedValue(tokens) == 4
  {
    var tokens := [Number(8), Operator(Over), Number(4), Operator(Over), Number(2)];
    assert Alternating(tokens) && LastSum(tokens) < 0;
    BuildsTheExpression(tokens);
    Three(tokens);
  }
}
