/**
 Macros with arguments (scratch/layout-src2xml/source/srcparser.py): how the expander finds
 the arguments of a call and puts them into the body.
 */
module MacroCalls {

  import MacroExpander

  type Token = string

  /** vars: the position of each formal argument. */
  datatype Macro = Macro(tokens: seq<Token>, vars: map<Token, nat>)

  /** last: how many tokens behind the macro's name belong to the call. AttributeError comes
      out of the error report that the source makes when the tokens end. */
  datatype Outcome = Values(values: seq<seq<Token>>, last: nat) | AssertWrong | AttributeError

  // ----------------------------------------------------------------- the arguments

  function First(ts: seq<Token>, tk: Token): (k: nat)
    ensures k <= |ts| && tk !in ts[..k] && (k < |ts| ==> ts[k] == tk)
  {
    if ts == [] || ts[0] == tk then 0
    else
      var k := First(ts[1..], tk);
      assert ts[..k + 1] == [ts[0]] + ts[1..][..k];
      k + 1
  }

  /** The tokens in front of the first tk, and those behind it. */
  function Before(ts: seq<Token>, tk: Token): seq<Token> {
    if ts == [] || ts[0] == tk then [] else [ts[0]] + Before(ts[1..], tk)
  }

  function Behind(ts: seq<Token>, tk: Token): seq<Token> {
    if ts == [] then [] else if ts[0] == tk then ts[1..] else Behind(ts[1..], tk)
  }

  function Count(ts: seq<Token>, tk: Token): nat {
    if ts == [] then 0
    else Count(ts[..|ts| - 1], tk) + if ts[|ts| - 1] == tk then 1 else 0
  }

  /** The pieces between commas; one more than there are commas. */
  function Split(ts: seq<Token>): (pieces: seq<seq<Token>>)
    ensures |pieces| == Count(ts, ",") + 1
  {
    if ts == [] then [[]]
    else
      var n := |ts| - 1;
      var pieces := Split(ts[..n]);
      if ts[n] == "," then pieces + [[]] else pieces[|pieces| - 1 := pieces[|pieces| - 1] + [ts[n]]]
  }

  /** Arguments up to the closing parenthesis. What stands in front of the opening one
      counts up to its last comma. */
  function Arguments(ts: seq<Token>): seq<seq<Token>>
    requires "(" in ts
  {
    var front := Before(ts, "(");
    Split(front)[..Count(front, ",")] + Split(Behind(ts, "("))
  }

  /** The call at the start of ts: it ends with the first ')', with one '(' before. */
  function Call(ts: seq<Token>): Outcome {
    var k := First(ts, ")");
    if k == |ts| then AttributeError
    else if Count(ts[..k], "(") != 1 then AssertWrong
    else CountIn(ts[..k], "("); Values(Arguments(ts[..k]), k + 1)
  }

  lemma {:induction false} CountIn(ts: seq<Token>, tk: Token)
    ensures Count(ts, tk) > 0 <==> tk in ts
  {
    if ts != [] {
      CountIn(ts[..|ts| - 1], tk);
      assert ts == ts[..|ts| - 1] + [ts[|ts| - 1]];
    }
  }

  lemma {:induction false} PartsAppend(ts: seq<Token>, x: Token, tk: Token)
    requires tk in ts
    ensures tk in ts + [x] && Before(ts + [x], tk) == Before(ts, tk) && Behind(ts + [x], tk) == Behind(ts, tk) + [x]
  {
    assert (ts + [x])[0] == ts[0] && (ts + [x])[1..] == ts[1..] + [x];
    if ts[0] != tk {
      PartsAppend(ts[1..], x, tk);
    }
  }

  lemma {:induction false} PartsOfFirst(ts: seq<Token>, tk: Token)
    requires tk !in ts
    ensures Before(ts + [tk], tk) == ts && Behind(ts + [tk], tk) == []
  {
    if ts == [] {
      assert ts + [tk] == [tk];
    } else {
      assert (ts + [tk])[0] == ts[0] && (ts + [tk])[1..] == ts[1..] + [tk];
      PartsOfFirst(ts[1..], tk);
    }
  }

  lemma SplitLast(ts: seq<Token>, x: Token)
    ensures Split(ts + [x]) ==
      if x == "," then Split(ts) + [[]] else Split(ts)[|Split(ts)| - 1 := Split(ts)[|Split(ts)| - 1] + [x]]
  {
    assert (ts + [x])[..|ts|] == ts;
  }

  /** One more token in front of the closing parenthesis. */
  lemma ArgumentsAppend(ts: seq<Token>, x: Token)
    requires "(" in ts && x != "("
    ensures Arguments(ts + [x]) ==
      if x == "," then Arguments(ts) + [[]]
      else Arguments(ts)[|Arguments(ts)| - 1 := Arguments(ts)[|Arguments(ts)| - 1] + [x]]
  {
    PartsAppend(ts, x, "(");
    SplitLast(Behind(ts, "("), x);
  }

  // ------------------------------------------------------------- calls as written

  function Commas(args: seq<seq<Token>>): seq<Token> {
    if args == [] then [] else if |args| == 1 then args[0] else Commas(args[..|args| - 1]) + [","] + args[|args| - 1]
  }

  function WrittenCall(args: seq<seq<Token>>): seq<Token> { ["("] + Commas(args) + [")"] }

  predicate PlainArgument(arg: seq<Token>) {
    "(" !in arg && ")" !in arg && "," !in arg
  }

  lemma {:induction false} SplitAppend(ts: seq<Token>, arg: seq<Token>)
    requires "," !in arg
    ensures var pieces := Split(ts); Split(ts + arg) == pieces[|pieces| - 1 := pieces[|pieces| - 1] + arg]
    decreases |arg|
  {
    if arg == [] {
      var pieces := Split(ts);
      assert ts + arg == ts && pieces[|pieces| - 1] + arg == pieces[|pieces| - 1];
    } else {
      var n := |arg| - 1;
      assert (ts + arg)[..|ts + arg| - 1] == ts + arg[..n];
      SplitAppend(ts, arg[..n]);
      assert arg[n] in arg;
      var pieces := Split(ts);
      var last := pieces[|pieces| - 1];
      assert (last + arg[..n]) + [arg[n]] == last + arg;
    }
  }

  lemma {:induction false} SplitCommas(args: seq<seq<Token>>)
    requires args != [] && forall i :: 0 <= i < |args| ==> PlainArgument(args[i])
    ensures Split(Commas(args)) == args && "(" !in Commas(args) && ")" !in Commas(args)
  {
    var n := |args| - 1;
    assert args == args[..n] + [args[n]] && PlainArgument(args[n]);
    if n == 0 {
      SplitAppend([], args[0]);
      assert [] + args[0] == args[0];
    } else {
      SplitCommas(args[..n]);
      var front := Commas(args[..n]) + [","];
      assert front[..|front| - 1] == Commas(args[..n]);
      SplitAppend(front, args[n]);
      assert Split(front) == args[..n] + [[]];
      assert [] + args[n] == args[n];
    }
  }

  predicate PlainArguments(args: seq<seq<Token>>) { forall i :: 0 <= i < |args| ==> PlainArgument(args[i]) }

  /** The arguments of a written call are found again, whatever follows. */
  lemma PlainAreFound(args: seq<seq<Token>>, rest: seq<Token>)
    requires args != [] && PlainArguments(args)
    ensures Call(WrittenCall(args) + rest) == Values(args, |WrittenCall(args)|)
  {
    SplitCommas(args);
    var inner := ["("] + Commas(args);
    var ts := inner + [")"] + rest;
    FirstIs(ts, ")", |inner|);
    assert ts[..|inner|] == inner;
    OneOpen(Commas(args));
    assert inner[1..] == Commas(args) && Before(inner, "(") == [] && Behind(inner, "(") == Commas(args);
  }

  lemma {:induction false} CountAppend(a: seq<Token>, b: seq<Token>, tk: Token)
    ensures Count(a + b, tk) == Count(a, tk) + Count(b, tk)
  {
    if b == [] {
      assert a + b == a;
    } else {
      assert (a + b)[..|a + b| - 1] == a + b[..|b| - 1];
      CountAppend(a, b[..|b| - 1], tk);
    }
  }

  /** Each argument counts alone, and one comma stands between two. */
  lemma {:induction false} CountCommas(args: seq<seq<Token>>, tk: Token)
    requires args != []
    ensures Count(Commas(args), tk) >= if tk == "," then |args| - 1 else 0
    ensures Count(Commas(args), tk) == (if tk == "," then |args| - 1 else 0)
        ==> forall i :: 0 <= i < |args| ==> tk !in args[i]
  {
    var n := |args| - 1;
    CountIn(args[n], tk);
    if n > 0 {
      var front := Commas(args[..n]);
      CountCommas(args[..n], tk);
      CountAppend(front + [","], args[n], tk);
      CountAppend(front, [","], tk);
      assert Count([","], tk) == if tk == "," then 1 else 0 by { assert [","][..0] == []; }
      assert forall i :: 0 <= i < n ==> args[..n][i] == args[i];
    }
  }

  lemma OneOpen(ts: seq<Token>)
    ensures Count(["("] + ts, "(") == 1 + Count(ts, "(")
    ensures "(" !in ts ==> Count(["("] + ts, "(") == 1
  {
    CountIn(ts, "(");
    CountAppend(["("], ts, "(");
    assert ["("][..0] == [];
  }

  /** Conversely only plain arguments are found: no parentheses and no commas in them. */
  lemma FoundArePlain(args: seq<seq<Token>>, rest: seq<Token>)
    requires args != [] && Call(WrittenCall(args) + rest) == Values(args, |WrittenCall(args)|)
    ensures PlainArguments(args)
  {
    var inner := ["("] + Commas(args);
    var ts := WrittenCall(args) + rest;
    assert First(ts, ")") == |inner| && ts[..|inner|] == inner;
    CountIn(Commas(args), ")");
    assert ")" !in Commas(args) by { assert forall tk :: tk in Commas(args) ==> tk in inner; }
    CountCommas(args, ")");
    OneOpen(Commas(args));
    CountCommas(args, "(");
    assert inner[1..] == Commas(args) && Before(inner, "(") == [] && Behind(inner, "(") == Commas(args);
    assert Split([]) == [[]] && Count([], ",") == 0;
    assert Split(Commas(args)) == args;
    CountCommas(args, ",");
  }

  /** The arguments of a written call are found again exactly when none of them holds a
      parenthesis or a comma. */
  lemma CallFindsArguments(args: seq<seq<Token>>, rest: seq<Token>)
    requires args != []
    ensures Call(WrittenCall(args) + rest) == Values(args, |WrittenCall(args)|) <==> PlainArguments(args)
  {
    if PlainArguments(args) { PlainAreFound(args, rest); }
    if Call(WrittenCall(args) + rest) == Values(args, |WrittenCall(args)|) { FoundArePlain(args, rest); }
  }

  /** A call within an argument is never expanded: the expander stops. */
  lemma NestedCallStops(before: seq<Token>, name: Token, inner: seq<Token>, rest: seq<Token>)
    requires ")" !in before && ")" !in inner && name != ")"
    ensures Call(["("] + before + [name, "("] + inner + [")"] + rest) == AssertWrong
  {
    var front := ["("] + before + [name, "("];
    var seen := front + inner;
    var ts := seen + [")"] + rest;
    assert ts == ["("] + before + [name, "("] + inner + [")"] + rest;
    FirstIs(ts, ")", |seen|);
    assert ts[..|seen|] == seen;
    assert front[..|front| - 1] == ["("] + (before + [name]);
    CountAppend(["("], before + [name], "(");
    CountAppend(front, inner, "(");
  }

  // -------------------------------------------------------------------- expansion

  predicate Enough(m: Macro, values: seq<seq<Token>>) {
    forall tk :: tk in m.tokens && tk in m.vars ==> m.vars[tk] < |values|
  }

  /** The tokens with every formal argument replaced, all at once: what an argument puts in
      is not searched for formal arguments again. (A missing value counts as empty here; Step
      does not get that far.) */
  function Substituted(body: seq<Token>, vars: map<Token, nat>, values: seq<seq<Token>>): seq<Token> {
    if body == [] then []
    else Substituted(body[..|body| - 1], vars, values) + Replacement(body[|body| - 1], vars, values)
  }

  function Replacement(tk: Token, vars: map<Token, nat>, values: seq<seq<Token>>): seq<Token> {
    if tk !in vars then [tk] else if vars[tk] < |values| then values[vars[tk]] else []
  }

  /** A place in the tokens, or why the expander stops. */
  datatype Progress = At(tokens: seq<Token>, pos: nat) | Stopped(call: Outcome) | IndexError

  function Step(defs: map<Token, Macro>, tokens: seq<Token>, pos: nat): Progress
    requires pos < |tokens|
  {
    if tokens[pos] !in defs then At(tokens, pos + 1)
    else
      var macro := defs[tokens[pos]];
      if macro.vars == map[] then At(tokens[..pos] + macro.tokens + tokens[pos + 1..], pos)
      else
        var call := Call(tokens[pos + 1..]);
        if !call.Values? then Stopped(call)
        else if !Enough(macro, call.values) then IndexError
        else At(tokens[..pos] + Substituted(macro.tokens, macro.vars, call.values) + tokens[pos + 1 + call.last..], pos)
  }

  lemma CallWithin(ts: seq<Token>)
    ensures Call(ts).Values? ==> Call(ts).last <= |ts| && Call(ts).values != []
  {
    var k := First(ts, ")");
    if k < |ts| && Count(ts[..k], "(") == 1 {
      CountIn(ts[..k], "(");
    }
  }

  lemma Around(before: seq<Token>, name: Token, call: seq<Token>, after: seq<Token>)
    ensures var ts := before + [name] + call + after; var n := |before|;
      ts[n] == name && ts[..n] == before && ts[n + 1..] == call + after && ts[n + 1 + |call|..] == after
  {
  }

  /** A written call with enough arguments is replaced in place by the body, with the
      written arguments in it; the tokens around it stay. */
  lemma ExpandsWrittenCall(defs: map<Token, Macro>, before: seq<Token>, name: Token, args: seq<seq<Token>>,
                           after: seq<Token>)
    requires name in defs && defs[name].vars != map[] && Enough(defs[name], args)
    requires args != [] && PlainArguments(args)
    ensures Step(defs, before + [name] + WrittenCall(args) + after, |before|)
         == At(before + Substituted(defs[name].tokens, defs[name].vars, args) + after, |before|)
  {
    PlainAreFound(args, after);
    Around(before, name, WrittenCall(args), after);
  }

  // ------------------------------------------------------- which argument goes where

  lemma {:induction false} SubstitutedAppend(x: seq<Token>, y: seq<Token>, vars: map<Token, nat>, args: seq<seq<Token>>)
    ensures Substituted(x + y, vars, args) == Substituted(x, vars, args) + Substituted(y, vars, args)
    decreases |y|
  {
    if y == [] {
      assert x + y == x;
    } else {
      var n := |y| - 1;
      assert (x + y)[..|x + y| - 1] == x + y[..n] && (x + y)[|x + y| - 1] == y[n];
      SubstitutedAppend(x, y[..n], vars, args);
    }
  }

  function Flatten(pieces: seq<seq<Token>>): seq<Token> {
    if pieces == [] then [] else pieces[0] + Flatten(pieces[1..])
  }

  /** What each token of a body becomes: the written argument for a formal one, else itself. */
  ghost predicate Pieces(body: seq<Token>, vars: map<Token, nat>, args: seq<seq<Token>>, pieces: seq<seq<Token>>) {
    |pieces| == |body| &&
    forall i :: 0 <= i < |body| ==>
      if body[i] in vars then vars[body[i]] < |args| && pieces[i] == args[vars[body[i]]] else pieces[i] == [body[i]]
  }

  lemma {:induction false} SubstitutedIs(body: seq<Token>, vars: map<Token, nat>, args: seq<seq<Token>>,
                                         pieces: seq<seq<Token>>)
    requires Pieces(body, vars, args, pieces)
    ensures Substituted(body, vars, args) == Flatten(pieces)
    decreases |body|
  {
    if body != [] {
      var rest := body[1..];
      assert forall i :: 0 <= i < |rest| ==> rest[i] == body[i + 1] && pieces[1..][i] == pieces[i + 1];
      SubstitutedIs(rest, vars, args, pieces[1..]);
      assert body == [body[0]] + rest;
      SubstitutedAppend([body[0]], rest, vars, args);
      assert [body[0]][..0] == [] && Substituted([body[0]], vars, args) == [] + pieces[0] == pieces[0];
    }
  }

  /** A written call is replaced token by token of the body. */
  lemma CallPieces(defs: map<Token, Macro>, before: seq<Token>, name: Token, args: seq<seq<Token>>, after: seq<Token>,
                   pieces: seq<seq<Token>>)
    requires name in defs && defs[name].vars != map[] && args != [] && PlainArguments(args)
    requires Pieces(defs[name].tokens, defs[name].vars, args, pieces)
    ensures Step(defs, before + [name] + WrittenCall(args) + after, |before|)
         == At(before + Flatten(pieces) + after, |before|)
  {
    var macro := defs[name];
    forall tk | tk in macro.tokens && tk in macro.vars ensures macro.vars[tk] < |args| {
      var i :| 0 <= i < |macro.tokens| && macro.tokens[i] == tk;
    }
    SubstitutedIs(macro.tokens, macro.vars, args, pieces);
    ExpandsWrittenCall(defs, before, name, args, after);
  }

  lemma {:induction false} FlattenSingles(body: seq<Token>, pieces: seq<seq<Token>>)
    requires |pieces| == |body| && forall i :: 0 <= i < |body| ==> pieces[i] == [body[i]]
    ensures Flatten(pieces) == body
    decreases |body|
  {
    if body != [] {
      FlattenSingles(body[1..], pieces[1..]);
      assert body == [body[0]] + body[1..];
    }
  }

  /** A call in which every formal argument stands for itself gives the body back. */
  lemma IdentityCall(defs: map<Token, Macro>, before: seq<Token>, name: Token, args: seq<seq<Token>>, after: seq<Token>)
    requires name in defs && defs[name].vars != map[] && args != [] && PlainArguments(args)
    requires forall v :: v in defs[name].tokens && v in defs[name].vars ==>
               defs[name].vars[v] < |args| && args[defs[name].vars[v]] == [v]
    ensures Step(defs, before + [name] + WrittenCall(args) + after, |before|)
         == At(before + defs[name].tokens + after, |before|)
  {
    var body := defs[name].tokens;
    var pieces := seq(|body|, i requires 0 <= i < |body| => [body[i]]);
    assert forall i :: 0 <= i < |body| ==> body[i] in body;
    FlattenSingles(body, pieces);
    CallPieces(defs, before, name, args, after, pieces);
  }

  lemma {:induction false} FlattenAppend(a: seq<seq<Token>>, b: seq<seq<Token>>)
    ensures Flatten(a + b) == Flatten(a) + Flatten(b)
    decreases |a|
  {
    if a == [] {
      assert a + b == b;
    } else {
      assert (a + b)[1..] == a[1..] + b;
      FlattenAppend(a[1..], b);
    }
  }

  /** A formal argument between other tokens: its argument takes the place, the others stay. */
  lemma ArgumentInPlace(defs: map<Token, Macro>, before: seq<Token>, name: Token, args: seq<seq<Token>>,
                        after: seq<Token>, x: seq<Token>, v: Token, y: seq<Token>)
    requires name in defs && args != [] && PlainArguments(args) && defs[name].tokens == x + [v] + y
    requires v in defs[name].vars && defs[name].vars[v] < |args|
    requires forall tk :: tk in x + y ==> tk !in defs[name].vars
    ensures Step(defs, before + [name] + WrittenCall(args) + after, |before|)
         == At(before + (x + args[defs[name].vars[v]] + y) + after, |before|)
  {
    var arg := args[defs[name].vars[v]];
    var xs := seq(|x|, i requires 0 <= i < |x| => [x[i]]);
    var ys := seq(|y|, i requires 0 <= i < |y| => [y[i]]);
    var body, pieces := x + [v] + y, xs + [arg] + ys;
    forall i | 0 <= i < |body| && i != |x| ensures body[i] !in defs[name].vars && pieces[i] == [body[i]] {
      assert body[i] in x + y by { assert body[i] == (x + y)[if i < |x| then i else i - 1]; }
    }
    CallPieces(defs, before, name, args, after, pieces);
    FlattenSingles(x, xs);
    FlattenSingles(y, ys);
    FlattenAppend(xs + [arg], ys);
    FlattenAppend(xs, [arg]);
    assert [arg][1..] == [] && arg + [] == arg && Flatten([arg]) == arg;
  }

  // ---------------------------------------------------------------------- the loop

  class CallExpander {
    var tokens: seq<Token>
    const defines: map<Token, Macro>
    var pos: nat

    constructor (tokens: seq<Token>, defines: map<Token, Macro>)
      ensures this.tokens == tokens && this.defines == defines
    {
      this.tokens, this.defines, pos := tokens, defines, 0;
    }

    method ParseValues() returns (r: Outcome)
      requires pos < |tokens|
      ensures r == Call(tokens[pos + 1..])
    {
      ghost var ts := tokens[pos + 1..];
      var values, value: seq<Token>, scope, i := [], [], 0, 1;
      while pos + i < |tokens|
        invariant 1 <= i <= |ts| + 1 && ")" !in ts[..i - 1]
        invariant Scanned(ts[..i - 1], scope, values + [value])
      {
        var tk := tokens[pos + i];
        Seen(ts, i - 1);
        if tk == ")" {
          FirstIs(ts, ")", i - 1);
          return if scope == 1 then Values(values + [value], i) else AssertWrong;
        }
        ScanStep(ts[..i - 1], scope, values, value, tk);
        if tk == "(" {
          value, scope := [], scope + 1;
        } else if tk == "," {
          values, value := values + [value], [];
        } else {
          value := value + [tk];
        }
        i := i + 1;
      }
      assert ts[..i - 1] == ts;
      r := AttributeError;
    }

    /** The body of macro with the values in it; None where a value is missing. */
    static method Replace(macro: Macro, values: seq<seq<Token>>) returns (newtokens: seq<Token>, ok: bool)
      ensures ok == Enough(macro, values)
      ensures ok ==> newtokens == Substituted(macro.tokens, macro.vars, values)
    {
      newtokens, ok := [], true;
      for i := 0 to |macro.tokens|
        invariant forall j :: 0 <= j < i && macro.tokens[j] in macro.vars ==> macro.vars[macro.tokens[j]] < |values|
        invariant newtokens == Substituted(macro.tokens[..i], macro.vars, values)
      {
        var mtoken := macro.tokens[i];
        assert macro.tokens[..i + 1][..i] == macro.tokens[..i];
        if mtoken in macro.vars {
          if macro.vars[mtoken] >= |values| { return newtokens, false; }
          newtokens := newtokens + values[macro.vars[mtoken]];
        } else {
          newtokens := newtokens + [mtoken];
        }
      }
      assert macro.tokens[..|macro.tokens|] == macro.tokens;
    }

    method ExpandToken() returns (r: Progress)
      requires pos < |tokens|
      modifies this
      ensures r == Step(defines, old(tokens), old(pos))
      ensures r.At? ==> r == At(tokens, pos)
    {
      var token := tokens[pos];
      if token !in defines {
        pos := pos + 1;
        return At(tokens, pos);
      }
      var macro := defines[token];
      if |macro.vars.Keys| == 0 {
        tokens := tokens[..pos] + macro.tokens + tokens[pos + 1..];
        return At(tokens, pos);
      }
      assert macro.vars != map[];
      r := ExpandCall(macro);
    }

    /** The branch for a macro with arguments. */
    method ExpandCall(macro: Macro) returns (r: Progress)
      requires pos < |tokens| && tokens[pos] in defines && defines[tokens[pos]] == macro && macro.vars != map[]
      modifies this
      ensures r == Step(defines, old(tokens), old(pos))
      ensures r.At? ==> r == At(tokens, pos)
    {
      var call := ParseValues();
      if !call.Values? { return Stopped(call); }
      CallWithin(tokens[pos + 1..]);
      var newtokens, ok := Replace(macro, call.values);
      if !ok { return IndexError; }
      tokens := tokens[..pos] + newtokens + tokens[pos + 1 + call.last..];
      r := At(tokens, pos);
    }
  }

  lemma Seen(ts: seq<Token>, i: nat)
    requires i < |ts| && ")" !in ts[..i]
    ensures ts[..i + 1] == ts[..i] + [ts[i]] && ts[..i + 1][..i] == ts[..i]
    ensures Count(ts[..i], "(") == 1 ==> "(" in ts[..i]
    ensures Count(ts[..i], "(") == 0 ==> "(" !in ts[..i]
  {
    CountIn(ts[..i], "(");
  }

  lemma {:induction false} FirstIs(ts: seq<Token>, tk: Token, i: nat)
    requires i < |ts| && ts[i] == tk && tk !in ts[..i]
    ensures First(ts, tk) == i
  {
    if i > 0 {
      assert ts[..i] == [ts[0]] + ts[1..][..i - 1];
      FirstIs(ts[1..], tk, i - 1);
    }
  }

  /** The values and the open one, behind the tokens seen. */
  predicate Scanned(seen: seq<Token>, scope: nat, pieces: seq<seq<Token>>) {
    && scope == Count(seen, "(")
    && (scope == 0 ==> "(" !in seen && pieces == Split(seen))
    && (scope == 1 ==> "(" in seen && pieces == Arguments(seen))
  }

  lemma ScanStep(seen: seq<Token>, scope: nat, values: seq<seq<Token>>, value: seq<Token>, tk: Token)
    requires Scanned(seen, scope, values + [value])
    ensures
      if tk == "(" then Scanned(seen + [tk], scope + 1, values + [[]])
      else if tk == "," then Scanned(seen + [tk], scope, values + [value] + [[]])
      else Scanned(seen + [tk], scope, values + [value + [tk]])
  {
    var pieces, n := values + [value], |values|;
    assert (seen + [tk])[..|seen|] == seen;
    assert pieces[n := value + [tk]] == values + [value + [tk]] && pieces[..n] == values;
    if tk == "(" && scope == 0 {
      OpenArguments(seen, values, pieces);
    } else if scope == 1 && tk != "(" {
      ArgumentsAppend(seen, tk);
    }
  }

  lemma OpenArguments(ts: seq<Token>, values: seq<seq<Token>>, pieces: seq<seq<Token>>)
    requires "(" !in ts && pieces == Split(ts) && values == pieces[..|pieces| - 1]
    ensures "(" in ts + ["("] && values + [[]] == Arguments(ts + ["("])
  {
    PartsOfFirst(ts, "(");
    assert Split([]) == [[]];
  }

  /** Without formal arguments this is the expander of module MacroExpander. */
  lemma AgreesOnPlainMacros(defs: map<Token, Macro>, tokens: seq<Token>, pos: nat)
    requires pos < |tokens| && forall name :: name in defs ==> defs[name].vars == map[]
    ensures var plain := map name | name in defs :: defs[name].tokens;
      var next := MacroExpander.Step(plain, tokens, pos); Step(defs, tokens, pos) == At(next.0, next.1)
  {
  }
}
