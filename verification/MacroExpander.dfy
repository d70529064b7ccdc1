/**
 The macro expander (scratch/layout-src2xml/source/srcparser.py): it replaces a defined
 token in place by the tokens of its macro and looks at the same position again. Macros
 here have no arguments; a macro is the list of its tokens.
 */
module MacroExpander {

  type Token = string

  type Defines = map<Token, seq<Token>>

  // ------------------------------------------------------------ nesting of macros

  /** Every chain of macros from tk ends within n replacements. */
  predicate Bounded(defs: Defines, tk: Token, n: nat)
    decreases n, 0
  {
    tk !in defs || (n > 0 && AllBounded(defs, defs[tk], n - 1))
  }

  predicate AllBounded(defs: Defines, tokens: seq<Token>, n: nat)
    decreases n, 1
  {
    forall i :: 0 <= i < |tokens| ==> Bounded(defs, tokens[i], n)
  }

  /** No chain of macros from tk returns to a macro of its path: a search in depth. */
  predicate NoCycle(defs: Defines, tk: Token, path: set<Token>)
    decreases defs.Keys - path
  {
    tk !in defs ||
    (tk !in path && (assert tk in defs.Keys - path;
                     forall i :: 0 <= i < |defs[tk]| ==> NoCycle(defs, defs[tk][i], path + {tk})))
  }

  predicate Acyclic(defs: Defines, tokens: seq<Token>) {
    forall i :: 0 <= i < |tokens| ==> NoCycle(defs, tokens[i], {})
  }

  lemma {:induction false} BoundedMore(defs: Defines, tk: Token, n: nat, m: nat)
    requires Bounded(defs, tk, n) && n <= m
    ensures Bounded(defs, tk, m)
    decreases n
  {
    if tk in defs {
      var body := defs[tk];
      forall i | 0 <= i < |body| ensures Bounded(defs, body[i], m - 1) { BoundedMore(defs, body[i], n - 1, m - 1); }
    }
  }

  lemma {:induction false} NoCycleBounded(defs: Defines, tk: Token, path: set<Token>)
    requires NoCycle(defs, tk, path)
    ensures Bounded(defs, tk, |defs.Keys - path|)
    decreases defs.Keys - path
  {
    if tk in defs {
      var body, rest := defs[tk], defs.Keys - (path + {tk});
      assert defs.Keys - path == rest + {tk};
      forall i | 0 <= i < |body| ensures Bounded(defs, body[i], |rest|) { NoCycleBounded(defs, body[i], path + {tk}); }
    }
  }

  /** Conversely, a bound excludes cycles: what is on the path nests deeper than n. */
  lemma {:induction false} BoundedNoCycle(defs: Defines, tk: Token, n: nat, path: set<Token>)
    requires Bounded(defs, tk, n)
    requires forall p :: p in path ==> !Bounded(defs, p, n)
    ensures NoCycle(defs, tk, path)
    decreases n
  {
    if tk in defs {
      var body := defs[tk];
      if n > 0 && Bounded(defs, tk, n - 1) {
        forall p | p in path ensures !Bounded(defs, p, n - 1) {
          if Bounded(defs, p, n - 1) { BoundedMore(defs, p, n - 1, n); }
        }
        BoundedNoCycle(defs, tk, n - 1, path);
      } else {
        forall p | p in path + {tk} ensures !Bounded(defs, p, n - 1) {
          if Bounded(defs, p, n - 1) { BoundedMore(defs, p, n - 1, n); }
        }
        forall i | 0 <= i < |body| ensures NoCycle(defs, body[i], path + {tk}) {
          BoundedNoCycle(defs, body[i], n - 1, path + {tk});
        }
      }
    }
  }

  /** The search answers whether the nesting has a bound. */
  lemma AcyclicIffBounded(defs: Defines, tokens: seq<Token>)
    ensures Acyclic(defs, tokens) <==> exists n: nat :: AllBounded(defs, tokens, n)
  {
    if Acyclic(defs, tokens) {
      AcyclicBounded(defs, tokens);
      assert AllBounded(defs, tokens, |defs|);
    }
    if exists n: nat :: AllBounded(defs, tokens, n) {
      var n: nat :| AllBounded(defs, tokens, n);
      forall i | 0 <= i < |tokens| ensures NoCycle(defs, tokens[i], {}) { BoundedNoCycle(defs, tokens[i], n, {}); }
    }
  }

  lemma AcyclicBounded(defs: Defines, tokens: seq<Token>)
    requires Acyclic(defs, tokens)
    ensures AllBounded(defs, tokens, |defs|)
  {
    assert defs.Keys - {} == defs.Keys && |defs.Keys| == |defs|;
    forall i | 0 <= i < |tokens| ensures Bounded(defs, tokens[i], |defs|) { NoCycleBounded(defs, tokens[i], {}); }
  }

  // ------------------------------------------------------------- the full expansion

  function Expansion(defs: Defines, tk: Token, n: nat): seq<Token>
    requires Bounded(defs, tk, n)
    decreases n, 0
  {
    if tk !in defs then [tk] else ExpandAll(defs, defs[tk], n - 1)
  }

  function ExpandAll(defs: Defines, tokens: seq<Token>, n: nat): seq<Token>
    requires AllBounded(defs, tokens, n)
    decreases n, 1, |tokens|
  {
    if tokens == [] then [] else Expansion(defs, tokens[0], n) + ExpandAll(defs, tokens[1..], n)
  }

  /** Every token replaced, recursively, by the expansion of its macro. */
  function FullExpansion(defs: Defines, tokens: seq<Token>): seq<Token>
    requires Acyclic(defs, tokens)
  {
    AcyclicBounded(defs, tokens);
    ExpandAll(defs, tokens, |defs|)
  }

  /** Steps the expander spends on a token: one to replace it or to pass it. */
  function Weight(defs: Defines, tk: Token, n: nat): nat
    requires Bounded(defs, tk, n)
    decreases n, 0
  {
    1 + if tk !in defs then 0 else WeightAll(defs, defs[tk], n - 1)
  }

  function WeightAll(defs: Defines, tokens: seq<Token>, n: nat): nat
    requires AllBounded(defs, tokens, n)
    decreases n, 1, |tokens|
  {
    if tokens == [] then 0 else Weight(defs, tokens[0], n) + WeightAll(defs, tokens[1..], n)
  }

  /** A larger bound changes neither the expansion nor the weight. */
  lemma {:induction false} SameForMore(defs: Defines, tokens: seq<Token>, n: nat, m: nat)
    requires AllBounded(defs, tokens, n) && n <= m
    ensures AllBounded(defs, tokens, m)
    ensures ExpandAll(defs, tokens, n) == ExpandAll(defs, tokens, m)
    ensures WeightAll(defs, tokens, n) == WeightAll(defs, tokens, m)
    decreases n, |tokens|
  {
    forall i | 0 <= i < |tokens| ensures Bounded(defs, tokens[i], m) { BoundedMore(defs, tokens[i], n, m); }
    if tokens != [] {
      if tokens[0] in defs { SameForMore(defs, defs[tokens[0]], n - 1, m - 1); }
      SameForMore(defs, tokens[1..], n, m);
    }
  }

  lemma {:induction false} Append(defs: Defines, a: seq<Token>, b: seq<Token>, n: nat)
    requires AllBounded(defs, a, n) && AllBounded(defs, b, n)
    ensures AllBounded(defs, a + b, n)
    ensures ExpandAll(defs, a + b, n) == ExpandAll(defs, a, n) + ExpandAll(defs, b, n)
    ensures WeightAll(defs, a + b, n) == WeightAll(defs, a, n) + WeightAll(defs, b, n)
    decreases |a|
  {
    if a == [] {
      assert a + b == b;
    } else {
      assert (a + b)[1..] == a[1..] + b;
      Append(defs, a[1..], b, n);
    }
  }

  lemma {:induction false} ExpandAllClean(defs: Defines, tokens: seq<Token>, n: nat)
    requires AllBounded(defs, tokens, n)
    ensures forall tk :: tk in ExpandAll(defs, tokens, n) ==> tk !in defs
    decreases n, |tokens|
  {
    if tokens != [] {
      if tokens[0] in defs { ExpandAllClean(defs, defs[tokens[0]], n - 1); }
      ExpandAllClean(defs, tokens[1..], n);
    }
  }

  /** No defined name is left in a full expansion. */
  lemma FullExpansionClean(defs: Defines, tokens: seq<Token>)
    requires Acyclic(defs, tokens)
    ensures forall tk :: tk in FullExpansion(defs, tokens) ==> tk !in defs
  {
    AcyclicBounded(defs, tokens);
    ExpandAllClean(defs, tokens, |defs|);
  }

  /** The expansion of a list is that of its parts, in order. */
  lemma ExpansionOfParts(defs: Defines, a: seq<Token>, b: seq<Token>)
    requires Acyclic(defs, a + b)
    ensures Acyclic(defs, a) && Acyclic(defs, b)
    ensures FullExpansion(defs, a + b) == FullExpansion(defs, a) + FullExpansion(defs, b)
  {
    forall i | 0 <= i < |a| ensures NoCycle(defs, a[i], {}) { assert (a + b)[i] == a[i]; }
    forall i | 0 <= i < |b| ensures NoCycle(defs, b[i], {}) { assert (a + b)[|a| + i] == b[i]; }
    AcyclicBounded(defs, a);
    AcyclicBounded(defs, b);
    Append(defs, a, b, |defs|);
  }

  lemma BodyAcyclic(defs: Defines, tk: Token)
    requires tk in defs && NoCycle(defs, tk, {})
    ensures Acyclic(defs, defs[tk])
  {
    var body := defs[tk];
    forall i | 0 <= i < |body| ensures NoCycle(defs, body[i], {}) {
      NoCycleBounded(defs, body[i], {} + {tk});
      BoundedNoCycle(defs, body[i], |defs.Keys - ({} + {tk})|, {});
    }
  }

  /** A macro expands to the expansion of its tokens, any other token to itself. With the
      expansion of parts this leaves one expansion for each list. */
  lemma ExpansionOfToken(defs: Defines, tk: Token)
    requires Acyclic(defs, [tk])
    ensures FullExpansion(defs, []) == []
    ensures tk !in defs ==> FullExpansion(defs, [tk]) == [tk]
    ensures tk in defs ==> Acyclic(defs, defs[tk]) && FullExpansion(defs, [tk]) == FullExpansion(defs, defs[tk])
  {
    var n := |defs|;
    AcyclicBounded(defs, [tk]);
    assert [tk][0] == tk && NoCycle(defs, [tk][0], {}) && Bounded(defs, [tk][0], n);
    assert [tk][1..] == [];
    assert ExpandAll(defs, [tk], n) == Expansion(defs, tk, n) + [] == Expansion(defs, tk, n);
    if tk in defs {
      BodyAcyclic(defs, tk);
      AcyclicBounded(defs, defs[tk]);
      SameForMore(defs, defs[tk], n - 1, n);
    }
  }

  // ------------------------------------------------------------------- the expander

  /** One step: pass the token at pos, or replace it and stay. */
  function Step(defs: Defines, tokens: seq<Token>, pos: nat): (seq<Token>, nat)
    requires pos < |tokens|
  {
    if tokens[pos] !in defs then (tokens, pos + 1)
    else (tokens[..pos] + defs[tokens[pos]] + tokens[pos + 1..], pos)
  }

  /** What a step does to the tokens still ahead. */
  lemma StepAhead(defs: Defines, tokens: seq<Token>, pos: nat, n: nat)
    requires pos < |tokens| && AllBounded(defs, tokens[pos..], n)
    ensures var s := Step(defs, tokens, pos);
      && s.1 <= |s.0| && AllBounded(defs, s.0[s.1..], n)
      && WeightAll(defs, s.0[s.1..], n) == WeightAll(defs, tokens[pos..], n) - 1
      && s.0[..s.1] + ExpandAll(defs, s.0[s.1..], n) == tokens[..pos] + ExpandAll(defs, tokens[pos..], n)
  {
    var tk, rest := tokens[pos], tokens[pos + 1..];
    assert tokens[pos..][0] == tk && tokens[pos..][1..] == rest;
    assert AllBounded(defs, rest, n) by {
      forall i | 0 <= i < |rest| ensures Bounded(defs, rest[i], n) { assert rest[i] == tokens[pos..][i + 1]; }
    }
    assert Bounded(defs, tk, n);
    var (next, at) := Step(defs, tokens, pos);
    if tk !in defs {
      assert next[..at] + ExpandAll(defs, rest, n) == tokens[..pos] + ([tk] + ExpandAll(defs, rest, n));
    } else {
      var body := defs[tk];
      assert next[at..] == body + rest && next[..at] == tokens[..pos];
      SameForMore(defs, body, n - 1, n);
      Append(defs, body, rest, n);
    }
  }

  class Expander {
    var tokens: seq<Token>
    const defines: Defines
    var pos: nat

    constructor (tokens: seq<Token>, defines: Defines)
      ensures this.tokens == tokens && this.defines == defines
    {
      this.tokens, this.defines, pos := tokens, defines, 0;
    }

    method ExpandToken()
      requires pos < |tokens|
      modifies this
      ensures (tokens, pos) == Step(defines, old(tokens), old(pos))
    {
      var token := tokens[pos];
      if token !in defines {
        pos := pos + 1;
        return;
      }
      tokens := tokens[..pos] + defines[token] + tokens[pos + 1..];
    }

    /** Ends when no chain of macros is cyclic, with the full recursive expansion. */
    method Expand()
      requires Acyclic(defines, tokens)
      modifies this
      ensures tokens == FullExpansion(defines, old(tokens))
      ensures forall tk :: tk in tokens ==> tk !in defines
    {
      ghost var n := |defines|;
      AcyclicBounded(defines, tokens);
      FullExpansionClean(defines, tokens);
      pos := 0;
      assert tokens[0..] == tokens;
      while pos < |tokens|
        invariant pos <= |tokens| && AllBounded(defines, tokens[pos..], n)
        invariant tokens[..pos] + ExpandAll(defines, tokens[pos..], n) == FullExpansion(defines, old(tokens))
        decreases WeightAll(defines, tokens[pos..], n)
      {
        StepAhead(defines, tokens, pos, n);
        ExpandToken();
      }
    }
  }

  // -------------------------------------------------------- when the expander ends

  /** The loop is over after at most k steps. */
  predicate EndsWithin(defs: Defines, tokens: seq<Token>, pos: nat, k: nat)
    decreases k
  {
    pos >= |tokens| || (k > 0 && var s := Step(defs, tokens, pos); EndsWithin(defs, s.0, s.1, k - 1))
  }

  /** The weight is the exact number of steps. */
  lemma {:induction false} EndsByWeight(defs: Defines, tokens: seq<Token>, pos: nat, n: nat, k: nat)
    requires pos <= |tokens| && AllBounded(defs, tokens[pos..], n)
    ensures EndsWithin(defs, tokens, pos, k) <==> k >= WeightAll(defs, tokens[pos..], n)
    decreases k
  {
    if pos < |tokens| {
      StepAhead(defs, tokens, pos, n);
      if k > 0 {
        var s := Step(defs, tokens, pos);
        EndsByWeight(defs, s.0, s.1, n, k - 1);
      }
    }
  }

  lemma {:induction false} EndsMeansBounded(defs: Defines, tokens: seq<Token>, pos: nat, k: nat)
    requires pos <= |tokens| && EndsWithin(defs, tokens, pos, k)
    ensures AllBounded(defs, tokens[pos..], k)
    decreases k
  {
    if pos < |tokens| {
      var tk, ahead := tokens[pos], tokens[pos..];
      var s := Step(defs, tokens, pos);
      EndsMeansBounded(defs, s.0, s.1, k - 1);
      var rest := s.0[s.1..];
      var skip := if tk in defs then |defs[tk]| else 0;
      forall i | 0 <= i < |ahead| ensures Bounded(defs, ahead[i], k) {
        if i > 0 {
          assert ahead[i] == rest[skip + i - 1];
          BoundedMore(defs, ahead[i], k - 1, k);
        } else if tk in defs {
          var body := defs[tk];
          forall j | 0 <= j < |body| ensures Bounded(defs, body[j], k - 1) { assert rest[j] == body[j]; }
        }
      }
    }
  }

  /** The expander ends exactly when no token leads to a cyclic macro. */
  lemma EndsIffAcyclic(defs: Defines, tokens: seq<Token>)
    ensures (exists k: nat :: EndsWithin(defs, tokens, 0, k)) <==> Acyclic(defs, tokens)
  {
    assert tokens[0..] == tokens;
    if exists k: nat :: EndsWithin(defs, tokens, 0, k) {
      var k: nat :| EndsWithin(defs, tokens, 0, k);
      EndsMeansBounded(defs, tokens, 0, k);
      assert AllBounded(defs, tokens, k);
      AcyclicIffBounded(defs, tokens);
    }
    if Acyclic(defs, tokens) {
      AcyclicBounded(defs, tokens);
      var k := WeightAll(defs, tokens, |defs|);
      EndsByWeight(defs, tokens, 0, |defs|, k);
      assert EndsWithin(defs, tokens, 0, k);
    }
  }
}
