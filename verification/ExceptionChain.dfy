/**
 The exceptions of a service constructor (patches/mono/climaker_csharp.cs): the declared
 exceptions are reduced in place to the topmost ones, and from these a chain of catch
 handlers is emitted around the call that creates the service.
 */
module ExceptionChain {
  import opened Wrappers

  /** A class with its base class. */
  datatype Class = Class(name: string, base: Option<Class>)

  const OBJECT := Class("System.Object", None)
  const SYSTEM_EXCEPTION := Class("System.Exception", Some(OBJECT))
  const UNO_EXCEPTION := Class("unoidl.com.sun.star.uno.Exception", Some(SYSTEM_EXCEPTION))
  const RUNTIME_EXCEPTION := Class("unoidl.com.sun.star.uno.RuntimeException", Some(UNO_EXCEPTION))

  /** The class of the objects that stand for types. */
  const RUNTIME_TYPE :=
    Class("System.RuntimeType", Some(Class("System.Type", Some(Class("System.Reflection.MemberInfo", Some(OBJECT))))))

  predicate IsSubclassOf(t: Class, u: Class) {
    t.base.Some? && (t.base.value == u || IsSubclassOf(t.base.value, u))
  }

  /** What a catch clause for u catches. */
  predicate Is(t: Class, u: Class) { t == u || IsSubclassOf(t, u) }

  lemma {:induction false} SubclassTransitive(t: Class, u: Class, v: Class)
    requires IsSubclassOf(t, u) && IsSubclassOf(u, v)
    ensures IsSubclassOf(t, v)
  {
    if t.base.value != u { SubclassTransitive(t.base.value, u, v); }
  }

  lemma {:induction false} SubclassSmaller(t: Class, u: Class)
    requires IsSubclassOf(t, u)
    ensures u < t
  {
    if t.base.value != u { SubclassSmaller(t.base.value, u); }
  }

  // ----------------------------------------------------------------- the reduction

  predicate HasSuper(t: Class, types: seq<Class>) {
    exists j :: 0 <= j < |types| && IsSubclassOf(t, types[j])
  }

  /** The types of the list, in order, that have no strict superclass in all. */
  function Topmost(types: seq<Class>, all: seq<Class>): seq<Class> {
    if types == [] then []
    else (if HasSuper(types[0], all) then [] else [types[0]]) + Topmost(types[1..], all)
  }

  lemma {:induction false} TopmostHas(types: seq<Class>, all: seq<Class>, t: Class)
    ensures t in Topmost(types, all) <==> t in types && !HasSuper(t, all)
    decreases |types|
  {
    if types != [] {
      assert types == [types[0]] + types[1..];
      TopmostHas(types[1..], all, t);
    }
  }

  lemma {:induction false} TopmostSnoc(types: seq<Class>, all: seq<Class>, t: Class)
    ensures Topmost(types + [t], all) == Topmost(types, all) + if HasSuper(t, all) then [] else [t]
    decreases |types|
  {
    if types == [] {
      assert [t][1..] == [];
    } else {
      assert (types + [t])[1..] == types[1..] + [t];
      TopmostSnoc(types[1..], all, t);
    }
  }

  /** The topmost types stand in the order of the list: places are where they stood. */
  lemma {:induction false} TopmostInOrder(types: seq<Class>, all: seq<Class>) returns (places: seq<nat>)
    ensures |places| == |Topmost(types, all)|
    ensures forall k :: 0 <= k < |places| ==> places[k] < |types| && Topmost(types, all)[k] == types[places[k]]
    ensures forall j, k :: 0 <= j < k < |places| ==> places[j] < places[k]
    ensures forall i: nat :: i < |types| ==> (i in places <==> !HasSuper(types[i], all))
    decreases |types|
  {
    places := [];
    if types != [] {
      var n := |types| - 1;
      var front := types[..n];
      places := TopmostInOrder(front, all);
      assert types == front + [types[n]];
      TopmostSnoc(front, all, types[n]);
      forall i: nat | i < n ensures i in places <==> !HasSuper(types[i], all) { assert front[i] == types[i]; }
      if !HasSuper(types[n], all) { places := places + [n]; }
    }
  }

  /** A type with a superclass in the list has a topmost superclass there. */
  lemma {:induction false} TopSuper(t: Class, all: seq<Class>) returns (top: Class)
    requires HasSuper(t, all)
    ensures top in all && IsSubclassOf(t, top) && !HasSuper(top, all)
    decreases t
  {
    var j :| 0 <= j < |all| && IsSubclassOf(t, all[j]);
    top := all[j];
    if HasSuper(top, all) {
      SubclassSmaller(t, top);
      var higher := TopSuper(top, all);
      SubclassTransitive(t, top, higher);
      top := higher;
    }
  }

  /** Removing types that have a superclass does not change which types have one. */
  lemma SameSupers(t: Class, all: seq<Class>, kept: seq<Class>)
    requires forall u :: u in kept ==> u in all
    requires forall u :: u in all && !HasSuper(u, all) ==> u in kept
    ensures HasSuper(t, kept) <==> HasSuper(t, all)
  {
    if HasSuper(t, all) {
      var top := TopSuper(t, all);
      var j :| 0 <= j < |kept| && kept[j] == top;
    }
    if HasSuper(t, kept) {
      var j :| 0 <= j < |kept| && IsSubclassOf(t, kept[j]);
      assert kept[j] in all;
    }
  }

  /** types[..start] is what is kept of the first k types, the rest is not yet looked at. */
  ghost predicate Reduced(types: seq<Class>, start: nat, k: nat, all: seq<Class>) {
    k <= |all| && types == Topmost(all[..k], all) + all[k..] && start == |Topmost(all[..k], all)|
  }

  /** The list is shortened in place until no type has a superclass in it. */
  method ReduceExceptions(exceptionTypes: seq<Class>) returns (types: seq<Class>)
    ensures types == Topmost(exceptionTypes, exceptionTypes)
  {
    types := exceptionTypes;
    var start := 0;
    ghost var k := 0;
    ReducedFirst(exceptionTypes);
    while true
      invariant start >= 0 && k >= 0 && start <= |types| && Reduced(types, start, k, exceptionTypes)
      decreases |types| - start
    {
      var bRemove;
      types, start, bRemove, k := RemoveNext(types, start, exceptionTypes, k);
      if !bRemove { break; }
    }
    ReducedLast(types, k, exceptionTypes);
  }

  /** From start on, the first type with a superclass in the list is removed. */
  method RemoveNext(before: seq<Class>, from: nat, ghost all: seq<Class>, ghost seen: nat)
    returns (types: seq<Class>, start: nat, bRemove: bool, ghost k: nat)
    requires Reduced(before, from, seen, all) && from <= |before|
    ensures Reduced(types, start, k, all) && start <= |types|
    ensures if bRemove then |types| - start < |before| - from else start == |types|
  {
    types, start, bRemove, k := before, from, false, seen;
    var i := start;
    while i < |types|
      invariant i == start <= |types| && start >= from && types == before && !bRemove && Reduced(types, start, k, all)
    {
      var t := types[i];
      ReduceStep(all, k, types, start);
      var j := FindSuper(t, types);
      k := k + 1;
      if j < |types| {
        types := types[..i] + types[i + 1..];
        bRemove := true;
        return;
      }
      start := start + 1;
      i := i + 1;
    }
  }

  lemma ReducedFirst(all: seq<Class>)
    ensures Reduced(all, 0, 0, all)
  {
    assert all[..0] == [] && all[0..] == all;
  }

  lemma ReducedLast(types: seq<Class>, k: nat, all: seq<Class>)
    requires Reduced(types, |types|, k, all)
    ensures types == Topmost(all, all)
  {
    assert k == |all| && all[..k] == all && all[k..] == [];
  }

  /** The inner loop: a superclass of t in the list, or its length when there is none. */
  method FindSuper(t: Class, types: seq<Class>) returns (j: nat)
    ensures j <= |types| && (j < |types| <==> HasSuper(t, types))
  {
    j := 0;
    while j < |types|
      invariant 0 <= j <= |types| && forall i :: 0 <= i < j ==> !IsSubclassOf(t, types[i])
    {
      if IsSubclassOf(t, types[j]) { return; }
      j := j + 1;
    }
  }

  lemma ReduceStep(all: seq<Class>, k: nat, types: seq<Class>, start: nat)
    requires Reduced(types, start, k, all) && start < |types|
    ensures k < |all| && types[start] == all[k]
    ensures HasSuper(types[start], types) ==> Reduced(types[..start] + types[start + 1..], start, k + 1, all)
    ensures !HasSuper(types[start], types) ==> Reduced(types, start + 1, k + 1, all)
  {
    var kept, t, rest := Topmost(all[..k], all), all[k], all[k + 1..];
    assert all[k..] == [t] + rest && all == all[..k] + all[k..];
    assert types == kept + [t] + rest;
    forall u | u in types ensures u in all { TopmostHas(all[..k], all, u); }
    forall u | u in all && !HasSuper(u, all) ensures u in types { TopmostHas(all[..k], all, u); }
    SameSupers(t, all, types);
    assert all[..k + 1] == all[..k] + [t];
    TopmostSnoc(all[..k], all, t);
    CutOut(kept, t, rest);
  }

  lemma CutOut(kept: seq<Class>, t: Class, rest: seq<Class>)
    ensures var types := kept + [t] + rest; types[..|kept|] + types[|kept| + 1..] == kept + rest
  {}

  // ------------------------------------------------------------------ the handlers

  datatype Action = Rethrow | ThrowDeployment

  datatype Handler = Handler(type_: Class, action: Action)

  /** None: no exception block is emitted at all. */
  type Chain = Option<seq<Handler>>

  predicate IsInstanceOfType(t: Class, objectClass: Class) { Is(objectClass, t) }

  function HandlersFor(types: seq<Class>): seq<Handler> {
    if types == [] then []
    else HandlersFor(types[..|types| - 1]) + [Handler(types[|types| - 1], Rethrow)]
  }

  method EmitHandlers(declared: seq<Class>) returns (chain: Chain)
    requires forall t :: t in declared ==> Is(t, UNO_EXCEPTION)
    ensures chain == ChainFor(declared)
  {
    var exceptionTypes := ReduceExceptions(declared);
    if UNO_EXCEPTION in exceptionTypes { return None; }
    var handlers := [Handler(RUNTIME_EXCEPTION, Rethrow)];
    for j := 0 to |exceptionTypes|
      invariant handlers == [Handler(RUNTIME_EXCEPTION, Rethrow)] + HandlersFor(exceptionTypes[..j])
    {
      var excType := exceptionTypes[j];
      assert exceptionTypes[..j + 1][..j] == exceptionTypes[..j];
      TopmostHas(declared, declared, excType);
      NotATypeObject(excType);
      if IsInstanceOfType(excType, RUNTIME_TYPE) { continue; }
      handlers := handlers + [Handler(excType, Rethrow)];
    }
    assert exceptionTypes[..|exceptionTypes|] == exceptionTypes;
    handlers := handlers + [Handler(UNO_EXCEPTION, ThrowDeployment)];
    return Some(handlers);
  }

  function ChainFor(declared: seq<Class>): Chain {
    var types := Topmost(declared, declared);
    if UNO_EXCEPTION in types then None
    else Some([Handler(RUNTIME_EXCEPTION, Rethrow)] + HandlersFor(types) + [Handler(UNO_EXCEPTION, ThrowDeployment)])
  }

  /** The test that should skip a second handler for RuntimeException asks about the type
      object instead of the type, so it is never true of an exception. */
  lemma NotATypeObject(t: Class)
    requires Is(t, UNO_EXCEPTION)
    ensures !IsInstanceOfType(t, RUNTIME_TYPE)
  {
    if IsInstanceOfType(t, RUNTIME_TYPE) && t != UNO_EXCEPTION {
      if t != RUNTIME_TYPE { SubclassTransitive(RUNTIME_TYPE, t, UNO_EXCEPTION); }
    }
  }

  /** The first handler that catches the exception; None when none does. */
  function Dispatch(handlers: seq<Handler>, thrown: Class): Option<Action> {
    if handlers == [] then None
    else if Is(thrown, handlers[0].type_) then Some(handlers[0].action)
    else Dispatch(handlers[1..], thrown)
  }

  /** The caller sees a DeploymentException instead of the exception thrown. */
  predicate Replaced(chain: Chain, thrown: Class) {
    chain.Some? && Dispatch(chain.value, thrown) == Some(ThrowDeployment)
  }

  lemma {:induction false} DispatchAppend(a: seq<Handler>, b: seq<Handler>, thrown: Class)
    ensures Dispatch(a + b, thrown) == if Dispatch(a, thrown) == None then Dispatch(b, thrown) else Dispatch(a, thrown)
    decreases |a|
  {
    if a == [] {
      assert a + b == b;
    } else {
      assert (a + b)[1..] == a[1..] + b;
      DispatchAppend(a[1..], b, thrown);
    }
  }

  lemma {:induction false} DispatchDeclared(types: seq<Class>, thrown: Class)
    ensures Dispatch(HandlersFor(types), thrown)
         == if exists t :: t in types && Is(thrown, t) then Some(Rethrow) else None
    decreases |types|
  {
    if types != [] {
      var front, last := types[..|types| - 1], types[|types| - 1];
      assert types == front + [last];
      DispatchDeclared(front, thrown);
      DispatchAppend(HandlersFor(front), [Handler(last, Rethrow)], thrown);
      assert [Handler(last, Rethrow)][1..] == [];
    }
  }

  /** The reduced list catches what the declared list does. */
  lemma TopmostCatches(declared: seq<Class>, thrown: Class)
    ensures (exists t :: t in Topmost(declared, declared) && Is(thrown, t))
       <==> (exists t :: t in declared && Is(thrown, t))
  {
    if t :| t in declared && Is(thrown, t) {
      var top := t;
      if HasSuper(t, declared) {
        top := TopSuper(t, declared);
        if thrown != t { SubclassTransitive(thrown, t, top); }
      }
      TopmostHas(declared, declared, top);
      assert top in Topmost(declared, declared) && Is(thrown, top);
    }
    if t :| t in Topmost(declared, declared) && Is(thrown, t) { TopmostHas(declared, declared, t); }
  }

  /** A UNO exception passes if and only if it is a RuntimeException or a subclass of some
      declared type; any other becomes a DeploymentException. Other exceptions pass. */
  lemma ChainLetsThrough(declared: seq<Class>, thrown: Class)
    requires forall t :: t in declared ==> Is(t, UNO_EXCEPTION)
    ensures Replaced(ChainFor(declared), thrown)
       <==> Is(thrown, UNO_EXCEPTION) && !Is(thrown, RUNTIME_EXCEPTION)
            && !exists t :: t in declared && Is(thrown, t)
  {
    var types := Topmost(declared, declared);
    TopmostCatches(declared, thrown);
    TopmostHas(declared, declared, UNO_EXCEPTION);
    if UNO_EXCEPTION !in types {
      var first, middle := [Handler(RUNTIME_EXCEPTION, Rethrow)], HandlersFor(types);
    var final := [Handler(UNO_EXCEPTION, ThrowDeployment)];
      DispatchAppend(first + middle, final, thrown);
      DispatchAppend(first, middle, thrown);
      DispatchDeclared(types, thrown);
      assert first[1..] == [] && final[1..] == [];
    } else {
      assert UNO_EXCEPTION in declared;
    }
  }
}
