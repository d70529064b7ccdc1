/**
 The worklist that completes interface types in the type compiler
 (patches/mono/climaker_csharp.cs): asking for an interface defines it and all its bases as
 incomplete; completing one first completes its bases, then emits its members, which may
 ask for further interfaces.
 */
module InterfaceWorklist {
  import opened Wrappers

  type Name = string

  const X_INTERFACE: Name := "com.sun.star.uno.XInterface"

  /** Base interfaces, and the interfaces that the members mention. */
  datatype Iface = Iface(bases: seq<Name>, mentions: seq<Name>)

  datatype World = World(ifaces: map<Name, Iface>, external: set<Name>)
  {
    /** Types that need no definition: System.Object, and types of referenced assemblies. */
    predicate Given(n: Name) { n == X_INTERFACE || n in external }

    predicate Known(n: Name) { Given(n) || n in ifaces }

    /** All mentioned interfaces are described, and no interface is its own base. */
    ghost predicate WellFormed(rank: Name -> nat) {
      forall n :: n in ifaces ==>
        && (forall b :: b in ifaces[n].bases ==> Known(b) && (!Given(b) ==> rank(b) < rank(n)))
        && (forall m :: m in ifaces[n].mentions ==> Known(m))
    }

    /** With an interface, all interfaces it needs are in the set. */
    ghost predicate Closed(s: set<Name>) {
      forall n :: n in s && n in ifaces ==>
        && (forall b :: b in ifaces[n].bases ==> Given(b) || b in s)
        && (forall m :: m in ifaces[n].mentions ==> Given(m) || m in s)
    }

    /** Requests for the interfaces of start lead to n. */
    ghost predicate Needed(start: set<Name>, n: Name) {
      forall s :: Closed(s) && start <= s ==> n in s
    }

    /** Between before and after nothing was defined that the request does not need. */
    ghost predicate OnlyNeeded(before: set<Name>, after: set<Name>, request: set<Name>) {
      forall s :: Closed(s) && request <= s ==> after - before <= s
    }

    predicate AllMade(names: seq<Name>, created: seq<Name>) {
      forall b :: b in names ==> Given(b) || b in created
    }

    lemma MadeMore(bases: seq<Name>, i: nat, before: seq<Name>, after: seq<Name>)
      requires i < |bases| && AllMade(bases[..i], before) && before <= after
      requires Given(bases[i]) || bases[i] in after
      ensures AllMade(bases[..i + 1], after)
    {
      assert bases[..i + 1] == bases[..i] + [bases[i]];
    }

    lemma OnlyNeededOn(d0: set<Name>, d1: set<Name>, d2: set<Name>)
      requires d0 <= d1 && OnlyNeeded(d0, d1, d0) && OnlyNeeded(d1, d2, d1)
      ensures OnlyNeeded(d0, d2, d0)
    {
      forall s | Closed(s) && d0 <= s ensures d2 - d0 <= s { assert d1 <= s; }
    }

    /** Two runs one after the other, the second for a name the first request leads to. */
    lemma OnlyNeededTwice(d0: set<Name>, d1: set<Name>, d2: set<Name>, request: set<Name>, next: set<Name>)
      requires OnlyNeeded(d0, d1, request) && OnlyNeeded(d1, d2, next)
      requires forall s :: Closed(s) && request <= s ==> next <= s || d1 == d2
      ensures OnlyNeeded(d0, d2, request)
    {
      forall s | Closed(s) && request <= s ensures d2 - d0 <= s {
        assert d1 - d0 <= s;
        if d1 != d2 { assert d2 - d1 <= s; }
      }
    }
  }

  lemma SmallerSet(a: set<Name>, b: set<Name>, n: Name)
    requires a <= b && n in b && n !in a
    ensures |a| < |b|
  {
    assert a <= b - {n};
    SubsetSize(a, b - {n});
  }

  lemma {:induction false} SubsetSize(a: set<Name>, b: set<Name>)
    requires a <= b
    ensures |a| <= |b|
    decreases a
  {
    if n :| n in a { SubsetSize(a - {n}, b - {n}); }
  }

  class TypeEmitter {
    const world: World
    ghost const rank: Name -> nat
    var incomplete: set<Name>
    var defined: set<Name>
    var created: seq<Name>  // in the order of the calls of CreateType

    constructor (world: World, ghost rank: Name -> nat)
      requires world.WellFormed(rank)
      ensures Valid() && this.world == world && defined == {}
    {
      this.world, this.rank := world, rank;
      incomplete, defined, created := {}, {}, [];
    }

    predicate Resolved(n: Name)
      reads this
    {
      world.Given(n) || n in defined
    }

    ghost predicate BasesFirst()
      reads this
    {
      forall i :: 0 <= i < |created| && created[i] in world.ifaces ==>
        forall b :: b in world.ifaces[created[i]].bases ==> world.Given(b) || b in created[..i]
    }

    /** Each defined type is either incomplete or was created once, after its bases. */
    ghost predicate Valid()
      reads this
    {
      && world.WellFormed(rank)
      && defined == incomplete + Elements(created) && incomplete !! Elements(created) && Distinct(created)
      && defined <= world.ifaces.Keys && (forall n :: n in defined ==> !world.Given(n))
      && BasesFirst()
      && (forall n :: n in defined ==> forall b :: b in world.ifaces[n].bases ==> Resolved(b))
      && (forall n :: n in created ==> forall m :: m in world.ifaces[n].mentions ==> Resolved(m))
    }

    method GetType(name: Name)
      requires Valid() && world.Known(name)
      modifies this`incomplete, this`defined
      ensures Valid() && Resolved(name)
      ensures old(defined) <= defined && incomplete == old(incomplete) + (defined - old(defined))
      ensures forall n :: n in defined - old(defined) ==> rank(n) <= rank(name)
      ensures world.OnlyNeeded(old(defined), defined, {name})
      ensures world.Given(name) ==> defined == old(defined)
      decreases if world.Given(name) then 0 else rank(name) + 1
    {
      if name == X_INTERFACE { return; }
      if name in world.external || name in defined { return; }
      var bases := world.ifaces[name].bases;
      for i := 0 to |bases|
        invariant Valid()
        invariant old(defined) <= defined && incomplete == old(incomplete) + (defined - old(defined))
        invariant forall n :: n in defined - old(defined) ==> rank(n) < rank(name)
        invariant forall j :: 0 <= j < i ==> Resolved(bases[j])
        invariant world.OnlyNeeded(old(defined), defined, {name})
      {
        ghost var before := defined;
        assert bases[i] in bases;
        if bases[i] != X_INTERFACE {
          GetType(bases[i]);
        }
        world.OnlyNeededTwice(old(defined), before, defined, {name}, {bases[i]});
      }
      Define(name);
    }

    method Define(name: Name)
      requires Valid() && name in world.ifaces && !world.Given(name) && name !in defined
      requires forall b :: b in world.ifaces[name].bases ==> Resolved(b)
      modifies this`incomplete, this`defined
      ensures Valid() && defined == old(defined) + {name} && incomplete == old(incomplete) + {name}
    {
      defined := defined + {name};
      incomplete := incomplete + {name};
    }

    /** The types of the members of an interface are asked for in turn. */
    method EmitMembers(name: Name)
      requires Valid() && name in defined
      modifies this`incomplete, this`defined
      ensures Valid() && forall m :: m in world.ifaces[name].mentions ==> Resolved(m)
      ensures old(defined) <= defined && incomplete == old(incomplete) + (defined - old(defined))
      ensures world.OnlyNeeded(old(defined), defined, {name})
    {
      var mentions := world.ifaces[name].mentions;
      for i := 0 to |mentions|
        invariant Valid()
        invariant old(defined) <= defined && incomplete == old(incomplete) + (defined - old(defined))
        invariant forall j :: 0 <= j < i ==> Resolved(mentions[j])
        invariant world.OnlyNeeded(old(defined), defined, {name})
      {
        ghost var before := defined;
        assert mentions[i] in mentions;
        GetType(mentions[i]);
        world.OnlyNeededTwice(old(defined), before, defined, {name}, {mentions[i]});
      }
    }

    /** Creates the type of an incomplete interface, after those of its bases. */
    method CompleteType(name: Name)
      requires Valid() && name in incomplete
      modifies this
      ensures Valid() && name in created && old(created) <= created && old(defined) <= defined
      ensures forall n :: n in created && n !in old(created) ==> rank(n) <= rank(name)
      ensures world.OnlyNeeded(old(defined), defined, old(defined))
      decreases rank(name), 2
    {
      CompleteBases(name);
      ghost var before := defined;
      EmitMembers(name);
      world.OnlyNeededTwice(old(defined), before, defined, old(defined), {name});
      CreateType(name);
    }

    method CompleteBases(name: Name)
      requires Valid() && name in incomplete
      modifies this
      ensures Valid() && name in incomplete && old(created) <= created && old(defined) <= defined
      ensures forall n :: n in created && n !in old(created) ==> rank(n) < rank(name)
      ensures forall b :: b in world.ifaces[name].bases ==> world.Given(b) || b in created
      ensures world.OnlyNeeded(old(defined), defined, old(defined))
      decreases rank(name), 1
    {
      var bases := world.ifaces[name].bases;
      for i := 0 to |bases|
        invariant Valid() && name in defined && old(created) <= created && old(defined) <= defined
        invariant forall n :: n in created && n !in old(created) ==> rank(n) < rank(name)
        invariant world.AllMade(bases[..i], created)
        invariant world.OnlyNeeded(old(defined), defined, old(defined))
      {
        ghost var before, made := defined, created;
        BaseResolved(name, bases[i]);
        CompleteBase(bases[i], rank(name));
        world.MadeMore(bases, i, made, created);
        world.OnlyNeededOn(old(defined), before, defined);
      }
      assert bases[..|bases|] == bases;
    }

    lemma BaseResolved(name: Name, base: Name)
      requires Valid() && name in defined && base in world.ifaces[name].bases
      ensures Resolved(base) && (!world.Given(base) ==> rank(base) < rank(name))
    {}

    /** A base that is not complete yet is completed first. */
    method CompleteBase(base: Name, ghost above: nat)
      requires Valid() && Resolved(base) && (!world.Given(base) ==> rank(base) < above)
      modifies this
      ensures Valid() && (world.Given(base) || base in created)
      ensures old(created) <= created && old(defined) <= defined
      ensures forall n :: n in created && n !in old(created) ==> rank(n) < above
      ensures world.OnlyNeeded(old(defined), defined, old(defined))
      decreases above, 0
    {
      if base in incomplete {
        CompleteType(base);
      }
    }

    method CreateType(name: Name)
      requires Valid() && name in incomplete
      requires forall b :: b in world.ifaces[name].bases ==> world.Given(b) || b in created
      requires forall m :: m in world.ifaces[name].mentions ==> Resolved(m)
      modifies this`incomplete, this`created
      ensures Valid() && created == old(created) + [name]
    {
      incomplete := incomplete - {name};
      created := created + [name];
      assert Elements(created) == Elements(old(created)) + {name};
      assert forall i :: 0 <= i < |old(created)| ==> created[..i] == old(created)[..i];
      assert created[..|created| - 1] == old(created);
    }

    /** The loop over the incomplete interfaces. It ends; every interface that was needed,
        and no other, has then been created exactly once, after all its bases. */
    method Dispose()
      requires Valid()
      modifies this
      ensures Valid() && incomplete == {} && old(created) <= created && Distinct(created) && BasesFirst()
      ensures forall n :: n in created <==> world.Needed(old(defined), n)
    {
      while |incomplete| > 0
        invariant Valid() && old(created) <= created && old(defined) <= defined
        invariant world.OnlyNeeded(old(defined), defined, old(defined))
        decreases |world.ifaces.Keys - Elements(created)|
      {
        var name :| name in incomplete;
        ghost var before := defined;
        ghost var left := world.ifaces.Keys - Elements(created);
        CompleteType(name);
        SmallerSet(world.ifaces.Keys - Elements(created), left, name);
        world.OnlyNeededOn(old(defined), before, defined);
      }
      CreatedIsNeeded(old(defined));
    }

    lemma CreatedIsNeeded(start: set<Name>)
      requires Valid() && incomplete == {} && start <= defined && world.OnlyNeeded(start, defined, start)
      ensures forall n :: n in created <==> world.Needed(start, n)
    {
      assert world.Closed(defined);
      forall n | n in defined ensures world.Needed(start, n) {
        forall s | world.Closed(s) && start <= s ensures n in s { assert defined - start <= s; }
      }
    }
  }
}
