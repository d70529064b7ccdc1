/**
 The reference count of a proxy (scratch/mono-uno-bridge/mono_proxy.cxx) or a bridge
 (scratch/mono-uno-bridge/mono_bridge.cxx) that registers itself with its environment when
 the count leaves 0 and revokes itself when it comes back to 0. The count changes in one
 atomic step and the environment is called in a later one, so calls of several threads
 interleave; an object at 0 may come back to life.
 */
module RefCount {

  type Thread = nat

  /** What a thread still has to tell the environment. */
  datatype Pending = ToRegister | ToRevoke

  /** A bridge has two mappings and uses one of them; a proxy has only one. */
  datatype Mapping = Mono2Uno | Uno2Mono

  datatype Event = Registered(mapping: Mapping) | Revoked(mapping: Mapping)

  datatype State = State(ref: int, pending: map<Thread, Pending>, events: seq<Event>)

  /** A step of thread t. */
  datatype Step = Increment(t: Thread) | Decrement(t: Thread) | Tell(t: Thread)

  /** A thread that is in the middle of acquire or release starts no other; a reference is
      given back only when there is one. */
  predicate Enabled(s: State, step: Step) {
    match step
    case Increment(t) => t !in s.pending
    case Decrement(t) => t !in s.pending && s.ref > 0
    case Tell(t) => t in s.pending
  }

  function Next(s: State, step: Step, own: Mapping): State
    requires Enabled(s, step)
  {
    match step
    case Increment(t) =>
      State(s.ref + 1, if s.ref + 1 == 1 then s.pending[t := ToRegister] else s.pending, s.events)
    case Decrement(t) =>
      State(s.ref - 1, if s.ref - 1 == 0 then s.pending[t := ToRevoke] else s.pending, s.events)
    case Tell(t) =>
      State(s.ref, s.pending - {t}, s.events + [if s.pending[t] == ToRegister then Registered(own) else Revoked(own)])
  }

  /** A new object has one reference, and its creator registers it. */
  function Init(creator: Thread): State { State(1, map[creator := ToRegister], []) }

  predicate IsRun(s: State, steps: seq<Step>, own: Mapping)
    decreases |steps|
  {
    steps == [] || (Enabled(s, steps[0]) && IsRun(Next(s, steps[0], own), steps[1..], own))
  }

  function After(s: State, steps: seq<Step>, own: Mapping): State
    requires IsRun(s, steps, own)
    decreases |steps|
  {
    if steps == [] then s else After(Next(s, steps[0], own), steps[1..], own)
  }

  // -------------------------------------------------------------------- conservation

  /** Registrations minus revocations of a mapping. */
  function Net(events: seq<Event>, m: Mapping): int {
    if events == [] then 0
    else
      Net(events[..|events| - 1], m) + match events[|events| - 1] {
        case Registered(n) => if m == n then 1 else 0
        case Revoked(n) => if m == n then -1 else 0
      }
  }

  function Waiting(s: State, p: Pending): set<Thread> { set t | t in s.pending && s.pending[t] == p }

  /** What is told and what is still to be told add up to one exactly when there are references. */
  ghost predicate Balanced(s: State, own: Mapping) {
    && s.ref >= 0
    && Net(s.events, own) + |Waiting(s, ToRegister)| - |Waiting(s, ToRevoke)| == (if s.ref > 0 then 1 else 0)
    && forall m :: m != own ==> Net(s.events, m) == 0
  }

  lemma NetMore(events: seq<Event>, e: Event)
    ensures forall m :: Net(events + [e], m) == Net(events, m) + match e {
              case Registered(n) => if m == n then 1 else 0
              case Revoked(n) => if m == n then -1 else 0
            }
  {
    assert (events + [e])[..|events|] == events;
  }

  lemma WaitingMore(s: State, s': State, t: Thread, p: Pending)
    requires t !in s.pending && s'.pending == s.pending[t := p]
    ensures Waiting(s', p) == Waiting(s, p) + {t} && t !in Waiting(s, p)
    ensures forall q :: q != p ==> Waiting(s', q) == Waiting(s, q)
  {}

  lemma WaitingLess(s: State, s': State, t: Thread)
    requires t in s.pending && s'.pending == s.pending - {t}
    ensures Waiting(s, s.pending[t]) == Waiting(s', s.pending[t]) + {t} && t !in Waiting(s', s.pending[t])
    ensures forall q :: q != s.pending[t] ==> Waiting(s', q) == Waiting(s, q)
  {}

  lemma TellKeepsBalance(s: State, t: Thread, own: Mapping)
    requires Balanced(s, own) && t in s.pending
    ensures Balanced(Next(s, Tell(t), own), own)
  {
    WaitingLess(s, Next(s, Tell(t), own), t);
    NetMore(s.events, if s.pending[t] == ToRegister then Registered(own) else Revoked(own));
  }

  lemma CountKeepsBalance(s: State, step: Step, own: Mapping)
    requires Balanced(s, own) && Enabled(s, step) && !step.Tell?
    ensures Balanced(Next(s, step, own), own)
  {
    var s' := Next(s, step, own);
    if s'.ref == 1 && step.Increment? { WaitingMore(s, s', step.t, ToRegister); }
    if s'.ref == 0 { WaitingMore(s, s', step.t, ToRevoke); }
  }

  lemma StepKeepsBalance(s: State, step: Step, own: Mapping)
    requires Balanced(s, own) && Enabled(s, step)
    ensures Balanced(Next(s, step, own), own)
  {
    if step.Tell? { TellKeepsBalance(s, step.t, own); } else { CountKeepsBalance(s, step, own); }
  }

  lemma {:induction false} RunKeepsBalance(s: State, steps: seq<Step>, own: Mapping)
    requires Balanced(s, own) && IsRun(s, steps, own)
    ensures Balanced(After(s, steps, own), own)
    decreases |steps|
  {
    if steps != [] {
      StepKeepsBalance(s, steps[0], own);
      RunKeepsBalance(Next(s, steps[0], own), steps[1..], own);
    }
  }

  lemma InitBalanced(creator: Thread, own: Mapping)
    ensures Balanced(Init(creator), own)
  {
    assert Waiting(Init(creator), ToRegister) == {creator};
    assert Waiting(Init(creator), ToRevoke) == {};
  }

  /** In every run of any threads: whenever no call is under way, the object is registered
      once if it is referenced and not at all if it is not. */
  lemma RegisteredWhenReferenced(creator: Thread, steps: seq<Step>, own: Mapping)
    requires IsRun(Init(creator), steps, own)
    ensures var s := After(Init(creator), steps, own);
      && Balanced(s, own)
      && (s.pending == map[] ==> Net(s.events, own) == if s.ref > 0 then 1 else 0)
  {
    InitBalanced(creator, own);
    RunKeepsBalance(Init(creator), steps, own);
    var s := After(Init(creator), steps, own);
    if s.pending == map[] {
      assert Waiting(s, ToRegister) == {} && Waiting(s, ToRevoke) == {};
    }
  }

  /** The environment has to count: when the object dies in thread 0 and is born again in
      thread 1, the last it may hear is the revocation, though the object is referenced. */
  lemma LastEventCanBeRevocation(own: Mapping)
    ensures var steps := [Tell(0), Decrement(0), Increment(1), Tell(1), Tell(0)];
      && IsRun(Init(0), steps, own)
      && var s := After(Init(0), steps, own);
         s.ref == 1 && s.pending == map[] && s.events == [Registered(own), Registered(own), Revoked(own)]
  {
    var s1 := Next(Init(0), Tell(0), own);
    var s2 := Next(s1, Decrement(0), own);
    var s3 := Next(s2, Increment(1), own);
    var s4 := Next(s3, Tell(1), own);
    var s5 := Next(s4, Tell(0), own);
    assert s1 == State(1, map[], [Registered(own)]);
    assert s5 == State(1, map[], [Registered(own), Registered(own), Revoked(own)]);
    RunOf(s4, Tell(0), [], own);
    RunOf(s3, Tell(1), [Tell(0)], own);
    RunOf(s2, Increment(1), [Tell(1), Tell(0)], own);
    RunOf(s1, Decrement(0), [Increment(1), Tell(1), Tell(0)], own);
    RunOf(Init(0), Tell(0), [Decrement(0), Increment(1), Tell(1), Tell(0)], own);
  }

  lemma RunOf(s: State, step: Step, steps: seq<Step>, own: Mapping)
    requires Enabled(s, step) && IsRun(Next(s, step, own), steps, own)
    ensures IsRun(s, [step] + steps, own)
    ensures After(s, [step] + steps, own) == After(Next(s, step, own), steps, own)
  {
    assert ([step] + steps)[1..] == steps;
  }

  // --------------------------------------------------------------- the object itself

  class Counted {
    const own: Mapping
    var ref: int
    ghost var pending: map<Thread, Pending>
    ghost var events: seq<Event>

    ghost function Abstract(): State
      reads this
    {
      State(ref, pending, events)
    }

    /** Creates the object and registers it (for a bridge: uno_ext_getMapping). */
    constructor (ghost creator: Thread, registeredMono2Uno: bool)
      ensures Abstract() == Next(Init(creator), Tell(creator), own)
      ensures own == if registeredMono2Uno then Mono2Uno else Uno2Mono
    {
      var m := if registeredMono2Uno then Mono2Uno else Uno2Mono;
      own := m;
      ref := 1;
      pending, events := map[], [Registered(m)];
      new;
      assert map[creator := ToRegister] - {creator} == map[];
      assert [] + [Registered(own)] == [Registered(own)];
    }

    /** The atomic part of acquire; first tells whether the environment is to be called. */
    method AcquireCount(ghost t: Thread) returns (first: bool)
      requires Enabled(Abstract(), Increment(t))
      modifies this
      ensures Abstract() == Next(old(Abstract()), Increment(t), own)
      ensures first <==> t in pending
    {
      ref := ref + 1;
      first := ref == 1;
      if first { pending := pending[t := ToRegister]; }
    }

    method ReleaseCount(ghost t: Thread) returns (last: bool)
      requires Enabled(Abstract(), Decrement(t))
      modifies this
      ensures Abstract() == Next(old(Abstract()), Decrement(t), own)
      ensures last <==> t in pending
    {
      ref := ref - 1;
      last := ref == 0;
      if last { pending := pending[t := ToRevoke]; }
    }

    /** The call of the environment that belongs to a count that reached 1 or 0. */
    method TellEnvironment(ghost t: Thread)
      requires Enabled(Abstract(), Tell(t))
      modifies this
      ensures Abstract() == Next(old(Abstract()), Tell(t), own)
    {
      events := events + [if pending[t] == ToRegister then Registered(own) else Revoked(own)];
      pending := pending - {t};
    }

    method Settle(ghost t: Thread)
      requires t in pending && Balanced(Abstract(), own)
      modifies this
      ensures ref == old(ref) && Balanced(Abstract(), own) && pending == old(pending) - {t}
    {
      StepKeepsBalance(Abstract(), Tell(t), own);
      TellEnvironment(t);
    }

    /** acquire, when no other thread comes in between. */
    method Acquire(ghost t: Thread)
      requires t !in pending && Balanced(Abstract(), own)
      modifies this
      ensures ref == old(ref) + 1 && Balanced(Abstract(), own) && pending == old(pending)
    {
      StepKeepsBalance(Abstract(), Increment(t), own);
      var first := AcquireCount(t);
      if first { Settle(t); }
    }

    /** release, when no other thread comes in between. */
    method Release(ghost t: Thread)
      requires t !in pending && Balanced(Abstract(), own) && ref > 0
      modifies this
      ensures ref == old(ref) - 1 && Balanced(Abstract(), own) && pending == old(pending)
    {
      StepKeepsBalance(Abstract(), Decrement(t), own);
      var last := ReleaseCount(t);
      if last { Settle(t); }
    }
  }
}
