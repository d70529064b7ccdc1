/**
 The constructors that the type compiler emits for structs and exceptions
 (patches/mono/climaker_csharp.cs), and a small machine that runs them. A constructor takes
 all members of the type, those of the base types first.
 */
module ConstructorCode {
  import opened Wrappers

  // -------------------------------------------------------------- types and code

  /** A field, by the type that declares it and its place there. */
  datatype Field = Field(owner: string, index: nat)

  datatype Instr =
    | Ldarg(index: nat)
    | WideLdarg(index: nat)  // Ldarg_S with an operand of two bytes
    | Call(ctor: Ctor)
    | Stfld(field: Field)
    | Ret

  datatype Ctor = Ctor(params: seq<string>, code: seq<Instr>)

  datatype Type =
    | Object
    | SystemException
    | Declared(name: string, base: Type, fields: seq<string>, ctor: Ctor)

  const MESSAGE := Field("System.Exception", 0)

  function CtorOf(t: Type): Ctor {
    match t
    case Object => Ctor([], [Ret])
    case SystemException => Ctor(["System.String"], [Ldarg(0), Ldarg(1), Stfld(MESSAGE), Ret])
    case Declared(_, _, _, c) => c
  }

  /** The types of all members, those of the base types first. */
  function MemberTypes(t: Type): seq<string> {
    match t
    case Object => []
    case SystemException => ["System.String"]
    case Declared(_, b, fields, _) => MemberTypes(b) + fields
  }

  function OwnFields(name: string, n: nat): seq<Field> {
    seq(n, i requires 0 <= i => Field(name, i))
  }

  function MemberFields(t: Type): (fields: seq<Field>)
    ensures |fields| == |MemberTypes(t)|
  {
    match t
    case Object => []
    case SystemException => [MESSAGE]
    case Declared(n, b, fields, _) => MemberFields(b) + OwnFields(n, |fields|)
  }

  // ---------------------------------------------------------------------- machine

  datatype Value = This | Val(v: int)

  type Fields = map<Field, Value>

  /** Ldarg_S takes one byte as operand. A second byte is the next instruction: behind the
      operands from 0x100 to 0x1FF this is break, which has no effect (section III.3.16 of
      ECMA-335); from 0x200 on it is another instruction and outside this model. */
  function Loaded(args: seq<Value>, i: nat): Value
    requires i < |args| && i < 0x200
  {
    if i < 0x100 then args[i] else args[i - 0x100]
  }

  /** Runs a constructor body on the object under construction. */
  function RunCtor(c: Ctor, args: seq<Value>, obj: Fields): Option<Fields>
    decreases c, 1
  {
    Run(c.code, args, [], obj)
  }

  /** A call: the arguments lie on the stack above the object. */
  function Invoke(call: Instr, args: seq<Value>, obj: Fields): Option<Fields>
    requires call.Call?
    decreases call, 2
  {
    RunCtor(call.ctor, args, obj)
  }

  function Run(code: seq<Instr>, args: seq<Value>, stack: seq<Value>, obj: Fields): Option<Fields>
    decreases code, 0
  {
    if code == [] then None
    else
      var rest := code[1..];
      match code[0]
      case Ret => Some(obj)
      case Ldarg(i) => if i < |args| then Run(rest, args, stack + [args[i]], obj) else None
      case WideLdarg(i) => if i < 0x200 && i < |args| then Run(rest, args, stack + [Loaded(args, i)], obj) else None
      case Call(c) =>
        var n := |c.params| + 1;
        if |stack| < n || stack[|stack| - n] != This then None
        else
          (match Invoke(code[0], stack[|stack| - n..], obj)
           case None => None
           case Some(obj') => Run(rest, args, stack[..|stack| - n], obj'))
      case Stfld(f) =>
        if |stack| < 2 || stack[|stack| - 2] != This then None
        else Run(rest, args, stack[..|stack| - 2], obj[f := stack[|stack| - 1]])
  }

  // ------------------------------------------------------------- what is emitted

  function LoadArg(index: nat): Instr { if index < 0x100 then Ldarg(index) else WideLdarg(index) }

  function LoadArgs(from: nat, count: nat): seq<Instr>
    decreases count
  {
    if count == 0 then [] else [LoadArg(from)] + LoadArgs(from + 1, count - 1)
  }

  /** The stores of the members of the type itself. */
  function Stores(name: string, from: nat, count: nat, arg: nat): seq<Instr>
    decreases count
  {
    if count == 0 then []
    else [Ldarg(0), LoadArg(arg + from), Stfld(Field(name, from))] + Stores(name, from + 1, count - 1, arg)
  }

  function EmittedCode(name: string, base: Type, fields: seq<string>): seq<Instr> {
    var b := |MemberTypes(base)|;
    [Ldarg(0)] + LoadArgs(1, b) + ([Call(CtorOf(base))] + (Stores(name, 0, |fields|, b + 1) + [Ret]))
  }

  function EmittedCtor(name: string, base: Type, fields: seq<string>): Ctor {
    Ctor(MemberTypes(base) + fields, EmittedCode(name, base, fields))
  }

  lemma CodeParts(name: string, base: Type, fields: seq<string>)
    ensures var b := |MemberTypes(base)|;
      EmittedCode(name, base, fields)
      == [Ldarg(0)] + LoadArgs(1, b) + [Call(CtorOf(base))] + Stores(name, 0, |fields|, b + 1) + [Ret]
  {}

  predicate NameInChain(t: Type, name: string) {
    t.Declared? && (t.name == name || NameInChain(t.base, name))
  }

  /** Made by this compiler, in this session or an earlier one; no type is its own ancestor. */
  predicate Emitted(t: Type) {
    t.Declared? ==>
      && Emitted(t.base) && t.ctor == EmittedCtor(t.name, t.base, t.fields)
      && !NameInChain(t.base, t.name) && t.name != MESSAGE.owner
  }

  // ------------------------------------------------------- running the constructor

  /** The object after storing each value in its field, in order. */
  function Assign(obj: Fields, fields: seq<Field>, vals: seq<Value>): Fields
    requires |fields| == |vals|
    decreases |fields|
  {
    if fields == [] then obj else Assign(obj[fields[0] := vals[0]], fields[1..], vals[1..])
  }

  lemma {:induction false} AssignAppend(obj: Fields, a: seq<Field>, b: seq<Field>, va: seq<Value>, vb: seq<Value>)
    requires |a| == |va| && |b| == |vb|
    ensures Assign(obj, a + b, va + vb) == Assign(Assign(obj, a, va), b, vb)
    decreases |a|
  {
    if a == [] {
      assert a + b == b && va + vb == vb;
    } else {
      assert (a + b)[1..] == a[1..] + b && (va + vb)[1..] == va[1..] + vb;
      AssignAppend(obj[a[0] := va[0]], a[1..], b, va[1..], vb);
    }
  }

  lemma {:induction false} AssignHolds(obj: Fields, fields: seq<Field>, vals: seq<Value>)
    requires |fields| == |vals| && forall i, j :: 0 <= i < j < |fields| ==> fields[i] != fields[j]
    ensures var o := Assign(obj, fields, vals);
      && (forall i :: 0 <= i < |fields| ==> fields[i] in o && o[fields[i]] == vals[i])
      && (forall f :: f !in fields ==> (f in o <==> f in obj) && (f in obj ==> o[f] == obj[f]))
    decreases |fields|
  {
    if fields != [] {
      var obj' := obj[fields[0] := vals[0]];
      AssignHolds(obj', fields[1..], vals[1..]);
      var o := Assign(obj, fields, vals);
      assert fields == [fields[0]] + fields[1..];
      assert fields[0] !in fields[1..];
      forall i | 0 <= i < |fields| ensures fields[i] in o && o[fields[i]] == vals[i] {
        if i > 0 { assert fields[1..][i - 1] == fields[i] && vals[1..][i - 1] == vals[i]; }
      }
    }
  }

  /** What loading count arguments pushes. */
  function Loads(args: seq<Value>, from: nat, count: nat): (vals: seq<Value>)
    requires from + count <= |args| && from + count <= 0x200
    ensures |vals| == count
    decreases count
  {
    if count == 0 then [] else [Loaded(args, from)] + Loads(args, from + 1, count - 1)
  }

  lemma {:induction false} LoadsAt(args: seq<Value>, from: nat, count: nat, k: nat)
    requires from + count <= |args| && from + count <= 0x200 && k < count
    ensures Loads(args, from, count)[k] == Loaded(args, from + k)
    decreases count
  {
    if k > 0 {
      LoadsAt(args, from + 1, count - 1, k - 1);
    }
  }

  lemma {:induction false} LoadsJoin(args: seq<Value>, from: nat, a: nat, b: nat)
    requires from + a + b <= |args| && from + a + b <= 0x200
    ensures Loads(args, from, a + b) == Loads(args, from, a) + Loads(args, from + a, b)
    decreases a
  {
    if a > 0 {
      LoadsJoin(args, from + 1, a - 1, b);
    }
  }

  lemma Associate<T>(a: seq<T>, b: seq<T>, c: seq<T>)
    ensures a + b + c == a + (b + c)
  {}

  lemma RunLoad(i: nat, rest: seq<Instr>, args: seq<Value>, stack: seq<Value>, obj: Fields)
    requires i < |args| && i < 0x200
    ensures Run([LoadArg(i)] + rest, args, stack, obj) == Run(rest, args, stack + [Loaded(args, i)], obj)
  {
    assert ([LoadArg(i)] + rest)[1..] == rest;
  }

  lemma {:induction false} RunLoads(from: nat, count: nat, rest: seq<Instr>, args: seq<Value>, stack: seq<Value>,
                                    obj: Fields)
    requires from + count <= |args| && from + count <= 0x200
    ensures Run(LoadArgs(from, count) + rest, args, stack, obj)
         == Run(rest, args, stack + Loads(args, from, count), obj)
    decreases count
  {
    if count == 0 {
      assert LoadArgs(from, 0) + rest == rest && stack + Loads(args, from, 0) == stack;
    } else {
      var first, more := Loaded(args, from), Loads(args, from + 1, count - 1);
      var code := LoadArgs(from + 1, count - 1) + rest;
      Associate([LoadArg(from)], LoadArgs(from + 1, count - 1), rest);
      RunLoad(from, code, args, stack, obj);
      RunLoads(from + 1, count - 1, rest, args, stack + [first], obj);
      Associate(stack, [first], more);
    }
  }

  lemma RunStfld(f: Field, v: Value, rest: seq<Instr>, args: seq<Value>, obj: Fields)
    ensures Run([Stfld(f)] + rest, args, [This, v], obj) == Run(rest, args, [], obj[f := v])
  {
    assert ([Stfld(f)] + rest)[1..] == rest && [This, v][..0] == [];
  }

  lemma RunStore(name: string, from: nat, arg: nat, rest: seq<Instr>, args: seq<Value>, obj: Fields)
    requires arg < |args| && arg < 0x200 && args[0] == This
    ensures Run([Ldarg(0), LoadArg(arg), Stfld(Field(name, from))] + rest, args, [], obj)
         == Run(rest, args, [], obj[Field(name, from) := Loaded(args, arg)])
  {
    var v, store := Loaded(args, arg), [Stfld(Field(name, from))] + rest;
    assert [Ldarg(0), LoadArg(arg), Stfld(Field(name, from))] + rest == [LoadArg(0)] + ([LoadArg(arg)] + store);
    RunLoad(0, [LoadArg(arg)] + store, args, [], obj);
    assert [] + [This] == [This];
    RunLoad(arg, store, args, [This], obj);
    assert [This] + [v] == [This, v];
    RunStfld(Field(name, from), v, rest, args, obj);
  }

  function FieldsFrom(name: string, from: nat, count: nat): seq<Field> {
    seq(count, i requires 0 <= i => Field(name, from + i))
  }

  lemma {:induction false} RunStores(name: string, from: nat, count: nat, arg: nat, args: seq<Value>, obj: Fields)
    requires arg + from + count == |args| <= 0x200 && |args| > 0 && args[0] == This
    ensures Run(Stores(name, from, count, arg) + [Ret], args, [], obj)
         == Some(Assign(obj, FieldsFrom(name, from, count), Loads(args, arg + from, count)))
    decreases count
  {
    if count == 0 {
      assert Stores(name, from, 0, arg) + [Ret] == [Ret];
    } else {
      var store := [Ldarg(0), LoadArg(arg + from), Stfld(Field(name, from))];
      var more := Stores(name, from + 1, count - 1, arg) + [Ret];
      Associate(store, Stores(name, from + 1, count - 1, arg), [Ret]);
      RunStore(name, from, arg + from, more, args, obj);
      var obj' := obj[Field(name, from) := Loaded(args, arg + from)];
      RunStores(name, from + 1, count - 1, arg, args, obj');
      AssignFirst(name, from, count, Loaded(args, arg + from), Loads(args, arg + from + 1, count - 1), obj);
    }
  }

  lemma AssignFirst(name: string, from: nat, count: nat, v: Value, more: seq<Value>, obj: Fields)
    requires count == |more| + 1
    ensures Assign(obj, FieldsFrom(name, from, count), [v] + more)
         == Assign(obj[Field(name, from) := v], FieldsFrom(name, from + 1, count - 1), more)
  {
    assert FieldsFrom(name, from, count)[1..] == FieldsFrom(name, from + 1, count - 1);
    assert ([v] + more)[1..] == more;
  }

  lemma RunCall(c: Ctor, rest: seq<Instr>, args: seq<Value>, stack: seq<Value>, obj: Fields)
    requires |stack| == |c.params| + 1 && stack[0] == This
    ensures Run([Call(c)] + rest, args, stack, obj)
         == match RunCtor(c, stack, obj) { case None => None case Some(o) => Run(rest, args, [], o) }
  {
    var code := [Call(c)] + rest;
    assert code[1..] == rest && code[0] == Call(c);
    assert stack[|stack| - (|c.params| + 1)..] == stack && stack[..0] == [];
  }

  /** What a constructor gets to see of its arguments. */
  function Seen(vals: seq<Value>): (seen: seq<Value>)
    requires |vals| < 0x200
    ensures |seen| == |vals|
  {
    Loads([This] + vals, 1, |vals|)
  }

  lemma SeenParts(vals: seq<Value>, b: nat)
    requires |vals| < 0x200 && b <= |vals|
    ensures Seen(vals)[..b] == Loads([This] + vals, 1, b)
    ensures Seen(vals) == Seen(vals)[..b] + Loads([This] + vals, b + 1, |vals| - b)
  {
    LoadsJoin([This] + vals, 1, b, |vals| - b);
  }

  /** A base constructor sees no more and no less than the derived one passes on. */
  lemma SeenTwice(vals: seq<Value>, b: nat)
    requires |vals| < 0x200 && b <= |vals|
    ensures Seen(Seen(vals)[..b]) == Seen(vals)[..b]
  {
    var front := Seen(vals)[..b];
    forall j | 0 <= j < b ensures Seen(front)[j] == front[j] {
      LoadsAt([This] + vals, 1, |vals|, j);
      LoadsAt([This] + front, 1, b, j);
      if j >= 0x100 {
        LoadsAt([This] + vals, 1, |vals|, j - 0x100);
      }
    }
  }

  /** The first part of the code, up to and with the call of the base constructor. */
  lemma RunToCall(t: Type, vals: seq<Value>, obj: Fields, stores: seq<Instr>)
    requires t.Declared? && Emitted(t) && |vals| == |MemberTypes(t)| < 0x200
    requires stores == Stores(t.name, 0, |t.fields|, |MemberTypes(t.base)| + 1) + [Ret]
    ensures var b := |MemberTypes(t.base)|; var args := [This] + vals;
      RunCtor(CtorOf(t), args, obj)
      == match RunCtor(CtorOf(t.base), [This] + Seen(vals)[..b], obj)
         case None => None
         case Some(o) => Run(stores, args, [], o)
  {
    var b, args := |MemberTypes(t.base)|, [This] + vals;
    var call := [Call(CtorOf(t.base))] + stores;
    assert t.ctor.code == [LoadArg(0)] + (LoadArgs(1, b) + call);
    RunLoad(0, LoadArgs(1, b) + call, args, [], obj);
    assert [] + [This] == [This];
    RunLoads(1, b, call, args, [This], obj);
    SeenParts(vals, b);
    ParamsOfEmitted(t.base);
    RunCall(CtorOf(t.base), stores, args, [This] + Seen(vals)[..b], obj);
  }

  lemma ParamsOfEmitted(t: Type)
    requires Emitted(t)
    ensures CtorOf(t).params == MemberTypes(t)
  {}

  /** A constructor stores the arguments it sees in the members, those of the base types first. */
  lemma {:induction false} RunEmitted(t: Type, vals: seq<Value>, obj: Fields)
    requires Emitted(t) && |vals| == |MemberTypes(t)| < 0x200
    ensures RunCtor(CtorOf(t), [This] + vals, obj) == Some(Assign(obj, MemberFields(t), Seen(vals)))
    decreases t
  {
    match t
    case Object =>
      assert Run([Ret], [This] + vals, [], obj) == Some(obj);
    case SystemException =>
      RunSystemException(vals, obj);
    case Declared(name, base, fields, ctor) =>
      var b := |MemberTypes(base)|;
      RunToCall(t, vals, obj, Stores(name, 0, |fields|, b + 1) + [Ret]);
      RunEmitted(base, Seen(vals)[..b], obj);
      SeenTwice(vals, b);
      RunOwnStores(t, vals, obj);
  }

  lemma RunSystemException(vals: seq<Value>, obj: Fields)
    requires |vals| == 1
    ensures RunCtor(CtorOf(SystemException), [This] + vals, obj) == Some(Assign(obj, [MESSAGE], Seen(vals)))
  {
    RunStore("System.Exception", 0, 1, [Ret], [This] + vals, obj);
    assert CtorOf(SystemException).code == [Ldarg(0), LoadArg(1), Stfld(MESSAGE)] + [Ret];
    var v := Loaded([This] + vals, 1);
    assert Seen(vals) == [v];
    assert Assign(obj[MESSAGE := v], [MESSAGE][1..], [v][1..]) == obj[MESSAGE := v];
  }

  /** The stores behind the base call, on the object that the base constructor left. */
  lemma RunOwnStores(t: Type, vals: seq<Value>, obj: Fields)
    requires t.Declared? && |vals| == |MemberTypes(t)| < 0x200
    ensures var b, n := |MemberTypes(t.base)|, |t.fields|;
      var done := Assign(obj, MemberFields(t.base), Seen(vals)[..b]);
      Run(Stores(t.name, 0, n, b + 1) + [Ret], [This] + vals, [], done)
      == Some(Assign(obj, MemberFields(t), Seen(vals)))
  {
    var b, n, args, seen := |MemberTypes(t.base)|, |t.fields|, [This] + vals, Seen(vals);
    RunStores(t.name, 0, n, b + 1, args, Assign(obj, MemberFields(t.base), seen[..b]));
    SeenParts(vals, b);
    assert FieldsFrom(t.name, 0, n) == OwnFields(t.name, n);
    AssignAppend(obj, MemberFields(t.base), OwnFields(t.name, n), seen[..b], Loads(args, b + 1, n));
  }

  /** Every member belongs to a type of the chain. */
  lemma {:induction false} MemberOwner(t: Type, f: Field)
    requires f in MemberFields(t)
    ensures NameInChain(t, f.owner) || f == MESSAGE
    decreases t
  {
    if t.Declared? && f in MemberFields(t.base) {
      MemberOwner(t.base, f);
    }
  }

  lemma {:induction false} MembersDistinct(t: Type)
    requires Emitted(t)
    ensures forall i, j :: 0 <= i < j < |MemberFields(t)| ==> MemberFields(t)[i] != MemberFields(t)[j]
    decreases t
  {
    if t.Declared? {
      MembersDistinct(t.base);
      var fields, b := MemberFields(t), |MemberFields(t.base)|;
      forall i, j | 0 <= i < j < |fields| ensures fields[i] != fields[j] {
        if i < b <= j {
          MemberOwner(t.base, fields[i]);
          assert fields[j].owner == t.name;
        }
      }
    }
  }

  /** What a constructor sees in place of its i-th argument: this, and then the first
      arguments again, from the 256th on. */
  function SeenFor(vals: seq<Value>, i: nat): Value
    requires i < |vals| < 0x200
  {
    if i < 0xFF then vals[i] else if i == 0xFF then This else vals[i - 0x100]
  }

  lemma SeenAt(vals: seq<Value>, i: nat)
    requires i < |vals| < 0x200
    ensures Seen(vals)[i] == SeenFor(vals, i)
  {
    LoadsAt([This] + vals, 1, |vals|, i);
  }

  /** The emitted constructor leaves every member holding the argument it sees for it, and no
      other field touched. */
  lemma ConstructorStoresArguments(t: Type, vals: seq<Value>, obj: Fields)
    requires Emitted(t) && |vals| == |MemberTypes(t)| < 0x200
    ensures var r := RunCtor(CtorOf(t), [This] + vals, obj); var fields := MemberFields(t);
      && r.Some?
      && (forall i :: 0 <= i < |vals| ==> fields[i] in r.value && r.value[fields[i]] == SeenFor(vals, i))
      && (forall f :: f !in fields ==> (f in r.value <==> f in obj) && (f in obj ==> r.value[f] == obj[f]))
  {
    RunEmitted(t, vals, obj);
    MembersDistinct(t);
    var seen := Seen(vals);
    forall i | 0 <= i < |vals| ensures seen[i] == SeenFor(vals, i) { SeenAt(vals, i); }
    AssignHolds(obj, MemberFields(t), seen);
  }

  ghost predicate HoldsOwnArguments(t: Type, vals: seq<Value>, obj: Fields)
    requires |vals| == |MemberTypes(t)|
  {
    var r := RunCtor(CtorOf(t), [This] + vals, obj);
    r.Some? && forall i :: 0 <= i < |vals| ==> MemberFields(t)[i] in r.value && r.value[MemberFields(t)[i]] == vals[i]
  }

  /** With any arguments every member holds its own, if and only if there are fewer than 256. */
  lemma HoldsOwnIffFew(t: Type)
    requires Emitted(t) && |MemberTypes(t)| < 0x200
    ensures (forall vals, obj :: |vals| == |MemberTypes(t)| ==> HoldsOwnArguments(t, vals, obj))
       <==> |MemberTypes(t)| < 0x100
  {
    var n := |MemberTypes(t)|;
    forall vals, obj | |vals| == n && n < 0x100 ensures HoldsOwnArguments(t, vals, obj) {
      ConstructorStoresArguments(t, vals, obj);
    }
    if n >= 0x100 {
      var vals := seq(n, i => Val(i));
      ConstructorStoresArguments(t, vals, map[]);
      var r := RunCtor(CtorOf(t), [This] + vals, map[]);
      var i := 0xFF;
      assert vals[i] == Val(i) && SeenFor(vals, i) == This;
      assert MemberFields(t)[i] in r.value && r.value[MemberFields(t)[i]] == This;
      assert !HoldsOwnArguments(t, vals, map[]);
    }
  }

  // --------------------------------------------------------- field by field

  predicate InChain(t: Type, u: Type) { t == u || (t.Declared? && InChain(t.base, u)) }

  /** Field i of any type of the chain is the member behind those of the base types of it. */
  lemma {:induction false} FieldAt(t: Type, u: Type, i: nat)
    requires u.Declared? && InChain(t, u) && i < |u.fields|
    ensures var k := |MemberTypes(u.base)| + i;
      k < |MemberTypes(t)| && MemberTypes(t)[k] == u.fields[i] && MemberFields(t)[k] == Field(u.name, i)
    decreases t
  {
    if t != u {
      FieldAt(t.base, u, i);
    }
  }

  /** With fewer than 256 arguments, field i of any type of the chain holds the argument that
      stands i places behind those of its base types. */
  lemma FieldHoldsArgument(t: Type, u: Type, i: nat, vals: seq<Value>, obj: Fields)
    requires Emitted(t) && u.Declared? && InChain(t, u) && i < |u.fields|
    requires |vals| == |MemberTypes(t)| < 0x100
    ensures var r := RunCtor(CtorOf(t), [This] + vals, obj); var k := |CtorOf(u.base).params| + i;
      k < |vals| && r.Some? && Field(u.name, i) in r.value && r.value[Field(u.name, i)] == vals[k]
  {
    FieldAt(t, u, i);
    InChainEmitted(t, u);
    ParamsOfEmitted(u.base);
    ConstructorStoresArguments(t, vals, obj);
    assert SeenFor(vals, |MemberTypes(u.base)| + i) == vals[|MemberTypes(u.base)| + i];
  }

  lemma {:induction false} InChainEmitted(t: Type, u: Type)
    requires Emitted(t) && InChain(t, u)
    ensures Emitted(u)
    decreases t
  {
    if t != u { InChainEmitted(t.base, u); }
  }

  lemma {:induction false} MessageFirst(t: Type)
    requires InChain(t, SystemException)
    ensures MemberTypes(t) != [] && MemberFields(t)[0] == Field("System.Exception", 0)
    decreases t
  {
    if t != SystemException { MessageFirst(t.base); }
  }

  /** The message of an exception is its first argument. */
  lemma MessageHoldsFirst(t: Type, vals: seq<Value>, obj: Fields)
    requires Emitted(t) && InChain(t, SystemException) && |vals| == |MemberTypes(t)| < 0x100
    ensures var r := RunCtor(CtorOf(t), [This] + vals, obj); var message := Field("System.Exception", 0);
      vals != [] && r.Some? && message in r.value && r.value[message] == vals[0]
  {
    MessageFirst(t);
    ConstructorStoresArguments(t, vals, obj);
    assert SeenFor(vals, 0) == vals[0];
  }

  // ----------------------------------------------- the two exceptions written by hand

  const EXCEPTION := "com.sun.star.uno.Exception"
  const RUNTIME_EXCEPTION := "com.sun.star.uno.RuntimeException"

  function CliName(name: string): string { "unoidl." + name }

  function UnoException(): Type {
    var name := CliName(EXCEPTION);
    Declared(name, SystemException, ["System.Object"],
             Ctor(["System.String", "System.Object"],
                  [Ldarg(0), Ldarg(1), Call(CtorOf(SystemException)), Ldarg(0), Ldarg(2), Stfld(Field(name, 0)), Ret]))
  }

  function UnoRuntimeException(): Type {
    Declared(CliName(RUNTIME_EXCEPTION), UnoException(), [],
             Ctor(["System.String", "System.Object"],
                  [Ldarg(0), Ldarg(1), Ldarg(2), Call(CtorOf(UnoException())), Ret]))
  }

  /** The hardcoded constructors are the ones that would have been emitted. */
  lemma HardcodedAreEmitted()
    ensures Emitted(UnoException()) && Emitted(UnoRuntimeException())
  {
    assert MemberFields(SystemException) == [MESSAGE];
    assert LoadArgs(1, 1) == [Ldarg(1)] && LoadArgs(2, 1) == [Ldarg(2)] && LoadArgs(1, 2) == [Ldarg(1)] + [Ldarg(2)];
    var e := UnoException();
    assert Stores(e.name, 0, 1, 2) == [Ldarg(0), Ldarg(2), Stfld(Field(e.name, 0))] + Stores(e.name, 1, 0, 2);
    assert MemberTypes(e) == ["System.String"] + ["System.Object"];
    assert EmittedCode(e.name, SystemException, ["System.Object"]) == e.ctor.code;
    var r := UnoRuntimeException();
    assert EmittedCode(r.name, e, []) == r.ctor.code;
    assert |e.name| != |r.name| && |MESSAGE.owner| != |r.name| && |MESSAGE.owner| != |e.name|;
  }
}
