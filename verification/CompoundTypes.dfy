/**
 The type compiler's GetType for structs and exceptions (patches/mono/climaker_csharp.cs): a
 type is made on the first request, after its base type and with the structs among its
 members, and found again later. Each request returns the one type that belongs to the
 description, whatever was requested before.
 */
module CompoundTypes {
  import opened Wrappers
  import opened ConstructorCode

  // --------------------------------------------------------------- descriptions

  /** The type of a member: a struct, or any other type by its CLI name. */
  datatype MemberType = Other(name: string) | Struct(description: Compound)

  datatype Compound = Compound(name: string, isException: bool, base: Option<Compound>, members: seq<MemberType>)

  predicate Handwritten(c: Compound) { c.isException && (c.name == EXCEPTION || c.name == RUNTIME_EXCEPTION) }

  function FieldType(m: MemberType): string { if m.Other? then m.name else CliName(m.description.name) }

  function FieldTypes(members: seq<MemberType>): (types: seq<string>)
    ensures |types| == |members|
  {
    seq(|members|, i requires 0 <= i < |members| => FieldType(members[i]))
  }

  /** The type that belongs to a description. */
  function TypeOf(c: Compound): (t: Type)
    ensures t.Declared? && t.name == CliName(c.name)
  {
    if c.isException && c.name == EXCEPTION then UnoException()
    else if c.isException && c.name == RUNTIME_EXCEPTION then UnoRuntimeException()
    else
      var base, fields := if c.base.Some? then TypeOf(c.base.value) else Object, FieldTypes(c.members);
      Declared(CliName(c.name), base, fields, EmittedCtor(CliName(c.name), base, fields))
  }

  function BaseOf(c: Compound): Type { if c.base.Some? then TypeOf(c.base.value) else Object }

  /** The type registry: one description for a name. The two names of UNO stand for exceptions. */
  type Registry = map<string, Compound>

  ghost predicate Known(registry: Registry, c: Compound)
    decreases c
  {
    && CliName(c.name) in registry && registry[CliName(c.name)] == c
    && (c.name in {EXCEPTION, RUNTIME_EXCEPTION} ==> c.isException)
    && (c.base.Some? ==> Known(registry, c.base.value))
    && forall i :: 0 <= i < |c.members| && c.members[i].Struct? ==> Known(registry, c.members[i].description)
  }

  // ------------------------------------------------- nothing is nested in itself

  function Size(c: Compound): nat
    decreases c
  {
    1 + (if c.base.Some? then Size(c.base.value) else 0) + SizeOfMembers(c.members)
  }

  function SizeOfMembers(members: seq<MemberType>): nat
    decreases members
  {
    if members == [] then 0
    else SizeOfMembers(members[..|members| - 1]) + SizeOfMember(members[|members| - 1])
  }

  function SizeOfMember(m: MemberType): nat
    decreases m
  {
    if m.Struct? then Size(m.description) else 0
  }

  lemma {:induction false} MemberSmaller(members: seq<MemberType>, i: nat)
    requires i < |members| && members[i].Struct?
    ensures Size(members[i].description) <= SizeOfMembers(members)
    decreases |members|
  {
    if i < |members| - 1 {
      MemberSmaller(members[..|members| - 1], i);
    }
  }

  /** A name in the chain of a known description belongs to it or to a larger one. */
  lemma {:induction false} ChainSmaller(registry: Registry, c: Compound, name: string)
    requires Known(registry, c) && NameInChain(TypeOf(c), name)
    ensures HandwrittenName(name) || (name in registry && Size(registry[name]) <= Size(c))
    decreases c
  {
    if Handwritten(c) {
      HandwrittenChain(name);
    } else if name != CliName(c.name) {
      assert TypeOf(c).base == BaseOf(c) && NameInChain(BaseOf(c), name);
      if c.base.Some? {
        ChainSmaller(registry, c.base.value, name);
      }
    }
  }

  predicate HandwrittenName(name: string) { name == UnoException().name || name == UnoRuntimeException().name }

  lemma HandwrittenChain(name: string)
    requires NameInChain(UnoRuntimeException(), name) || NameInChain(UnoException(), name)
    ensures HandwrittenName(name)
  {
    assert !NameInChain(SystemException, name);
    assert NameInChain(UnoException(), name) <==> name == UnoException().name;
  }

  lemma PlainName(c: Compound)
    requires !Handwritten(c) && (c.name in {EXCEPTION, RUNTIME_EXCEPTION} ==> c.isException)
    ensures !HandwrittenName(CliName(c.name)) && CliName(c.name) != MESSAGE.owner
  {
    assert CliName(c.name)[0] == 'u' && MESSAGE.owner[0] == 'S';
    assert CliName(c.name)[7..] == c.name;
    assert UnoException().name[7..] == EXCEPTION && UnoRuntimeException().name[7..] == RUNTIME_EXCEPTION;
  }

  lemma {:induction false} TypeOfEmitted(registry: Registry, c: Compound)
    requires Known(registry, c)
    ensures Emitted(TypeOf(c))
    decreases c
  {
    HardcodedAreEmitted();
    if !Handwritten(c) {
      PlainName(c);
      if c.base.Some? {
        TypeOfEmitted(registry, c.base.value);
        if NameInChain(TypeOf(c.base.value), CliName(c.name)) {
          ChainSmaller(registry, c.base.value, CliName(c.name));
        }
      }
    }
  }

  // ------------------------------------------------------- member by member

  /** Member i of the description is field i of the type and, behind the members of the base
      type, parameter i of the constructor. */
  ghost predicate Describes(t: Type, c: Compound)
    decreases c
  {
    && t.Declared? && t.name == "unoidl." + c.name && |t.fields| == |c.members|
    && (forall i :: 0 <= i < |c.members| ==>
          t.fields[i] == match c.members[i] { case Other(n) => n case Struct(d) => "unoidl." + d.name })
    && |t.ctor.params| == |CtorOf(t.base).params| + |c.members|
    && (forall i :: 0 <= i < |CtorOf(t.base).params| ==> t.ctor.params[i] == CtorOf(t.base).params[i])
    && (forall i :: 0 <= i < |c.members| ==> t.ctor.params[|CtorOf(t.base).params| + i] == t.fields[i])
    && match c.base {
         case None => t.base == Object
         case Some(b) =>
           if Handwritten(b) then t.base == if b.name == EXCEPTION then UnoException() else UnoRuntimeException()
           else Describes(t.base, b)
       }
  }

  lemma {:induction false} TypeOfDescribes(registry: Registry, c: Compound)
    requires Known(registry, c) && !Handwritten(c)
    ensures Describes(TypeOf(c), c)
    decreases c
  {
    TypeOfEmitted(registry, c);
    var t := TypeOf(c);
    ParamsOfEmitted(t);
    ParamsOfEmitted(t.base);
    assert forall i :: 0 <= i < |c.members| ==> t.fields[i] == FieldType(c.members[i]);
    if c.base.Some? && !Handwritten(c.base.value) {
      TypeOfDescribes(registry, c.base.value);
    }
  }

  // -------------------------------------------------------------------- the emitter

  datatype StructEntry = StructEntry(paramTypes: seq<string>, ctor: Ctor)

  datatype Result<+T> = Ok(value: T) | SomethingWentWrong | NoSuchConstructor | KeyPresent

  method EmitLdarg(code: seq<Instr>, index: nat) returns (code': seq<Instr>)
    ensures code' == code + [LoadArg(index)]
  {
    if index <= 3 {
      code' := code + [Ldarg(index)];
    } else if index < 0x100 {
      code' := code + [Ldarg(index)];
    } else {
      code' := code + [WideLdarg(index)];
    }
  }

  function GetConstructor(t: Type, paramTypes: seq<string>): Option<Ctor> {
    if CtorOf(t).params == paramTypes then Some(CtorOf(t)) else None
  }

  /** A type that a look-up finds belongs to a known description, or is handwritten. */
  ghost predicate Found(registry: Registry, name: string, t: Type) {
    if name == UnoException().name then t == UnoException()
    else if name == UnoRuntimeException().name then t == UnoRuntimeException()
    else name in registry && Known(registry, registry[name]) && t == TypeOf(registry[name]) && t.name == name
  }

  /** Entries of this session describe the types they are filed under. */
  ghost predicate Filed(structs: map<string, StructEntry>, t: Type) {
    t.Declared? ==>
      && (t.name in structs ==> structs[t.name] == StructEntry(t.fields, t.ctor))
      && Filed(structs, t.base)
  }

  class TypeEmitter {
    ghost const registry: Registry
    var types: map<string, Type>  // found by name, in the module or in a referenced assembly
    var typeException: Option<Type>
    var typeRuntimeException: Option<Type>
    var generatedStructs: map<string, StructEntry>

    ghost predicate Valid()
      reads this
    {
      && (forall n :: n in types ==> Found(registry, n, types[n]))
      && (forall n :: n in generatedStructs ==>
            n in types && !HandwrittenName(n) && generatedStructs[n] == StructEntry(types[n].fields, types[n].ctor))
      && (typeException.Some? ==> typeException.value == UnoException() && CliName(EXCEPTION) in types)
      && (typeRuntimeException.Some? ==>
            typeRuntimeException.value == UnoRuntimeException() && CliName(RUNTIME_EXCEPTION) in types)
    }

    /** The referenced assemblies hold types that this compiler has made in earlier sessions. */
    constructor (registry: Registry, references: map<string, Type>)
      requires forall n :: n in references ==> Found(registry, n, references[n])
      ensures Valid() && this.registry == registry && types == references && generatedStructs == map[]
    {
      this.registry := registry;
      types := references;
      typeException, typeRuntimeException, generatedStructs := None, None, map[];
    }

    method TypeException() returns (t: Type)
      requires Valid()
      modifies this
      ensures Valid() && t == UnoException() && CliName(EXCEPTION) in types
      ensures Grown(old(types), 0) && generatedStructs == old(generatedStructs)
    {
      if typeException == None {
        var name := CliName(EXCEPTION);
        if name in types {
          typeException := Some(types[name]);
        } else {
          var ctor := CtorOf(SystemException);
          var code := [Ldarg(0), Ldarg(1), Call(ctor), Ldarg(0), Ldarg(2), Stfld(Field(name, 0)), Ret];
          t := Declared(name, SystemException, ["System.Object"], Ctor(["System.String", "System.Object"], code));
          types := types[name := t];
          typeException := Some(t);
        }
      }
      t := typeException.value;
    }

    /** Names were added: the handwritten ones, or those of descriptions of bounded size. */
    ghost predicate Grown(before: map<string, Type>, size: nat)
      reads this
    {
      && before.Keys <= types.Keys
      && forall n :: n in types && n !in before ==> HandwrittenName(n) || (n in registry && Size(registry[n]) <= size)
    }

    method TypeRuntimeException() returns (t: Type)
      requires Valid()
      modifies this
      ensures Valid() && t == UnoRuntimeException() && CliName(RUNTIME_EXCEPTION) in types
      ensures Grown(old(types), 0) && generatedStructs == old(generatedStructs)
    {
      if typeRuntimeException == None {
        var name := CliName(RUNTIME_EXCEPTION);
        if name in types {
          typeRuntimeException := Some(types[name]);
        } else {
          var base := TypeException();
          var code := [Ldarg(0), Ldarg(1), Ldarg(2), Call(CtorOf(base)), Ret];
          t := Declared(name, base, [], Ctor(["System.String", "System.Object"], code));
          types := types[name := t];
          typeRuntimeException := Some(t);
        }
      }
      t := typeRuntimeException.value;
    }

    /** The type of a description: found, or made after its base type. */
    method GetType(xtd: Compound) returns (r: Result<Type>)
      requires Valid() && Known(registry, xtd)
      modifies this
      ensures Valid() && r == Ok(TypeOf(xtd)) && Emitted(TypeOf(xtd))
      ensures Handwritten(xtd) || Describes(r.value, xtd)
      ensures CliName(xtd.name) in types && Grown(old(types), Size(xtd))
      decreases xtd, 2
    {
      TypeOfEmitted(registry, xtd);
      if !Handwritten(xtd) { TypeOfDescribes(registry, xtd); }
      if xtd.isException {
        if xtd.name == EXCEPTION {
          var t := TypeException();
          return Ok(t);
        }
        if xtd.name == RUNTIME_EXCEPTION {
          var t := TypeRuntimeException();
          return Ok(t);
        }
      }
      PlainName(xtd);
      var name := CliName(xtd.name);
      if name in types { return Ok(types[name]); }
      var baseType := Object;
      if xtd.base.Some? {
        r := GetType(xtd.base.value);
        if !r.Ok? { return; }
        baseType := r.value;
      }
      r := Define(xtd, baseType);
    }

    /** Makes the type: its members, and the constructor that takes all members. */
    method Define(xtd: Compound, baseType: Type) returns (r: Result<Type>)
      requires Valid() && Known(registry, xtd) && !Handwritten(xtd)
      requires baseType == BaseOf(xtd) && CliName(xtd.name) !in types
      modifies this
      ensures Valid() && r == Ok(TypeOf(xtd))
      ensures CliName(xtd.name) in types && Grown(old(types), Size(xtd))
      decreases xtd, 1
    {
      var name := CliName(xtd.name);
      PlainName(xtd);
      BaseFiled(xtd);
      var baseTypeEntry: Option<StructEntry> := None;
      if baseType.Declared? && baseType.name in generatedStructs {
        baseTypeEntry := Some(generatedStructs[baseType.name]);
      }
      var allParamTypes, baseMembersLength := CollectMembers(xtd, baseType);
      if !allParamTypes.Ok? { return SomethingWentWrong; }
      TypeOfEmitted(registry, xtd);
      var ctor := EmitConstructor(name, baseType, baseTypeEntry, allParamTypes.value, baseMembersLength);
      if !ctor.Ok? { return NoSuchConstructor; }
      var members := allParamTypes.value[baseMembersLength..];
      assert members == FieldTypes(xtd.members);
      r := Add(xtd, Declared(name, baseType, members, ctor.value));
    }

    /** Enters the finished type. */
    method Add(ghost xtd: Compound, t: Type) returns (r: Result<Type>)
      requires Valid() && Known(registry, xtd) && !Handwritten(xtd) && t == TypeOf(xtd)
      requires !HandwrittenName(t.name) && t.name !in types
      modifies this
      ensures Valid() && r == Ok(t) && types == old(types)[t.name := t]
    {
      if t.name in generatedStructs { return KeyPresent; }
      generatedStructs := generatedStructs[t.name := StructEntry(t.fields, t.ctor)];
      types := types[t.name := t];
      return Ok(t);
    }

    /** The types of all members, those of the base types first. */
    method CollectMembers(xtd: Compound, baseType: Type) returns (r: Result<seq<string>>, baseMembersLength: nat)
      requires Valid() && Known(registry, xtd) && Filed(generatedStructs, baseType)
      modifies this
      ensures Valid() && Grown(old(types), Size(xtd) - 1)
      ensures r == Ok(MemberTypes(baseType) + FieldTypes(xtd.members)) && baseMembersLength == |MemberTypes(baseType)|
      decreases xtd, 1, 0
    {
      var baseTypes;
      baseTypes, baseMembersLength := CollectBases(baseType);
      var allParamTypes := new string[baseMembersLength + |xtd.members|](_ => "");
      var memberPos := WriteBases(allParamTypes, baseTypes, baseType);
      if baseMembersLength != memberPos { return SomethingWentWrong, baseMembersLength; }
      var ok := WriteMembers(allParamTypes, baseMembersLength, xtd);
      if !ok { return SomethingWentWrong, baseMembersLength; }
      return Ok(allParamTypes[..]), baseMembersLength;
    }

    /** The constructor with all members as parameters. */
    method EmitConstructor(name: string, baseType: Type, baseTypeEntry: Option<StructEntry>,
                           allParamTypes: seq<string>, baseMembersLength: nat)
      returns (r: Result<Ctor>)
      requires Emitted(baseType) && baseMembersLength == |MemberTypes(baseType)|
      requires MemberTypes(baseType) <= allParamTypes
      requires baseTypeEntry.Some? ==> baseTypeEntry.value.ctor == CtorOf(baseType)
      ensures r == Ok(EmittedCtor(name, baseType, allParamTypes[baseMembersLength..]))
    {
      var code, paramTypes := PushBaseArguments(baseType, allParamTypes, baseMembersLength);
      ParamsOfEmitted(baseType);
      var ctor := if baseTypeEntry.Some? then Some(baseTypeEntry.value.ctor) else GetConstructor(baseType, paramTypes);
      if ctor == None { return NoSuchConstructor; }
      code := code + [Call(ctor.value)];
      code := StoreMembers(code, name, |allParamTypes| - baseMembersLength, baseMembersLength);
      code := code + [Ret];
      CodeParts(name, baseType, allParamTypes[baseMembersLength..]);
      assert allParamTypes == MemberTypes(baseType) + allParamTypes[baseMembersLength..];
      return Ok(Ctor(allParamTypes, code));
    }

    /** In every state: each member of each type gets its own argument. */
    lemma EveryTypeHoldsArguments(name: string, vals: seq<Value>, obj: Fields)
      requires Valid() && name in types && |vals| == |MemberTypes(types[name])| < 0x100
      ensures HoldsOwnArguments(types[name], vals, obj)
    {
      if HandwrittenName(name) {
        HardcodedAreEmitted();
      } else {
        TypeOfEmitted(registry, registry[name]);
      }
      HoldsOwnIffFew(types[name]);
    }

    lemma {:induction false} EntriesFiled(c: Compound)
      requires Valid() && Known(registry, c)
      ensures Filed(generatedStructs, TypeOf(c))
      decreases c
    {
      if Handwritten(c) {
        assert Filed(generatedStructs, SystemException) && Filed(generatedStructs, UnoException());
      } else {
        PlainName(c);
        if c.base.Some? { EntriesFiled(c.base.value); }
      }
    }

    lemma BaseFiled(c: Compound)
      requires Valid() && Known(registry, c)
      ensures Filed(generatedStructs, BaseOf(c))
    {
      if c.base.Some? { EntriesFiled(c.base.value); }
    }

    /** The own members come last; the structs among them are made on the way. */
    method WriteMembers(all: array<string>, from: nat, xtd: Compound) returns (ok: bool)
      requires Valid() && Known(registry, xtd) && all.Length == from + |xtd.members|
      modifies this, all
      ensures Valid() && ok && all[..] == old(all[..from]) + FieldTypes(xtd.members)
      ensures forall i :: 0 <= i < |xtd.members| ==>
                all[from + i] == match xtd.members[i] { case Other(n) => n case Struct(d) => "unoidl." + d.name }
      ensures Grown(old(types), Size(xtd) - 1)
      decreases xtd, 0
    {
      var memberPos := 0;
      while memberPos < |xtd.members|
        invariant 0 <= memberPos <= |xtd.members|
        invariant all[..from + memberPos] == old(all[..from]) + FieldTypes(xtd.members)[..memberPos]
        invariant Valid() && Grown(old(types), Size(xtd) - 1)
      {
        var fieldType;
        match xtd.members[memberPos] {
          case Other(n) => fieldType := n;
          case Struct(d) =>
            MemberSmaller(xtd.members, memberPos);
            var member := GetType(d);
            if !member.Ok? { return false; }
            fieldType := member.value.name;
        }
        all[from + memberPos] := fieldType;
        memberPos := memberPos + 1;
      }
      assert all[..] == all[..from + memberPos] && FieldTypes(xtd.members)[..memberPos] == FieldTypes(xtd.members);
      return true;
    }

    /** The call of the base constructor gets this and the first arguments. */
    method PushBaseArguments(ghost baseType: Type, allParamTypes: seq<string>, baseMembersLength: nat)
      returns (code: seq<Instr>, paramTypes: seq<string>)
      requires baseMembersLength == |MemberTypes(baseType)| && MemberTypes(baseType) <= allParamTypes
      ensures code == [Ldarg(0)] + LoadArgs(1, baseMembersLength) && paramTypes == MemberTypes(baseType)
    {
      code, paramTypes := [Ldarg(0)], [];
      var memberPos := 0;
      while memberPos < baseMembersLength
        invariant 0 <= memberPos <= baseMembersLength && paramTypes == allParamTypes[..memberPos]
        invariant code + LoadArgs(memberPos + 1, baseMembersLength - memberPos)
               == [Ldarg(0)] + LoadArgs(1, baseMembersLength)
      {
        ghost var before, rest := code, LoadArgs(memberPos + 2, baseMembersLength - memberPos - 1);
        code := EmitLdarg(code, memberPos + 1);
        paramTypes := paramTypes + [allParamTypes[memberPos]];
        assert before + ([LoadArg(memberPos + 1)] + rest) == code + rest;
        memberPos := memberPos + 1;
      }
    }

    /** Each own member is stored from its argument. */
    method StoreMembers(before: seq<Instr>, name: string, members: nat, baseMembersLength: nat)
      returns (code: seq<Instr>)
      ensures code == before + Stores(name, 0, members, baseMembersLength + 1)
    {
      code := before;
      var memberPos := 0;
      while memberPos < members
        invariant 0 <= memberPos <= members
        invariant code + Stores(name, memberPos, members - memberPos, baseMembersLength + 1)
               == before + Stores(name, 0, members, baseMembersLength + 1)
      {
        ghost var start, rest := code, Stores(name, memberPos + 1, members - memberPos - 1, baseMembersLength + 1);
        code := code + [Ldarg(0)];
        code := EmitLdarg(code, memberPos + baseMembersLength + 1);
        code := code + [Stfld(Field(name, memberPos))];
        ghost var store := [Ldarg(0), LoadArg(baseMembersLength + 1 + memberPos), Stfld(Field(name, memberPos))];
        assert code == start + store;
        assert start + (store + rest) == code + rest;
        memberPos := memberPos + 1;
      }
    }

    method CollectBases(baseType: Type) returns (baseTypes: seq<Type>, allMembersLength: nat)
      ensures Chain(baseTypes, Object, baseType) && allMembersLength == |MemberTypes(baseType)|
    {
      baseTypes, allMembersLength := [], 0;
      var pos := baseType;
      while pos != Object
        invariant Chain(baseTypes, pos, baseType)
        invariant allMembersLength + |MemberTypes(pos)| == |MemberTypes(baseType)|
        decreases pos
      {
        ChainMore(baseTypes, pos, baseType);
        baseTypes := baseTypes + [pos];
        if pos == SystemException {
          allMembersLength := allMembersLength + 1;
          break;
        }
        allMembersLength := allMembersLength + |pos.fields|;
        pos := pos.base;
      }
    }

    method WriteBases(all: array<string>, baseTypes: seq<Type>, ghost baseType: Type) returns (memberPos: nat)
      requires Filed(generatedStructs, baseType) && Chain(baseTypes, Object, baseType)
      requires |MemberTypes(baseType)| <= all.Length
      modifies all
      ensures memberPos == |MemberTypes(baseType)| && all[..memberPos] == MemberTypes(baseType)
    {
      memberPos := 0;
      var i := |baseTypes|;
      ghost var done := Object;
      assert baseTypes[..i] == baseTypes;
      while i > 0
        invariant 0 <= i <= |baseTypes| && memberPos <= |MemberTypes(baseType)|
        invariant Chain(baseTypes[..i], done, baseType)
        invariant all[..memberPos] == MemberTypes(done)
      {
        i := i - 1;
        var t := baseTypes[i];
        ChainLast(baseTypes[..i + 1], done, baseType);
        assert baseTypes[..i + 1][..i] == baseTypes[..i];
        ChainBound(baseTypes[..i], t, baseType);
        ChainFiled(generatedStructs, baseTypes[..i], t, baseType);
        var fields;
        if t == SystemException {
          fields := ["System.String"];
        } else if t.name in generatedStructs {
          fields := generatedStructs[t.name].paramTypes;
        } else {
          fields := t.fields;
        }
        memberPos := WriteFields(all, memberPos, fields);
        done := t;
      }
    }

    method WriteFields(all: array<string>, from: nat, fields: seq<string>) returns (memberPos: nat)
      requires from + |fields| <= all.Length
      modifies all
      ensures memberPos == from + |fields| && all[..memberPos] == old(all[..from]) + fields
    {
      memberPos := from;
      for j := 0 to |fields|
        invariant memberPos == from + j && all[..memberPos] == old(all[..from]) + fields[..j]
      {
        all[memberPos] := fields[j];
        memberPos := memberPos + 1;
      }
      assert fields[..|fields|] == fields;
    }
  }

  /** types are the types from top on upwards that lie below pos. */
  ghost predicate Chain(types: seq<Type>, pos: Type, top: Type)
    decreases |types|
  {
    if types == [] then pos == top
    else
      var last := types[|types| - 1];
      && last != Object && pos == (if last.Declared? then last.base else Object)
      && Chain(types[..|types| - 1], last, top)
  }

  lemma ChainMore(types: seq<Type>, pos: Type, top: Type)
    requires Chain(types, pos, top) && pos != Object
    ensures Chain(types + [pos], if pos.Declared? then pos.base else Object, top)
  {
    assert (types + [pos])[..|types|] == types;
  }

  lemma ChainLast(types: seq<Type>, pos: Type, top: Type)
    requires Chain(types, pos, top) && types != []
    ensures var last := types[|types| - 1];
      last != Object && Chain(types[..|types| - 1], last, top)
      && MemberTypes(last) == MemberTypes(pos) + (if last.Declared? then last.fields else ["System.String"])
  {}

  lemma {:induction false} ChainBound(types: seq<Type>, pos: Type, top: Type)
    requires Chain(types, pos, top)
    ensures |MemberTypes(pos)| <= |MemberTypes(top)|
    decreases |types|
  {
    if types != [] {
      ChainBound(types[..|types| - 1], types[|types| - 1], top);
    }
  }

  lemma {:induction false} ChainFiled(structs: map<string, StructEntry>, types: seq<Type>, pos: Type, top: Type)
    requires Chain(types, pos, top) && Filed(structs, top)
    ensures Filed(structs, pos)
    decreases |types|
  {
    if types != [] {
      ChainFiled(structs, types[..|types| - 1], types[|types| - 1], top);
    }
  }
}
