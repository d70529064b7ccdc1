# Verified models of the OpenOffice build and analysis tools

This project models the algorithmic cores of several tools of the repository and proves what they are for. Code that
changes state in the repository is a method here, proved against a function or a predicate; what the code promises is
then proved about that function, for all inputs.

Verify with `dafny verify dfyconfig.toml`.

| file | what it models |
|---|---|
| `TypeNames.dfy` | the translation of UNO type names in `climaker`, the compiler from UNO types to .NET assemblies |
| `Wrappers.dfy` | optional values, elements of sequences |
| `ConstructorCode.dfy` | the constructors `climaker` emits for structs and exceptions, and a stack machine that runs them |
| `CompoundTypes.dfy` | the requests for structs and exceptions in one session of `climaker`: look-up, recursion to base and member types, emission |
| `ExceptionChain.dfy` | the reduction of declared exceptions and the catch chain emitted around a service constructor |
| `InterfaceWorklist.dfy` | the worklist that completes interface types, which grows while it is worked off |
| `BridgeNames.dfy` | the two-way mapping of type names in the Mono bridge |
| `RefCount.dfy` | the resurrecting reference count of proxies and bridges, as interleaved steps of any number of threads |
| `Bytes.dfy`, `SectorChains.dfy` | integers in bytes, chains in an allocation table |
| `CompoundLayout.dfy`, `CompoundReader.dfy`, `EmptyStreamFile.dfy` | the compound document reader over a ghost layout of the image, and a well-formed image with a stream that it cannot read |
| `PptRecords.dfy` | the recursive reader of PowerPoint records |
| `ConditionalText.dfy` | conditional compilation in the lexer of resource sources |
| `MacroExpander.dfy`, `MacroCalls.dfy` | the macro expander, which splices in place and rescans; macros with arguments |
| `SrcSyntax.dfy`, `SrcParser.dfy` | the parser of resource sources: as a state machine, and on its mutable elements |
| `ExpressionTree.dfy`, `ExpressionValue.dfy` | the expression parser on nodes with parent links, and the value of what it builds |
| `DataTable.dfy` | the aggregates of the pivot table cache, over the real numbers |
| `RevisionTree.dfy` | the tree of CVS branches |

## What turned out false

- An empty stream below the minimum stream size in a file without short sectors cannot be read, although the file is
  well formed and the stream is found by its name: the table of short sectors is missing and the reader raises an
  exception (`EmptyStreamFile.EmptyStreamFails`, and `ReadEmptyStream` through the whole reader). A read
  succeeds if and only if the entry is no short stream, or both the table of short sectors and the root storage exist
  (`CompoundReader.StreamRecovered`); every stream with at least one byte is of that kind (`NonEmptyIsReadable`).
- The PowerPoint reader skips a last record of length zero, since its loop test is strict. It visits all records if and
  only if no stream ends in such a record (`PptRecords.ReadsForest`).
- `ldarg.s` has one byte for its operand, but from 256 on the compiler writes two. With 256 to 511 arguments the emitted
  constructor runs, but stores `this` in the member of the 256th argument, and the first arguments again in those behind
  it (`ConstructorCode.ConstructorStoresArguments`). Among constructors of fewer than 512 arguments, every member always
  gets its own argument if and only if there are fewer than 256 (`ConstructorCode.HoldsOwnIffFew`).
- The macro expander does not end on a macro that leads back to itself; it ends if and only if the search for such a
  cycle finds none (`MacroExpander.EndsIffAcyclic`).
- The arguments of a macro call are found again if and only if none of them has a comma or a parenthesis in it
  (`MacroCalls.CallFindsArguments`); a call inside the argument of a call stops the expander (`NestedCallStops`).
- The conditional lexer raises if and only if `#elif`, `#else` or `#endif` comes with no group open
  (`ConditionalText.RunDepth`).
- The expression parser nests products to the right, so 8/4/2 comes out as 4
  (`ExpressionValue.DivisionNestsToTheRight`). The parsed value is the usual one, whatever the numbers are, if and only
  if every division is the only operator of its product (`ExpressionValue.DivisionIffAlone`).
- Automatic aggregation always sums, while the comment in the code promises a count when some value is no number. Over
  cells of given types, the result is the promised one, whatever the numbers are, if and only if all cells are numbers,
  or none is a number or a text (`DataTable.AutoAsPromised`).

Where the code and its own comments disagree the model follows the code: the comment at
`patches/mono/climaker_csharp.cs:504-512` shows a blank after a comma, which the code takes for part of a name
(`TypeNames.BlankAfterComma`); the comment at line 1617 of that file speaks of a handler for RuntimeException that is
skipped, but the test asks about the type object and never holds (`ExceptionChain.NotATypeObject`).

## Model

| member | source | states |
|---|---|---|
| TypeNames.MapUnoPolymorphicName | patches/mono/climaker_csharp.cs:513-564 | the scanner with its two moving indices, in bounds and ending on every string, including the jump over nested brackets and the exception past the end |
| TypeNames.RemoveBrackets | patches/mono/climaker_csharp.cs:571-582 | the loop over leading brackets, with the exception past the end of the string |
| TypeNames.AppendBrackets | patches/mono/climaker_csharp.cs:622-624 | one pair of brackets for each dimension behind the name |
| TypeNames.MapUnoTypeName | patches/mono/climaker_csharp.cs:566-629 | the mutually recursive translation of a name ends on every string and maps it as the specification does |
| TypeNames.CloseOverType | patches/mono/climaker_csharp.cs:545-557 | the bracket counter passes over the spelling of any type, however deeply nested, without a change of the count |
| TypeNames.CloseOverList | patches/mono/climaker_csharp.cs:545-557 | from inside an argument list the counter arrives at the bracket that ends this list |
| TypeNames.ScanOverType | patches/mono/climaker_csharp.cs:529-560 | the scanner passes over one argument, also when it starts at the second character of it |
| TypeNames.ScanList | patches/mono/climaker_csharp.cs:529-563 | scanning any argument list appends exactly the CLI spellings of the arguments |
| TypeNames.StripSpelling | patches/mono/climaker_csharp.cs:571-582 | the brackets of a sequence type are counted and its element name is left |
| TypeNames.PolyMaps | patches/mono/climaker_csharp.cs:513-564 | a polymorphic struct name maps to the struct with its arguments mapped |
| TypeNames.TypeNameMaps | patches/mono/climaker_csharp.cs:513-629 | for every UNO type tree, nested to any depth, the mapped UNO spelling is the CLI spelling |
| TypeNames.BlankAfterComma | patches/mono/climaker_csharp.cs:504-512 | with a blank after the comma, as the comment has it, a keyword argument is taken for a name of its own |
| TypeNames.CliKeywords | patches/mono/climaker_csharp.cs:39-76 | the keyword table of the compiler; its keys are plain names, so that the theorem applies to it |
| TypeNames.NumberKeywords | patches/mono/climaker_csharp.cs:39-76 | integer keywords go to the integer types of their width and sign, and the table of numbers has no others than these and byte, float, double |
| TypeNames.KeywordNames | patches/mono/climaker_csharp.cs:39-76 | the table has exactly the sixteen keywords |
| TypeNames.OnlyBrackets | patches/mono/climaker_csharp.cs:571-582 | brackets without an element name, whole or cut off, raise the exception past the end |
| TypeNames.UnclosedNested | patches/mono/climaker_csharp.cs:545-557 | nested type arguments that are not closed raise it too |
| TypeNames.UnclosedList | patches/mono/climaker_csharp.cs:529-563 | an argument list that is not closed loses its last argument without an exception |
| CompoundTypes.EmitLdarg | patches/mono/climaker_csharp.cs:478-502 | the load of an argument; the operand is too wide from 256 on |
| CompoundTypes.TypeEmitter.CollectBases | patches/mono/climaker_csharp.cs:695-709 | the chain of base types from the nearest one up, and the number of all their members |
| CompoundTypes.TypeEmitter.WriteBases | patches/mono/climaker_csharp.cs:711-745 | written from the far end, the parameter types are those of all members, ancestors first, whether a base is of this session or not |
| CompoundTypes.TypeEmitter.CollectMembers | patches/mono/climaker_csharp.cs:695-796 | in every reachable state the two counts agree, so the error for different counts is never reached; the own members come last |
| CompoundTypes.TypeEmitter.PushBaseArguments | patches/mono/climaker_csharp.cs:850-859 | this and the first arguments are pushed, and the parameter types of the base constructor are found |
| CompoundTypes.TypeEmitter.StoreMembers | patches/mono/climaker_csharp.cs:863-869 | each own member is stored from its argument |
| CompoundTypes.TypeEmitter.constructor | patches/mono/climaker_csharp.cs:129-148 | a session starts with the types of the referenced assemblies, made in earlier sessions, and the invariant holds |
| CompoundTypes.TypeEmitter.GetType | patches/mono/climaker_csharp.cs:631-894 | after any requests in any order, a request returns the one type of its description, member by member as described, makes it with its base and member types when it is missing, takes no error branch and keeps the invariant |
| CompoundTypes.TypeOfDescribes | patches/mono/climaker_csharp.cs:756-843 | member i of a description is field i of the type and parameter i behind the parameters of the base constructor; the base is the type of the described base, all the way up |
| CompoundTypes.TypeEmitter.TypeException | patches/mono/climaker_csharp.cs:362-406 | the handwritten exception is made at most once and stays out of the entries of the session |
| CompoundTypes.TypeEmitter.TypeRuntimeException | patches/mono/climaker_csharp.cs:408-447 | the same for its subclass, which is made after it |
| CompoundTypes.TypeEmitter.WriteMembers | patches/mono/climaker_csharp.cs:756-794 | the type of member i is written i places behind the inherited ones; the structs among the members are requested in between |
| CompoundTypes.TypeEmitter.EmitConstructor | patches/mono/climaker_csharp.cs:845-872 | the constructor takes all members; the base constructor is found, in the entries or by its parameter types |
| CompoundTypes.TypeOfEmitted | patches/mono/climaker_csharp.cs:659-872 | the type of every known description is built by the emission all the way up, and no type is its own ancestor |
| CompoundTypes.ChainSmaller | patches/mono/climaker_csharp.cs:659-661 | names in the chain of a description belong to smaller descriptions, so that a type is not defined again while its base and members are |
| CompoundTypes.TypeEmitter.EveryTypeHoldsArguments | patches/mono/climaker_csharp.cs:845-872 | in every reachable state, the constructor of each type with fewer than 256 members puts each argument in its member |
| ConstructorCode.RunToCall | patches/mono/climaker_csharp.cs:850-861 | the emitted code up to the base call runs the base constructor on the arguments seen for the base members |
| ConstructorCode.RunStores | patches/mono/climaker_csharp.cs:863-871 | the emitted stores put in each field the argument that the code sees for it |
| ConstructorCode.SeenTwice | patches/mono/climaker_csharp.cs:478-502 | a base constructor sees exactly what the derived one has seen |
| ConstructorCode.RunEmitted | patches/mono/climaker_csharp.cs:845-872 | for every chain of emitted types with fewer than 512 members, running the constructor assigns to all members the arguments that it sees |
| ConstructorCode.MembersDistinct | patches/mono/climaker_csharp.cs:687-794 | no two members of a type and its ancestors are the same field |
| ConstructorCode.ConstructorStoresArguments | patches/mono/climaker_csharp.cs:845-872 | after a constructor of fewer than 512 arguments each member holds its own argument, or from the 256th on this and the first arguments again; every other field is untouched |
| ConstructorCode.HoldsOwnIffFew | patches/mono/climaker_csharp.cs:478-502 | with any arguments every member gets its own, if and only if there are fewer than 256 |
| ConstructorCode.FieldHoldsArgument | patches/mono/climaker_csharp.cs:845-872 | with fewer than 256 arguments, field i of any type in the chain holds the argument i places behind those of its base types |
| ConstructorCode.MessageHoldsFirst | patches/mono/climaker_csharp.cs:845-872 | the message of an exception is the first argument, through any number of derived types |
| ConstructorCode.HardcodedAreEmitted | patches/mono/climaker_csharp.cs:362-447 | the two exceptions written by hand have the constructor that would have been emitted, so chains may start from them |
| ExceptionChain.ReduceExceptions | patches/mono/climaker_csharp.cs:1275-1311 | the removal in place ends and leaves, in order, the listed types without a strict superclass in the list |
| ExceptionChain.RemoveNext | patches/mono/climaker_csharp.cs:1290-1308 | one pass removes the first type with a superclass in the list, or ends the search |
| ExceptionChain.FindSuper | patches/mono/climaker_csharp.cs:1294-1300 | whether the list holds a strict superclass |
| ExceptionChain.TopmostHas | patches/mono/climaker_csharp.cs:1286-1310 | a type is in the reduced list if and only if it is listed and has no strict superclass in the list |
| ExceptionChain.TopmostInOrder | patches/mono/climaker_csharp.cs:1286-1310 | the reduced list keeps the order of the declared one |
| ExceptionChain.TopSuper | patches/mono/climaker_csharp.cs:1286-1310 | a removed type has a superclass that is not removed |
| ExceptionChain.EmitHandlers | patches/mono/climaker_csharp.cs:1606-1657 | the handlers of the chain in order, or none when UNO's Exception itself is declared |
| ExceptionChain.NotATypeObject | patches/mono/climaker_csharp.cs:1614-1619 | the test for a second RuntimeException handler never holds |
| ExceptionChain.TopmostCatches | patches/mono/climaker_csharp.cs:1286-1310 | the reduced list catches exactly what the declared list does |
| ExceptionChain.ChainLetsThrough | patches/mono/climaker_csharp.cs:1606-1657 | an exception becomes a DeploymentException if and only if it is a UNO exception, no RuntimeException and no subclass of a declared type |
| InterfaceWorklist.TypeEmitter.GetType | patches/mono/climaker_csharp.cs:289-347 | after a request the interface and all its bases are defined, new ones are incomplete, and nothing is defined that was not needed |
| InterfaceWorklist.TypeEmitter.EmitMembers | patches/mono/climaker_csharp.cs:1123-1247 | all interfaces the members mention are defined; this may add incomplete interfaces |
| InterfaceWorklist.TypeEmitter.CompleteType | patches/mono/climaker_csharp.cs:1103-1258 | completing an interface creates it after its bases, by recursion that ends on every hierarchy without cycles |
| InterfaceWorklist.TypeEmitter.CompleteBases | patches/mono/climaker_csharp.cs:1103-1112 | the incomplete bases are completed first, and the interface is not created meanwhile |
| InterfaceWorklist.TypeEmitter.CreateType | patches/mono/climaker_csharp.cs:1253-1257 | a type leaves the incomplete ones when it is created, and is created at most once |
| InterfaceWorklist.TypeEmitter.Dispose | patches/mono/climaker_csharp.cs:1773-1777 | the loop ends with no incomplete interface; exactly the needed interfaces were created, each once and after all its bases |
| InterfaceWorklist.World.OnlyNeededTwice | patches/mono/climaker_csharp.cs:289-347 | requests one after the other define nothing but what the first one leads to |
| BridgeNames.MapUnoTypeName | scratch/mono-uno-bridge/bridge.cs:1396-1478 | UNO to CLI for names without type arguments, with the exceptions for the empty name and for cut off brackets |
| BridgeNames.SameAsCompiler | scratch/mono-uno-bridge/bridge.cs:1396-1478 | on every other name without type arguments, well-formed or not, the bridge and the type compiler agree |
| BridgeNames.TypeMaps | scratch/mono-uno-bridge/bridge.cs:1396-1478 | every type without type arguments maps to its CLI spelling: keywords by the table, names behind the prefix, brackets behind |
| BridgeNames.TypeComesBack | scratch/mono-uno-bridge/bridge.cs:1510-1594 | the CLI spelling of such a type is mapped back to the UNO spelling |
| BridgeNames.CutBrackets | scratch/mono-uno-bridge/bridge.cs:1512-1527 | the element name and the number of brackets behind it |
| BridgeNames.MapManagedTypeName | scratch/mono-uno-bridge/bridge.cs:1510-1594 | CLI to UNO: the brackets in front of the name that belongs to the element |
| BridgeNames.ElementFound | scratch/mono-uno-bridge/bridge.cs:1515-1527 | the search for brackets finds the element under any number of them |
| BridgeNames.RoundTrip | scratch/mono-uno-bridge/bridge.cs:1396-1594 | mapping a simple name under any number of brackets to CLI and back gives the name |
| BridgeNames.Injective | scratch/mono-uno-bridge/bridge.cs:1396-1478 | no two such names share a CLI name |
| BridgeNames.UnoKeywords | scratch/mono-uno-bridge/bridge.cs:1533-1585 | the table back is inverse to the table of UNO keywords, and holds no name of this compiler |
| BridgeNames.NothingElse | scratch/mono-uno-bridge/bridge.cs:1533-1585 | every entry of the table back belongs to a keyword |
| RefCount.StepKeepsBalance | scratch/mono-uno-bridge/mono_proxy.cxx:150-179 | every step of every thread keeps registrations and pending ones minus revocations and pending ones at one while referenced, else at zero |
| RefCount.RunKeepsBalance | scratch/mono-uno-bridge/mono_bridge.cxx:197-227 | so does every run of interleaved acquire and release |
| RefCount.RegisteredWhenReferenced | scratch/mono-uno-bridge/mono_proxy.cxx:84-179 | from creation on, in every state with no call under way the object is registered once if referenced and not at all otherwise |
| RefCount.LastEventCanBeRevocation | scratch/mono-uno-bridge/mono_proxy.cxx:167-179 | a run in which a referenced object hears of its revocation last, so the environment has to count |
| RefCount.Counted.constructor | scratch/mono-uno-bridge/mono_bridge.cxx:384-402 | the first registration, of the mapping that acquire and release use |
| RefCount.Counted.AcquireCount | scratch/mono-uno-bridge/mono_bridge.cxx:197-216 | the atomic part of acquire is a step of the machine |
| RefCount.Counted.ReleaseCount | scratch/mono-uno-bridge/mono_bridge.cxx:218-227 | the atomic part of release is a step of the machine |
| RefCount.Counted.Acquire | scratch/mono-uno-bridge/mono_proxy.cxx:150-165 | undisturbed, acquire takes a reference and keeps the balance |
| RefCount.Counted.Release | scratch/mono-uno-bridge/mono_proxy.cxx:167-179 | undisturbed, release gives a reference back and keeps the balance |
| Bytes.SignedRoundTrip | scratch/mso-dumper/src/globals.py:177-194 | every signed 32-bit integer is read back from its little-endian bytes |
| Bytes.UnsignedRoundTrip | scratch/mso-dumper/src/globals.py:197-214 | values of one, two and four bytes are read back, and signed reading agrees below half range |
| Bytes.EncodeDecode | scratch/mso-dumper/src/globals.py:197-214 | the bytes are determined by the value read from them |
| Bytes.LittleEndian | scratch/mso-dumper/src/globals.py:197-214 | the least significant byte comes first |
| Bytes.SignedIs | scratch/mso-dumper/src/globals.py:177-194 | the highest bit of one, two or four bytes is the sign, in two's complement |
| SectorChains.ChainUnique | scratch/mso-dumper/src/ole.py:413-421 | following the links from a sector gives one chain |
| SectorChains.ChainHasNoRepeats | scratch/mso-dumper/src/ole.py:413-421 | a chain that reaches the end mark repeats no sector and is no longer than the table |
| SectorChains.ChainsDisjoint | scratch/mso-dumper/src/ole.py:413-421 | when no sector has two predecessors, chains from distinct heads share no sector |
| CompoundReader.Sat.GetSectorIDChain | scratch/mso-dumper/src/ole.py:413-421 | when the end mark is reached the loop ends with exactly the chain |
| CompoundReader.Sat.BuildArray | scratch/mso-dumper/src/ole.py:340-352 | entry 128k+i is the i-th integer of the k-th sector of the table |
| CompoundReader.Msat.GetSAT | scratch/mso-dumper/src/ole.py:309-318 | the table is built once, from all its sectors in order, and kept |
| CompoundReader.Header.ParseSector | scratch/mso-dumper/src/ole.py:206-228 | one sector of the list adds up to 127 entries and leads to the next, or ends the list |
| CompoundReader.Header.Parse | scratch/mso-dumper/src/ole.py:165-230 | any list of table sectors, in the 109 places of the header and a chain of further sectors, is recovered in order |
| CompoundReader.Header.GetSSAT | scratch/mso-dumper/src/ole.py:241-252 | the table of short sectors is read through the first table; none when the file has none |
| CompoundReader.Header.GetDirectory | scratch/mso-dumper/src/ole.py:255-265 | the sectors of the directory in order |
| CompoundReader.Directory.ParseDirEntry | scratch/mso-dumper/src/ole.py:713-742 | name, type, first sector and size of an entry, and the root storage; the entry lies in short sectors if and only if it is no root storage and below the minimum stream size |
| CompoundReader.Directory.ParseDirEntries | scratch/mso-dumper/src/ole.py:691-710 | all stored entries are loaded, in order |
| CompoundReader.Directory.BuildRootStorageBytes | scratch/mso-dumper/src/ole.py:503-512 | each call appends the container of the short sectors once more |
| CompoundReader.Directory.GetChain | scratch/mso-dumper/src/ole.py:515-520 | the sectors of an entry in the table for its size, or the exception when that table is missing |
| CompoundReader.Directory.GetRawStream | scratch/mso-dumper/src/ole.py:515-543 | the sectors of a stream on both paths, or the exception; the same answer however often it is called, although the root storage bytes grow |
| CompoundReader.Directory.GetRawStreamByName | scratch/mso-dumper/src/ole.py:546-552 | the stream of the first entry with the name, nothing when there is none |
| CompoundReader.ContainerFirst | scratch/mso-dumper/src/ole.py:503-536 | a container appended to itself serves short streams like a single one |
| CompoundReader.ReadStream | scratch/mso-dumper/src/ole.py:165-265 | from the bytes of a well-formed file to the answer for the first stream of a name: what is read begins with the stored stream, exactly when it is readable; a stream of at least the minimum size always is |
| CompoundReader.LongStreams | scratch/mso-dumper/src/ole.py:734-741 | a stream of exactly the minimum size or more, or the root storage, stored along a chain of the sector table, is read with or without short sectors |
| CompoundReader.ShortStreams | scratch/mso-dumper/src/ole.py:734-741 | a smaller stream, stored along a chain of the short sector table, is read if and only if that table and the root storage exist, with the exception that is raised otherwise |
| CompoundReader.StreamRecovered | scratch/mso-dumper/src/ole.py:515-543 | the read succeeds if and only if the stream is readable, and then begins with the stored stream |
| CompoundReader.NonEmptyIsReadable | scratch/mso-dumper/src/ole.py:515-543 | every stream of at least one byte in a well-formed file is readable |
| CompoundReader.AsciiNames | scratch/mso-dumper/src/globals.py:235-250 | an ASCII name stored as two-byte characters is decoded to itself |
| CompoundLayout.SectorsHoldStream | scratch/mso-dumper/src/ole.py:515-543 | the sectors of a chain, or the short sectors in the container, begin with the bytes stored in them |
| EmptyStreamFile.FileIsWellFormed | scratch/mso-dumper/src/ole.py:165-230 | a concrete image of 1536 bytes that satisfies the layout |
| EmptyStreamFile.EmptyStreamFails | scratch/mso-dumper/src/ole.py:515-552 | the image stores an empty stream, the first of its name, that is not readable |
| EmptyStreamFile.ReadEmptyStream | scratch/mso-dumper/src/ole.py:515-552 | reading that stream by its name raises the exception |
| PptRecords.DirStream.ReadRecord | scratch/mso-dumper/src/pptstream.py:367-395 | one record with all records in it, through a new stream for a container; a body that is cut off ends the stream |
| PptRecords.DirStream.ReadRecords | scratch/mso-dumper/src/pptstream.py:331-339 | the loop with its recursion ends on every byte sequence and lists the records |
| PptRecords.HeaderOf | scratch/mso-dumper/src/pptstream.py:367-376 | type, instance, version, start and size of a serialised record are read back |
| PptRecords.ReadsSeen | scratch/mso-dumper/src/pptstream.py:331-395 | a serialised forest is visited in pre-order, except a last record of length zero at any level |
| PptRecords.SeenCount | scratch/mso-dumper/src/pptstream.py:333-334 | nothing is left out if and only if no stream ends in a record of length zero |
| PptRecords.ReadsForest | scratch/mso-dumper/src/pptstream.py:331-395 | the reader visits exactly the records of a forest in pre-order, with the right fields, if and only if no stream ends in a record of length zero |
| PptRecords.ReadsBefore | scratch/mso-dumper/src/pptstream.py:331-339 | in front of more bytes all records of a level are visited, empty ones too |
| PptRecords.ReadsCut | scratch/mso-dumper/src/pptstream.py:331-395 | when a stream ends within the body of a record, this record is listed last, without what is in it, and the stream counts as incomplete; behind a bare header nothing is read |
| ConditionalText.SrcLexer.IsCodeVisible | scratch/layout-src2xml/source/srclexer.py:155-161 | text is visible if and only if every open group shows it |
| ConditionalText.SrcLexer.Pound | scratch/layout-src2xml/source/srclexer.py:278-325 | a directive changes the mark of the innermost group alone, or raises when there is none |
| ConditionalText.SrcLexer.Tokenize | scratch/layout-src2xml/source/srclexer.py:163-206 | the pass over all lines with the flat stack |
| ConditionalText.RunBlocks | scratch/layout-src2xml/source/srclexer.py:278-325 | whole blocks leave the stack as it was, and add what the structure selects if they are visible |
| ConditionalText.RunTail | scratch/layout-src2xml/source/srclexer.py:302-325 | the rest of a group shows its first true branch only while none was taken |
| ConditionalText.TokenizesSelection | scratch/layout-src2xml/source/srclexer.py:155-325 | for every properly nested source the tokens are those of the first true branch of each group at every level, and the stack ends empty |
| ConditionalText.RunDepth | scratch/layout-src2xml/source/srclexer.py:302-325 | the lexer raises if and only if some directive needs an open group and there is none; else the stack counts the open groups |
| MacroExpander.AcyclicIffBounded | scratch/layout-src2xml/source/srcparser.py:83-99 | the search for cyclic macros answers whether the nesting of replacements is bounded |
| MacroExpander.FullExpansionClean | scratch/layout-src2xml/source/srcparser.py:83-99 | no defined name is left in a full expansion |
| MacroExpander.ExpansionOfParts | scratch/layout-src2xml/source/srcparser.py:83-99 | the expansion of a list is that of its parts in order |
| MacroExpander.ExpansionOfToken | scratch/layout-src2xml/source/srcparser.py:88-99 | a macro expands to the expansion of its tokens, any other token to itself |
| MacroExpander.StepAhead | scratch/layout-src2xml/source/srcparser.py:88-99 | each step takes one from the weight of the tokens ahead and keeps what they expand to |
| MacroExpander.Expander.ExpandToken | scratch/layout-src2xml/source/srcparser.py:88-99 | a token is passed, or replaced in place and looked at again |
| MacroExpander.Expander.Expand | scratch/layout-src2xml/source/srcparser.py:83-86 | without cyclic macros the loop ends with the full recursive expansion of the original tokens |
| MacroExpander.EndsByWeight | scratch/layout-src2xml/source/srcparser.py:83-99 | the weight is the exact number of steps |
| MacroExpander.EndsIffAcyclic | scratch/layout-src2xml/source/srcparser.py:83-99 | the loop ends if and only if no token leads to a cyclic macro |
| MacroCalls.CallExpander.ParseValues | scratch/layout-src2xml/source/srcparser.py:118-166 | the call ends with the first ')' and fails unless exactly one '(' precedes it; the values are the pieces between commas; without any ')' an attribute that is never set is read |
| MacroCalls.CallFindsArguments | scratch/layout-src2xml/source/srcparser.py:118-166 | the arguments of a written call, each of any number of tokens, are found again if and only if none has a comma or a parenthesis in it |
| MacroCalls.NestedCallStops | scratch/layout-src2xml/source/srcparser.py:148-161 | a call inside an argument always stops the expander |
| MacroCalls.CallExpander.Replace | scratch/layout-src2xml/source/srcparser.py:103-113 | the body with all formal arguments replaced at once, or the failure for a missing argument |
| MacroCalls.CallExpander.ExpandToken | scratch/layout-src2xml/source/srcparser.py:88-115 | both kinds of macro, with every way to fail, splice the tokens in place |
| MacroCalls.ExpandsWrittenCall | scratch/layout-src2xml/source/srcparser.py:100-115 | a written call is replaced by the body with its arguments, and the tokens around it stay |
| MacroCalls.CallPieces | scratch/layout-src2xml/source/srcparser.py:103-113 | token by token of the body, a formal argument becomes the written argument of its place in the list, any other token stays |
| MacroCalls.IdentityCall | scratch/layout-src2xml/source/srcparser.py:103-113 | a call in which every formal argument stands for itself gives the body |
| MacroCalls.ArgumentInPlace | scratch/layout-src2xml/source/srcparser.py:103-113 | the argument takes the place of its formal one, between the tokens around it |
| MacroCalls.AgreesOnPlainMacros | scratch/layout-src2xml/source/srcparser.py:94-99 | without formal arguments this is the expander whose end and result are proved |
| SrcSyntax.RunItems | scratch/layout-src2xml/source/srcparser.py:203-344 | printed items, parsed inside any open element, add their meaning to that element |
| SrcSyntax.ParsesPrinted | scratch/layout-src2xml/source/srcparser.py:203-344 | every printed tree of blocks and attributes, with any number of tokens on both sides of '=', is rebuilt with names and values translated |
| SrcSyntax.TransValueIs | scratch/layout-src2xml/source/srcparser.py:46-54 | truth values come out in lower case, every other value as it is |
| SrcSyntax.PrintedAttribute | scratch/layout-src2xml/source/srcparser.py:319-330 | an attribute printed last in a block has, in the parsed tree, its truth value in lower case, its text without quotes, or its value as it is |
| SrcSyntax.DepthIsBraces | scratch/layout-src2xml/source/srcparser.py:255-299 | the element stack is one deeper than the number of open braces, for all tokens |
| SrcSyntax.DashedKeeps | scratch/layout-src2xml/source/srcparser.py:10-38 | the translation of a name keeps all its characters in order, apart from case and dashes |
| SrcSyntax.DashesApart | scratch/layout-src2xml/source/srcparser.py:19-38 | dashes stand neither at an end nor next to each other |
| SrcSyntax.DashesBetweenWords | scratch/layout-src2xml/source/srcparser.py:10-38 | a name in camel case becomes its words in lower case with one dash between two words |
| SrcSyntax.NameOfWords | scratch/layout-src2xml/source/srcparser.py:10-44 | so do the names of blocks and attributes, and an attribute without a name is called none |
| SrcSyntax.PostTransNames | scratch/layout-src2xml/source/srcparser.py:6-42 | the names of three buttons lose their dash, and no other name changes |
| SrcSyntax.RenamedAttributes | scratch/layout-src2xml/source/srcparser.py:56-62 | only the spin size of a metric field is renamed |
| SrcSyntax.GeometryStops | scratch/layout-src2xml/source/srcparser.py:322-327 | statements for pos and size lead to parsers of their own |
| SrcSyntax.RemoveQuoteIs | scratch/layout-src2xml/source/globals.py:33-38 | one pair of quotes is removed and nothing else |
| SrcParser.TransNameParts | scratch/layout-src2xml/source/srcparser.py:10-44 | splitting a name into parts and joining them is the translation character by character |
| SrcParser.SrcParser.OpenBrace | scratch/layout-src2xml/source/srcparser.py:256-290 | a new element becomes the last child of the top element and the new top, with its parent link |
| SrcParser.SrcParser.CloseBrace | scratch/layout-src2xml/source/srcparser.py:293-299 | the top element with all below it is finished and stays the last child of the next one |
| SrcParser.SrcParser.SemiColon | scratch/layout-src2xml/source/srcparser.py:302-344 | a statement becomes an attribute of the top element alone, or is ignored |
| SrcParser.StackShows | scratch/layout-src2xml/source/srcparser.py:203-226 | the bottom of the stack shows all elements, also those whose brace is still open |
| SrcParser.SrcParser.Parse | scratch/layout-src2xml/source/srcparser.py:203-226 | the root element shows, with every parent link right, the tree of the fully expanded tokens, or the failure of it |
| SrcParser.ShownAttribute | scratch/layout-src2xml/source/srcparser.py:203-330 | the same value stands on the element of the block |
| ExpressionTree.ExpParser.JumpToRoot | scratch/layout-src2xml/source/expression.py:40-42 | the parent links lead from ptr to the root |
| ExpressionTree.ExpParser.NewRoot | scratch/layout-src2xml/source/expression.py:54-59 | the whole tree becomes the left operand of a new root, with the links right |
| ExpressionTree.ExpParser.Descend | scratch/layout-src2xml/source/expression.py:66-72 | the last number moves into a new node below ptr, with the links right |
| ExpressionTree.ExpParser.Build | scratch/layout-src2xml/source/expression.py:44-103 | on all tokens without parentheses the nodes show what the cursor machine computes, with consistent links, or the parser raises as it does |
| ExpressionTree.ExpParser.DumpTree | scratch/layout-src2xml/source/expression.py:105-107 | the dump is the text of the whole tree |
| ExpressionTree.ToString | scratch/layout-src2xml/source/expression.py:5-26 | the text of a node with its parentheses |
| ExpressionTree.RunFrames | scratch/layout-src2xml/source/expression.py:44-103 | after any alternating list ptr stands at the last number of the expected tree |
| ExpressionTree.RaisesIff | scratch/layout-src2xml/source/expression.py:44-103 | the parser raises if and only if an operator comes first, or a number follows a number that is not the first token |
| ExpressionTree.FramesTree | scratch/layout-src2xml/source/expression.py:49-72 | the nodes above ptr make up the tree that nests sums to the left |
| ExpressionTree.SumTreeYield | scratch/layout-src2xml/source/expression.py:44-103 | read in order, the expected tree gives back the tokens |
| ExpressionTree.EraseRender | scratch/layout-src2xml/source/expression.py:5-26 | the dump without parentheses gives back the tokens |
| ExpressionTree.DumpDetermines | scratch/layout-src2xml/source/expression.py:5-26 | no two trees have the same dump |
| ExpressionTree.BuildsTheExpression | scratch/layout-src2xml/source/expression.py:44-103 | on every alternating list with an operator the parser never raises and builds the expected tree; the tree and its dump yield the tokens |
| ExpressionValue.SumTreeValue | scratch/layout-src2xml/source/expression.py:44-103 | when every division is the only operator of its product, the expected tree has the usual value, products first and from the left |
| ExpressionValue.Differing | scratch/layout-src2xml/source/expression.py:61-72 | otherwise there are numbers for the same operators that give another value |
| ExpressionValue.DivisionIffAlone | scratch/layout-src2xml/source/expression.py:44-103 | the parsed value is the usual one for all numbers, if and only if every division is the only operator of its product |
| ExpressionValue.ValueOfTerm | scratch/layout-src2xml/source/expression.py:44-103 | in the usual value the last term is added or subtracted |
| ExpressionValue.ValueOfFactor | scratch/layout-src2xml/source/expression.py:44-103 | in a term the last factor multiplies, or divides with the quotient rounded down |
| ExpressionValue.DivisionNestsToTheRight | scratch/layout-src2xml/source/expression.py:61-72 | 8/4/2 comes out as 4 |
| DataTable.SharedStringTable.InsertString | scratch/sc-dptest/source/dpcachetable.cxx:90-117 | an id for each string; ids handed out before stay what they are |
| DataTable.SharedStringTable.GetString | scratch/sc-dptest/source/dpcachetable.cxx:119-125 | the string of an id, the empty one for an id not handed out |
| DataTable.SharedStringTable.MatchingIdsIsMatchingStrings | scratch/sc-dptest/source/dpcachetable.cxx:90-125 | looking for an id among ids is looking for its string among their strings |
| DataTable.CalcVariance.Apply | scratch/sc-dptest/source/dpcachetable.cxx:164-176 | after every cell the running mean is the mean and the running sum that of the squared deviations from it |
| DataTable.CalcVariance.GetVariance | scratch/sc-dptest/source/dpcachetable.cxx:178-181 | the variance of the two-pass definition, no number where it divides by zero |
| DataTable.Shift | scratch/sc-dptest/source/dpcachetable.cxx:172-175 | how the squared deviations change with their centre |
| DataTable.WelfordStep | scratch/sc-dptest/source/dpcachetable.cxx:172-175 | the one-pass update gives the new mean and the new sum of squared deviations |
| DataTable.VarianceOfTwo | scratch/sc-dptest/source/dpcachetable.cxx:178-181 | the divisors: half and a quarter of the squared difference of two values; no sample variance of one value |
| DataTable.ProductOfParts | scratch/sc-dptest/source/dpcachetable.cxx:198-214 | products over parts of the values |
| DataTable.CellAccumulator.Apply | scratch/sc-dptest/source/dpcachetable.cxx:198-214 | count, sum, product, maximum and minimum of the value cells seen |
| DataTable.CellAccumulator.GetAverage | scratch/sc-dptest/source/dpcachetable.cxx:216-219 | the mean of the value cells, zero without any |
| DataTable.Filter2MultiFilter | scratch/sc-dptest/source/dpcachetable.cxx:357-381 | filters of one string each let the same rows pass as before |
| DataTable.SingleIsMulti | scratch/sc-dptest/source/dpcachetable.cxx:365-371 | single-string filters and their multi-string forms agree on every row |
| DataTable.ResultAggregator.Apply | scratch/sc-dptest/source/dpcachetable.cxx:408-433 | a row is taken if and only if it has the data field and passes all filters on fields it has |
| DataTable.FiltersByText | scratch/sc-dptest/source/dpcachetable.cxx:408-427 | with interned strings, a row passes by ids exactly when it passes by strings |
| DataTable.SelectedRows | scratch/sc-dptest/source/dpcachetable.cxx:408-433 | the cells taken are those of the rows that have the field and pass, each once and in order |
| DataTable.ValueCells | scratch/sc-dptest/source/dpcachetable.cxx:198-202 | the values are those of the cells of type value, each once and in order |
| DataTable.CountedCells | scratch/sc-dptest/source/dpcachetable.cxx:453-458 | each number and each text counts one, no other cell does |
| DataTable.ResultAggregator.GetValue | scratch/sc-dptest/source/dpcachetable.cxx:435-486 | each aggregate function by its meaning over the selected cells |
| DataTable.AutoAsPromised | scratch/sc-dptest/source/dpcachetable.cxx:446-450 | the automatic aggregate is the sum or count that the comment promises, for all numbers in cells of given types, if and only if all cells are numbers or none is a number or a text |
| DataTable.AggregateValue | scratch/sc-dptest/source/dpcachetable.cxx:757-762 | the aggregate over exactly the cells of the rows that pass |
| DataTable.AggregateSingle | scratch/sc-dptest/source/dpcachetable.cxx:750-755 | the same with single-string filters |
| RevisionTree.RevisionTree.AddSymbol | scratch/rcsutil/src/revision.py:71-96 | a branch symbol adds the nodes of its path and its name, any other symbol nothing |
| RevisionTree.RevisionTree.Descend | scratch/rcsutil/src/revision.py:90-93 | the child for a number, made when missing, and no other change |
| RevisionTree.RevisionTree.GetBranchName | scratch/rcsutil/src/revision.py:103-123 | after any symbols with a branch, a name comes out if and only if a branch without a branch behind it is a proper prefix of the revision, and it is the name last given to it; without any branch the answers for short and long revisions |
| RevisionTree.BranchSymbols | scratch/rcsutil/src/revision.py:77-84 | branch symbols are exactly those of the form r.0.b with at least two numbers in r |
| RevisionTree.SymbolOfRevisions | scratch/rcsutil/src/revision.py:77-96 | the branch of r.0.b is on the way to a revision if and only if the revision starts with r.b and goes on |
| RevisionTree.NameOfNewBranch | scratch/rcsutil/src/revision.py:71-123 | after the symbol r.0.b, with no named branch behind it, the revisions r.b.k have its name |
| RevisionTree.StopsAtFinal | scratch/rcsutil/src/revision.py:116-118 | where the walk stops at a node without children, that is the only final branch on the way |
| RevisionTree.LeavesTree | scratch/rcsutil/src/revision.py:120-121 | where the walk leaves the tree, no final branch is on the way |
| RevisionTree.StaysInTree | scratch/rcsutil/src/revision.py:116-123 | where the walk reaches the end, no final branch is on the way |

## Left out

- `patches/mono/climaker_csharp.cs`: default constructors, attributes and saving of assemblies; missing type descriptions (errors of the type registry); completing services and singletons after the interface loop, which may ask for new interfaces.
- ConstructorCode.ConstructorStoresArguments: 512 arguments and more; the byte behind the operand is then an instruction that the machine does not have.
- CompoundTypes.TypeEmitter.GetType: an instantiated polymorphic struct is requested by the description of the struct itself; members of sequence and enumeration types are names; a type that is being defined is not looked up.
- CompoundReader.Directory.ParseDirEntry: size of the name buffer, colour, tree links, unique id, flags and dates.
- InterfaceWorklist.TypeEmitter.EmitMembers: members count only by the interfaces they mention; their methods and properties are not modelled.
- BridgeNames.RoundTrip: polymorphic names are excluded; the bridge removes their arguments.
- RefCount.RegisteredWhenReferenced: the environment is the list of calls it gets; freeing the object is not part of this model.
- CompoundReader.ReadStream: the UTF-8 decoder is a parameter; dates, colours and tree links of directory entries, sectors of another size and malformed images are not modelled. The loop over a chain of sectors, which the source writes three times, is one method here.
- PptRecords.DirStream.ReadRecord: handlers and dumps of the records are not modelled.
- ConditionalText.SrcLexer.Tokenize: lines come with their tokens and the outcomes of their conditions; splitting characters into tokens, `#define`, `#include` and unknown directives are not modelled.
- MacroCalls.ExpandsWrittenCall: one call at a time; for whole token lists with argument macros no end and no result is claimed.
- SrcParser.SrcParser.Parse: `string-list`, `pos` and `size` have parsers of their own, and the parser stops there in the model; the bookkeeping of nested statements has no effect in the source and is left out; macros have no arguments here.
- ExpressionTree.ExpParser.Build: no parentheses.
- DataTable.ResultAggregator.GetValue: rounding of floating-point numbers and negative data field numbers are not modelled; the square root is a parameter.
- RevisionTree.RevisionTree.GetBranchName: revisions come as lists of numbers; parent links, which only the listing uses, are left out.
- The widgets under `bonobo/`, the converters, the set-up tools and the record handlers hold little logic of their own.
