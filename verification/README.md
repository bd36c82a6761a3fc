# Clear-signing host: model and proofs

This project models the Ethereum clear-signing half of `python-keepkey` and two
device-driven signing protocols beside it, and proves what they promise.

**The ERC-7730 compiler.** A function signature and a descriptor's display
fields become a byte program the device executes. The model follows the program
through every stage: the recursive-descent signature parser and the canonical
printer, the flattening of an ABI tree into a table, the resolution of dotted
paths on the tree, the emission of a bracketed display program with back-patched
jump targets, the interning of strings, paths and literals, the serialisation of
nine tables, and the device check that parses those bytes again and type-checks
the program.

- *Text.* The parser and the printer undo each other, so a canonical signature,
  and with it a selector, belongs to one tree.
- *Two walks.* The compiler walks a tree, the device a flat table. For every
  valid tree and every path that fits it they agree, and each refusal is
  characterised.
- *The emitter.* Its loop invariant says where every field, group and iteration
  is. From it: the brackets nest, jump targets are mutual, a field is inside a
  group exactly when its number is in the group's range, every opcode of the
  program is accounted for in order, and the recorded counts and depths are true.
- *Which descriptors compile, and to what.* `Compilation.Compile` equals a function
  of its inputs, `CompiledTables.Compiled`. That function gives tables if and only
  if a condition on the descriptor holds (`Compilable.CanCompile`): its texts,
  paths, formats and rules are in order, and the sizes the tables will have,
  counted beforehand, are within the limits. Its tables are built in the order of
  compilation: each request adds its path where it is first used and its literals
  at the end (`TableContents`), each field and group its instructions
  (`FieldContents`).
- *Reading back.* A reader of the tables, written on its own, finds for each
  argument of each compiled formatter what the field gives for the parameter of
  that role, and finds the field's format (`CompiledReading.CompiledReadsBack`). A
  path's text resolves back to the path (`PathTexts`), and a rule's set reads back
  to the values it compares with.
- *Bytes.* Decoding a serialised program returns the tables it was made from.
- *The device check.* The byte-level loops compute the verdict that a check on
  the tables gives, and an accepted program has at most one open iteration, fields
  that read that iteration's array, and arguments that reach a leaf of a permitted
  class on every value that conforms to the ABI. `Capabilities` restates the
  capability table by the names of formats and parameters, and
  `AcceptedDescriptors.CompiledCheckIff` says, in terms of the descriptor and of
  the brackets, exactly which compilations pass.
- *All together.* `CompiledExecution.CompileExecutable` compiles, serialises and
  checks: it returns exactly the bytes of the tables that function gives, or raises
  when there are none or the device would refuse them. The `CompiledExecution`
  lemmas restate the device's guarantees for whatever it returns, and add that
  every operand of every instruction, condition, argument, set and map is absent
  or names an existing entry.

**EIP-712.** The tree builder with its cycle check, which peels suffixes off the
end and agrees with the parser that reads them from the front; `encodeType` as
graph reachability, with a text that two readers take apart again; the streaming
host's type parser, its leaf encoding, exactly what each leaf says, its path walk
and its chunked answers, and the device's walk over the document, which gets no
error and shows what the document says.

**The definition catalog and preload**, with two dictionaries kept in bijection
and an acknowledged chunk stream; **the data loop of `ethereum_sign_tx`**; **the
Zcash PCZT protocol** against an arbitrary device; **static ABI arguments**; and
**EOS names**.

## Layout

| files | part |
|---|---|
| `Wrappers`, `Text`, `Bytes`, `Integers`, `Utf8`, `Hex` | results, text, big-endian and two's-complement numbers, UTF-8 |
| `AbiTypes`, `SignatureParser`, `SignatureRoundTrip`, `CanonicalForms`, `SignatureBlanks`, `TidySignatures` | ABI trees, the parser class, round trips, when the compiler and `clearsign_abi` agree |
| `FlatAbi`, `AbiPaths`, `PathTexts`, `AbiWalk`, `AbiValues` | the flat table, paths and their texts, the two walks, conforming values |
| `DisplayFields`, `DisplayWord`, `GroupScope`, `Formatters` | fields and groups, brackets, what the emitter keeps, what a format asks for |
| `ProgramPools`, `Demands`, `TableContents`, `ProgramBuilder`, `CompiledDisplay`, `DisplayShape`, `FieldDemands`, `FieldContents`, `DisplayEmitter`, `StringTable`, `Compiler`, `CompiledProgram` | the tables under construction, what fields need and take from them, the emitter class, what a compilation is |
| `Program`, `ProgramCodec` | entry and table encodings, sections, the whole program |
| `DeviceRules`, `DeviceRefusal`, `Capabilities`, `DeviceSoundness`, `DisplayChecks` | the check on tables, the check on bytes, the capability table by names, what acceptance means |
| `CompiledScope`, `GroupIterations`, `CompiledRoles`, `CompiledOperands` | theorems about compiled programs |
| `CompiledMeaning`, `DescriptorMeaning`, `CompiledReading`, `GroupedPaths`, `CompiledAcceptance`, `AcceptedDescriptors` | what the tables hold, what a field gives, that they are the same, and what the device makes of it |
| `ListedTexts`, `EncodableTables`, `Compilable`, `CompiledTables`, `Compilation`, `HiddenFields`, `CompiledExecution` | which descriptors compile, the whole compiler, what its programs do on a device |
| `Eip712Types`, `SignatureLookahead`, `TypedTypes`, `Eip712Declarations`, `Eip712EncodeType`, `StreamTypes`, `StreamValues`, `StreamPaths`, `StreamWalk` | EIP-712 |
| `Catalog`, `EthereumSigning`, `ZcashPczt`, `ClearsignAbi`, `EosNames` | the rest |

Code that updates state is a class or a method with a loop, proved against a
specification function of the same file; the theorems are about those functions.
`Result` stands for the exceptions: `Ok` is a normal return, `Raised` an
exception of any kind. Verify everything with `dafny verify dfyconfig.toml`.

## Where the code and its promise part

Each of these is proved as the code has it, with the exact condition.

- **Hidden fields and groups.** A field with visibility `never` is dropped after
  the group ranges were numbered (`keepkeylib/erc7730_compiler.py:453-471` and
  `509-517`). `CompiledScope.ScopeKeptIff`: a group still encloses exactly its
  surviving fields if and only if no field in front of its end was dropped, or it
  vanished altogether; `DescriptorScope` is the law without dropped fields, and
  `HiddenFieldShiftsGroup` is the smallest failing family: with a hidden field in
  front, the group encloses the field behind it instead of its own.
  `HiddenFields.ShiftedCompiles` gives members of that family on `f(uint256 id)`
  that compile, whatever the hidden field is.
- **A trailing line feed.** Python's `$` matches in front of it
  (`keepkeylib/eip712_stream.py:105` and `115`). `StreamTypes.PrintRecoversIff`:
  the printer recovers the text if and only if the base is not `bytes`, `uint` or
  `int`, digits and then a line feed; `LineFeedIsLost` names two texts with one
  descriptor.
- **Two canonical forms.** `clearsign_abi.canonical_signature` rewrites the text,
  `_canonical` prints the parsed tree. `TidySignatures.FormsAgreeIff`: for every
  accepted signature they are the same text if and only if the signature is tidy,
  a condition on its characters, and names no parameter. Blanks around parameters
  and at both ends are tidy; numerals with a leading zero, blanks or underscores
  inside a parameter and the length 65535, which equals `ABSENT`, are not.
  `ZeroDiffers` (`f(uint08)`) and `AbsentDiffers` (`f(address[65535])`) are inputs
  that differ.
- **The chain argument.** The compiler gives `tokenAmount` and `nftName` the chain
  id as role 11 (`keepkeylib/erc7730_compiler.py:691-700` and `730-740`), which
  the device lists for no format (`987-1010`). `CompiledRoles.RolesAcceptedIff`:
  the device lists every role and source of a compiled formatter if and only if
  the field names no chain; `ChainRefused` and `CompiledExecution.AcceptedNamesNoChain`
  say what follows, and `ChainInputs` gives a field of either format with the
  verdict it meets.

## Model

| member | source | states |
|---|---|---|
| SignatureParser.Parser.Type | keepkeylib/erc7730_compiler.py:139-197 | the parser object consumes exactly what the grammar function consumes, with its result or its exception |
| SignatureParser.Parser.Suffixes | keepkeylib/erc7730_compiler.py:184-197 | the bracket loop wraps the base once per bracket pair, first suffix innermost |
| SignatureParser.Parser.Members | keepkeylib/erc7730_compiler.py:143-155 | the member loop stops at the closing bracket and raises where the grammar fails |
| SignatureParser.Parser.Function | keepkeylib/erc7730_compiler.py:199-218 | the whole signature, nothing left over |
| SignatureParser.ParseFunctionSignature | keepkeylib/erc7730_compiler.py:221-222 | a fresh parser object run on the text gives the grammar's result |
| SignatureParser.ParsedTypeValid | keepkeylib/erc7730_compiler.py:139-197 | every parsed tree has legal widths, lengths and member names, and no name of its own |
| SignatureParser.ParsedFunctionValid | keepkeylib/erc7730_compiler.py:199-218 | so has the root of every parsed signature |
| SignatureRoundTrip.ParseUndoesCanonical | keepkeylib/erc7730_compiler.py:225-239 | parsing the canonical text of any valid tree returns the tree with names erased, nothing left over |
| SignatureRoundTrip.CanonicalInjective | keepkeylib/erc7730_compiler.py:225-239 | two trees print alike if and only if they differ in names only |
| SignatureRoundTrip.CanonicalOfParsed | keepkeylib/erc7730_compiler.py:225-239 | canonicalising a parsed text is idempotent |
| SignatureRoundTrip.ParseUndoesNamed | keepkeylib/erc7730_compiler.py:1408-1417 | parsing the named text of a tree with identifier names returns the very tree |
| SignatureRoundTrip.ParseUndoesNamedSignature | keepkeylib/erc7730_compiler.py:1418-1421 | the signature text built for a typed message parses to the primary type's name and root |
| SignatureRoundTrip.CanonicalSignatureInjective | keepkeylib/erc7730_compiler.py:392-394 | canonical signatures are equal if and only if function names and name-erased parameters are |
| SignatureRoundTrip.CanonicalSignatureParses | keepkeylib/erc7730_compiler.py:392-394 | the canonical signature parses to the same function |
| CanonicalForms.SplitAliased | keepkeylib/clearsign_abi.py:29-44 | replacing `uint` and `int` commutes with splitting at every comma, tuples included |
| CanonicalForms.TokenAgrees | keepkeylib/erc7730_compiler.py:158-183 | an elementary token with its alias replaced is what the compiler prints for it |
| CanonicalForms.TypeAgrees | keepkeylib/erc7730_compiler.py:225-239 | for any type text, aliasing the text equals printing the parsed tree, in front of the same rest |
| CanonicalForms.ParametersAgree | keepkeylib/clearsign_abi.py:29-44 | the same for a parameter list |
| CanonicalForms.FormsAgree | keepkeylib/clearsign_abi.py:42-44 | for unnamed, blank-free signatures with canonical numerals both canonical forms are the same text, hence the selectors agree |
| SignatureBlanks.FunctionUnspaced | keepkeylib/erc7730_compiler.py:199-218 | blanks that do not part two words never change what a signature parses to |
| TidySignatures.FormsAgreeIff | keepkeylib/clearsign_abi.py:29-44 | for every accepted signature the two canonical forms are the same text if and only if it is tidy and no parameter is named |
| TidySignatures.AgreeingUnnamed | keepkeylib/clearsign_abi.py:29-44 | a name always makes the rewritten text longer than the printed one |
| TidySignatures.CanonicalPlain | keepkeylib/erc7730_compiler.py:225-239 | the canonical text of every valid tree is plain, so nothing else could agree |
| TidySignatures.ZeroDiffers | keepkeylib/erc7730_compiler.py:158-183 | `f(uint08)` is accepted and the forms differ |
| TidySignatures.AbsentDiffers | keepkeylib/erc7730_compiler.py:184-197 | `f(address[65535])` is accepted, as a dynamic array, and the forms differ |
| FlatAbi.Flattener.FillNode | keepkeylib/erc7730_compiler.py:245-256 | a call writes only unfilled slots, its own and appended ones, as the specification does |
| FlatAbi.Flattener.Run | keepkeylib/erc7730_compiler.py:242-258 | the filled table, or an exception exactly when the tree has too many nodes |
| FlatAbi.FillPlaces | keepkeylib/erc7730_compiler.py:245-256 | filling a slot changes no other old slot and places the whole subtree behind it |
| FlatAbi.FlattenHolds | keepkeylib/erc7730_compiler.py:242-258 | one slot per node, every slot filled, and the table holds the tree with contiguous children at every depth |
| FlatAbi.FlattenParents | keepkeylib/erc7730_compiler.py:242-258 | no slot is a child twice, and the root is nobody's child |
| AbiPaths.ResolveComponents | keepkeylib/erc7730_compiler.py:279-311 | the loop over the components computes the recursive resolution, errors included |
| AbiPaths.MemberIndex | keepkeylib/erc7730_compiler.py:302-310 | a returned index names a member of that name |
| AbiPaths.ResolvedFits | keepkeylib/erc7730_compiler.py:261-311 | a resolved slice-free path fits the tree it was resolved on |
| AbiPaths.ResolvedFollows | keepkeylib/erc7730_compiler.py:261-311 | any resolved path, slices included, follows the tree |
| AbiPaths.FollowsPrefix | keepkeylib/erc7730_compiler.py:819-820 | so does each prefix, as the iteration paths need |
| AbiPaths.ResolvedPathOn | keepkeylib/erc7730_compiler.py:261-311 | a resolved expression is a container or a path on the tree |
| PathTexts.PathResolves | keepkeylib/erc7730_compiler.py:261-311 | every path of members, elements, iterations and slices, written out, resolves to itself, with and without the sign of the root |
| PathTexts.ContainerResolves | keepkeylib/erc7730_compiler.py:268-275 | each container is resolved by its name, from a list of the names by number |
| PathTexts.GroupedResolves | keepkeylib/erc7730_compiler.py:445-451 | a group's path and a field's path joined resolve to the one path followed by the other |
| PathTexts.SplitOfJoin | keepkeylib/erc7730_compiler.py:276-276 | splitting takes apart what dots joined |
| AbiWalk.WalkLoop | keepkeylib/erc7730_compiler.py:1082-1115 | the device's loop computes the recursive walk, for any table and any steps |
| AbiWalk.SimulationStops | keepkeylib/erc7730_compiler.py:1094-1103 | the first offending step decides the refusal: an index before an iteration, or beyond the array |
| AbiWalk.WalkOutcome | keepkeylib/erc7730_compiler.py:1082-1115 | simulation: the walk ends at the image of the node the compiler's walk reaches and reports its kind, or refuses for the one reason that applies |
| AbiWalk.WalkAcceptsIff | keepkeylib/erc7730_compiler.py:1082-1115 | it accepts if and only if all indexes are in range, none precedes an iteration and the end is a value |
| AbiWalk.ResolvedPathWalk | keepkeylib/erc7730_compiler.py:1082-1115 | every slice-free resolved path is refused for those three reasons only; it never leaves the table or misses a member |
| AbiValues.StepReads | keepkeylib/erc7730_compiler.py:1088-1106 | one step on a conforming value reads a value that conforms to the child |
| AbiValues.ReadConforms | keepkeylib/erc7730_compiler.py:314-335 | reading a path on any conforming value succeeds and conforms to the node the path names |
| Bytes.ValueOfBigEndian | keepkeylib/eip712_stream.py:188-192 | big-endian bytes decode to their number at every width |
| Bytes.SignedValueOfTwosComplement | keepkeylib/eip712_stream.py:177-182 | two's-complement bytes decode to their number at every width |
| Integers.UnsignedLiteralMinimal | keepkeylib/erc7730_compiler.py:94-99 | an unsigned literal decodes back, and a width holds it if and only if the number fits that width |
| Integers.SignedLiteralMinimal | keepkeylib/erc7730_compiler.py:338-345 | the same for signed condition literals |
| Utf8.DecodeUndoesEncode | keepkeylib/erc7730_compiler.py:564-568 | string table bytes decode to the text they encode, for all Unicode scalars |
| Utf8.EncodeUndoesDecode | keepkeylib/erc7730_compiler.py:564-568 | and bytes that decode are the encoding of their text, so no two byte strings hold one text |
| Hex.HexBytesIff | keepkeylib/erc7730_compiler.py:85-91 | digits are taken for bytes if and only if they spell them, two digits to a byte, in either case |
| Hex.HexValueOfBytes | keepkeylib/eip712_stream.py:135-146 | the number that digits spell is the one their bytes hold |
| Text.IntOfText | keepkeylib/erc7730_compiler.py:292-305 | `int` takes back what `str` prints, with a sign and blanks around it |
| Text.TextLessIff | keepkeylib/erc7730_compiler.py:1398-1399 | texts are ordered by their first difference |
| DisplayFields.FieldFlattener.Run | keepkeylib/erc7730_compiler.py:453-471 | the mutating recursion appends what the recursive flattening returns |
| DisplayFields.FlattenLaminar | keepkeylib/erc7730_compiler.py:453-471 | group ranges are non-empty, and any two are nested or disjoint |
| DisplayFields.FlattenCovers | keepkeylib/erc7730_compiler.py:453-471 | the fields are the descriptor's leaves in order and each group has one range, over its own leaves |
| DisplayFields.FlattenEncloses | keepkeylib/erc7730_compiler.py:453-471 | by position: the range of group number `g` holds field number `j` if and only if that group encloses that leaf in the descriptor |
| GroupedPaths.LocatedGives | keepkeylib/erc7730_compiler.py:453-462 | in a group each path parameter leads where its own path leads from the end of the group's path |
| GroupedPaths.RootedGives | keepkeylib/erc7730_compiler.py:445-451 | paths that start at a root stay as they are |
| GroupedPaths.LocatedKeeps | keepkeylib/erc7730_compiler.py:453-462 | a group changes nothing else that a field gives |
| DisplayWord.LinkedOpen | keepkeylib/erc7730_compiler.py:633-638 | emitting an opener keeps the brackets linked |
| DisplayWord.LinkedClose | keepkeylib/erc7730_compiler.py:842-849 | emitting a closer and back-patching its opener keeps them linked |
| DisplayWord.LinkedWord | keepkeylib/erc7730_compiler.py:817-852 | with none open: openers and closers name each other, 5 with 6 and 7 with 8, and no two pairs cross |
| DisplayWord.MaxDepth | keepkeylib/erc7730_compiler.py:944-953 | the loop's result is the greatest nesting depth at any instruction |
| GroupScope.StartingAt | keepkeylib/erc7730_compiler.py:626-627 | exactly the groups that start at the field |
| GroupScope.OpenGroupSound | keepkeylib/erc7730_compiler.py:626-638 | opening a group keeps scopes, pending order and bracket links |
| GroupScope.AppendFieldSound | keepkeylib/erc7730_compiler.py:824-837 | so does emitting a field |
| GroupScope.CloseGroupSound | keepkeylib/erc7730_compiler.py:842-849 | so does closing the innermost group, and only that one stops being pending |
| GroupScope.InnermostEnds | keepkeylib/erc7730_compiler.py:838-842 | while a group that ends here is open, the one popped ends here too |
| ProgramPools.DenotesGrows | keepkeylib/erc7730_compiler.py:579-657 | appending to the tables never changes what an argument denotes |
| ProgramPools.DenotesInBounds | keepkeylib/erc7730_compiler.py:659-787 | whatever denotes something indexes an existing entry |
| ProgramPools.SetLiteralIsSet | keepkeylib/erc7730_compiler.py:808-810 | a set literal's bytes decode to its members' indexes |
| ProgramPools.MapLiteralIsMap | keepkeylib/erc7730_compiler.py:771-776 | an enum literal's bytes decode to its key and label indexes |
| TableContents.PlaceFound | keepkeylib/erc7730_compiler.py:572-577 | in a table without repetitions the first place of a path is its only one |
| ProgramBuilder.TableBuilder.InternPath | keepkeylib/erc7730_compiler.py:572-577 | the path is in the table once, at the returned index, appended if it is new, and nothing moves |
| ProgramBuilder.TableBuilder.AddSet | keepkeylib/erc7730_compiler.py:802-810 | the literals appended are a set of those members |
| ProgramBuilder.TableBuilder.AddMap | keepkeylib/erc7730_compiler.py:750-776 | the literals appended are a map of those entries |
| ProgramBuilder.TableBuilder.AddArgument | keepkeylib/erc7730_compiler.py:659-787 | the argument returned denotes what was asked for, and it and the tables are those the request determines |
| ProgramBuilder.TableBuilder.AddArguments | keepkeylib/erc7730_compiler.py:659-787 | so do all of a format's arguments, in order; with their texts listed and room for their literals it never raises, and the tables grow by exactly the demand |
| Demands.PathsCounted | keepkeylib/erc7730_compiler.py:572-577 | interned paths number exactly the distinct paths named and the constants |
| ProgramBuilder.TableBuilder.AddFormatter | keepkeylib/erc7730_compiler.py:788-789 | one formatter is appended, its value first, with the plan it realises |
| ProgramBuilder.TableBuilder.AddCondition | keepkeylib/erc7730_compiler.py:790-813 | the condition returned is what the field's visibility asks for; it raises only for a rule that is empty or does not suit the value, or when the literals are too many |
| ProgramBuilder.TableBuilder.AddRule | keepkeylib/erc7730_compiler.py:797-813 | an `ifNotIn` or `mustMatch` rule refers to the value's path and a set of exactly those literals |
| CompiledDisplay.ArrayPositions | keepkeylib/erc7730_compiler.py:814-815 | exactly the positions of the array steps, ascending |
| CompiledDisplay.FieldPersists | keepkeylib/erc7730_compiler.py:657-837 | what was emitted for a field stays true while the program and tables grow |
| CompiledDisplay.FieldAt | keepkeylib/erc7730_compiler.py:585-597 | an interpolated value names the last always-visible field of its path, or raises if there is none |
| CompiledScope.TokenShows | keepkeylib/erc7730_compiler.py:585-597 | it is the last always-visible field with that path, whether or not either is written with the sign of the root |
| CompiledDisplay.OwnIff | keepkeylib/erc7730_compiler.py:814-816 | a field iterates an array itself if and only if the groups around it took over no more arrays than stand in front of that one on its path |
| GroupIterations.HasArrayPartIff | keepkeylib/erc7730_compiler.py:628-628 | a text holds `.[]` if and only if a component behind the first starts so |
| GroupIterations.IteratesIff | keepkeylib/erc7730_compiler.py:628-641 | on the tree of a signature a group iterates if and only if its path takes all elements of an array, and the arrays it takes over are counted from the text as from the steps |
| DisplayEmitter.Emitter.OpenGroup | keepkeylib/erc7730_compiler.py:628-638 | a group's opener, behind that of an iteration over its path, and how many arrays it takes over |
| DisplayEmitter.Emitter.OpenGroups | keepkeylib/erc7730_compiler.py:625-638 | all groups that start here are open, the widest outermost |
| DisplayEmitter.Emitter.CountTakenOutside | keepkeylib/erc7730_compiler.py:639-641 | the arrays that groups around the field took over |
| DisplayEmitter.Emitter.AddFieldFormatter | keepkeylib/erc7730_compiler.py:642-789 | the field's formatter is next, and its value has the returned path |
| DisplayEmitter.Emitter.AddFieldCondition | keepkeylib/erc7730_compiler.py:790-813 | the field's condition |
| DisplayEmitter.Emitter.OpenLoops | keepkeylib/erc7730_compiler.py:817-823 | one opener per own array, each over the prefix that ends there |
| DisplayEmitter.Emitter.PlaceField | keepkeylib/erc7730_compiler.py:814-837 | the field's instruction between the brackets of its own iterations |
| DisplayEmitter.Emitter.CloseLoops | keepkeylib/erc7730_compiler.py:827-834 | closers in reverse order, back-patched, the separator on the outermost |
| DisplayEmitter.Emitter.EmitField | keepkeylib/erc7730_compiler.py:642-837 | one more field is emitted completely and the earlier ones stand |
| DisplayEmitter.Emitter.CloseGroups | keepkeylib/erc7730_compiler.py:838-849 | the groups that end here are closed, innermost first, each closer naming its opener and nothing else, and no others; there is always one to close |
| DisplayEmitter.Emitter.EmitIntent | keepkeylib/erc7730_compiler.py:583-597 | the intent first, then the interpolated pieces in order |
| DisplayEmitter.Emitter.EmitNext | keepkeylib/erc7730_compiler.py:624-849 | the loop body keeps the emitter's invariant for one more field |
| DisplayEmitter.Emitter.Run | keepkeylib/erc7730_compiler.py:583-852 | all fields and groups are emitted, nothing is left open, tables and instructions are those the descriptor determines (`WorkDone`), and the tables grew by the demand; with all texts listed and room for the literals it returns if and only if paths, formats, rules, groups and interpolated values resolve |
| DisplayShape.SkeletonPatch | keepkeylib/erc7730_compiler.py:834-849 | filling in jump targets changes no opcode |
| DisplayShape.ShapeFours | keepkeylib/erc7730_compiler.py:824-837 | the expected opcodes hold one field instruction per field |
| DisplayShape.FieldInstructions | keepkeylib/erc7730_compiler.py:824-837 | with as many field instructions as fields, each one is some field's |
| DisplayShape.GroupLoopsClosed | keepkeylib/erc7730_compiler.py:842-849 | closing a group closes the iteration around it directly behind it, both closers hold their openers alone, and other groups' iterations stay where they are |
| DisplayShape.CloseAccounted | keepkeylib/erc7730_compiler.py:838-849 | every instruction remains some known group's, iteration's, field's or piece's when a group is closed |
| StringTable.Sorted | keepkeylib/erc7730_compiler.py:564-564 | the table holds exactly the texts' encodings, ascending, and is determined by them |
| StringTable.AscendingIsDistinct | keepkeylib/erc7730_compiler.py:564-568 | so each string has one index |
| StringTable.EncodingOrder | keepkeylib/erc7730_compiler.py:564-564 | the order of the encoded bytes is the order of the texts' characters |
| Compiler.SortArguments | keepkeylib/erc7730_compiler.py:921-922 | a permutation of the arguments |
| Compiler.SortedAscends | keepkeylib/erc7730_compiler.py:921-922 | ordered by role, source and index |
| Compiler.SortedValueFirst | keepkeylib/erc7730_compiler.py:921-922 | with the value still in front |
| Compiler.SortedSays | keepkeylib/erc7730_compiler.py:919-923 | a sorted formatter still says what the field asks for |
| DescriptorMeaning.FormatKindIff | keepkeylib/erc7730_compiler.py:360-365 | a format's name is taken for its number in a list of both, and no other text for any |
| DescriptorMeaning.ComparedLiteral | keepkeylib/erc7730_compiler.py:338-354 | a condition or enum literal, read back by its kind, says what the value says |
| DescriptorMeaning.PlanCovers | keepkeylib/erc7730_compiler.py:642-787 | a formatter is planned if and only if the format is known and everything the field gives has a meaning; its requests are the parameters the field has, each once, in the order of their roles, and say what the field gives |
| CompiledMeaning.DenotedMeaning | keepkeylib/erc7730_compiler.py:579-657 | what an argument stands for is what a reader of the tables finds behind its index |
| CompiledReading.CompiledReadsBack | keepkeylib/erc7730_compiler.py:624-789 | every formatter of a compilation stands under its field's format, raw for a token amount without a token, and its arguments, read from the tables, are what the field gives for the parameter of each role: role 17 the `amountPath`, role 18 the `spenderPath` |
| CompiledReading.RuleReadsBack | keepkeylib/erc7730_compiler.py:797-813 | each value of a rule has its literal in the rule's set, in order |
| CompiledReading.RuleReadyIff | keepkeylib/erc7730_compiler.py:338-354 | a rule compiles if and only if each of its values suits the leaf |
| CompiledProgram.RecordedResources | keepkeylib/erc7730_compiler.py:954-963 | every table's count, the depths, the longest string, whether anything iterates and whether calls are embedded are read back from the resource section |
| CompiledProgram.PathsShallow | keepkeylib/erc7730_compiler.py:863-871 | every path into a tree is shorter than the depth recorded for it |
| CompiledProgram.DeepestPath | keepkeylib/erc7730_compiler.py:863-871 | and one is as long as that depth allows |
| CompiledScope.CompiledNested | keepkeylib/erc7730_compiler.py:817-852 | every compiled display program is properly nested and its jump targets are mutual |
| CompiledScope.CompiledScoped | keepkeylib/erc7730_compiler.py:617-641 | a field is inside a group if and only if its number is in the group's range |
| CompiledScope.CompiledFields | keepkeylib/erc7730_compiler.py:824-837 | every field instruction of a compiled program is some field's, and fields keep their order |
| CompiledScope.CompiledLoopHugs | keepkeylib/erc7730_compiler.py:628-638 | an iteration over a group's path opens directly in front of the group and closes directly behind it |
| CompiledScope.KeptAre | keepkeylib/erc7730_compiler.py:506-517 | which fields survive, in which order, with hidden interpolated ones promoted |
| CompiledScope.KeptIff | keepkeylib/erc7730_compiler.py:509-517 | a field is shown if and only if it is not hidden or the interpolated intent shows its value |
| CompiledScope.ShownFieldIs | keepkeylib/erc7730_compiler.py:509-517 | a shown field is the descriptor's, and no longer hidden if it was |
| CompiledScope.DescriptorScope | keepkeylib/erc7730_compiler.py:453-471 | with nothing dropped, field number `j` of the descriptor is in the program, inside exactly the groups that enclose it in the descriptor |
| CompiledScope.ScopeKeptIff | keepkeylib/erc7730_compiler.py:509-517 | with fields dropped, the exact condition under which a group keeps its scope |
| CompiledScope.HiddenFieldShiftsGroup | keepkeylib/erc7730_compiler.py:509-517 | a family of descriptors whose group encloses the wrong field |
| CompiledRoles.CompiledRolesAccepted | keepkeylib/erc7730_compiler.py:1252-1294 | the device lists the role and source of a compiled argument if and only if it is not a chain id, and no required role is missing |
| CompiledRoles.PlanChainIff | keepkeylib/erc7730_compiler.py:691-740 | a format asks for a chain id if and only if it is a token amount with `chainId`, or an NFT name with `chainIdPath` or `chainId` |
| CompiledRoles.RolesAcceptedIff | keepkeylib/erc7730_compiler.py:1252-1258 | the device lists every role and source of a compiled formatter if and only if its field names no chain |
| CompiledRoles.ChainRefused | keepkeylib/erc7730_compiler.py:1252-1258 | the check stops at every compiled formatter whose field names a chain |
| CompiledRoles.ChainInputs | keepkeylib/erc7730_compiler.py:1252-1258 | a field of either format, its formatter, and the refusal of role 11 it meets |
| CompiledRoles.DenotedClass | keepkeylib/erc7730_compiler.py:1259-1266 | the class the device gives a constant argument, by what it was compiled from |
| CompiledRoles.DateEncodingIff | keepkeylib/erc7730_compiler.py:1146-1148 | the date-encoding byte strings are those two texts and no others |
| CompiledRoles.CompiledClassAllowedIff | keepkeylib/erc7730_compiler.py:1030-1061 | the device permits a compiled constant if and only if it is within its limits |
| CompiledRoles.RolesUsable | keepkeylib/erc7730_compiler.py:987-1061 | the capability table and `_value_allowed` agree: a role has a listed source if and only if it has a permitted class, and each listed source can deliver one |
| CompiledOperands.InstructionBounded | keepkeylib/erc7730_compiler.py:583-852 | in every compilation each operand of each instruction is absent, names an existing entry, or names the other bracket; closers, captions, separators and condition slots included |
| CompiledOperands.CompiledArgumentBounded | keepkeylib/erc7730_compiler.py:659-789 | in every compilation each argument's index exists, down to literals behind paths, texts behind literals, members of sets and keys and labels of maps |
| CompiledOperands.CompiledTablesBounded | keepkeylib/erc7730_compiler.py:790-813 | in every compilation each condition's path and set exist with all members, and each literal behind a path exists |
| ListedTexts.PlanListed | keepkeylib/erc7730_compiler.py:527-556 | once a field's collected texts are listed, no text its format looks up is missing |
| ListedTexts.FieldListed | keepkeylib/erc7730_compiler.py:473-568 | nor is its title, separator or the caption of a group that starts with it |
| EncodableTables.RowsFitIff | keepkeylib/erc7730_compiler.py:861-875 | the rows of a tree of at most 64 nodes can be encoded if and only if its array lengths take 16 bits |
| EncodableTables.EncodableIff | keepkeylib/erc7730_compiler.py:858-943 | a compilation within the limits can be encoded if and only if its rows, its paths, its literals and its bindings can; conditions, formatters and instructions always can |
| EncodableTables.FieldsHaveFit | keepkeylib/erc7730_compiler.py:907-911 | if the literal table can be encoded, every literal a field asked for could |
| Compilable.CompiledSizes | keepkeylib/erc7730_compiler.py:854-856 | the descriptor determines how many paths, literals, formatters and instructions a compilation has |
| Compilable.ReadyIff | keepkeylib/erc7730_compiler.py:473-852 | with every collected text listed, the emission can start and finish if and only if the descriptor resolves, whatever the texts are |
| Compilable.FinishedIff | keepkeylib/erc7730_compiler.py:854-943 | a compilation is within the limits and can be encoded if and only if the descriptor is small enough and its lengths, paths and literals fit |
| Compilation.FlattenFields | keepkeylib/erc7730_compiler.py:453-471 | the flattened fields with laminar ranges |
| Compilation.CollectStrings | keepkeylib/erc7730_compiler.py:473-568 | exactly the collected texts, sorted; it raises if and only if one is empty or longer than 128 bytes or there are too many |
| Compilation.Assemble | keepkeylib/erc7730_compiler.py:854-963 | it returns if and only if the descriptor is small enough and fits; then the finished tables are those of the emitter's work with their summary, a compilation, within the limits, with the true counts, flags and depths recorded |
| Compilation.Compile | keepkeylib/erc7730_compiler.py:391-963 | it equals `Compiled`: it returns the tables the descriptor determines if and only if the descriptor satisfies `CanCompile`; these are a compilation of the parsed signature and the flattened, filtered fields: formatters and display program say what the fields ask for with nothing missing, extra or out of order, the string table holds exactly the texts shown, and domain literals and bindings are kept; the formatters, read from the tables, are those of the shown fields |
| HiddenFields.ShiftedCompiles | keepkeylib/erc7730_compiler.py:509-517 | with any hidden field in front, a group of one field and a field behind it over `f(uint256 id)` satisfy the condition |
| HiddenFields.CompileShifted | keepkeylib/erc7730_compiler.py:509-517 | so they compile, and the program puts the last field inside the group and the group's own outside |
| Program.ReadStringAt | keepkeylib/erc7730_compiler.py:859-860 | a string entry is read back, the cursor at its end |
| Program.ReadRowAt | keepkeylib/erc7730_compiler.py:872-875 | an ABI row is read back |
| Program.ReadStepAt | keepkeylib/erc7730_compiler.py:895-905 | a step is read back, slice bounds included |
| Program.ReadPathAt | keepkeylib/erc7730_compiler.py:876-906 | a path of any source is read back |
| Program.ReadLiteralAt | keepkeylib/erc7730_compiler.py:907-911 | a literal is read back |
| Program.ReadConditionAt | keepkeylib/erc7730_compiler.py:912-917 | a condition is read back |
| Program.ReadFormatterAt | keepkeylib/erc7730_compiler.py:918-923 | a formatter with its arguments is read back |
| Program.ReadInstructionAt | keepkeylib/erc7730_compiler.py:924-927 | a display instruction is read back |
| ProgramCodec.ReadTableBack | keepkeylib/erc7730_compiler.py:858-943 | any counted table of invertible entries is read back whole, the cursor exactly at the section's end |
| ProgramCodec.StringTableBack | keepkeylib/erc7730_compiler.py:859-860 | the string table |
| ProgramCodec.AbiTableBack | keepkeylib/erc7730_compiler.py:861-875 | the ABI table |
| ProgramCodec.PathTableBack | keepkeylib/erc7730_compiler.py:876-906 | the path table |
| ProgramCodec.LiteralTableBack | keepkeylib/erc7730_compiler.py:907-911 | the literal table |
| ProgramCodec.ConditionTableBack | keepkeylib/erc7730_compiler.py:912-917 | the condition table |
| ProgramCodec.FormatterTableBack | keepkeylib/erc7730_compiler.py:918-923 | the formatter table |
| ProgramCodec.DisplayTableBack | keepkeylib/erc7730_compiler.py:924-927 | the display table |
| ProgramCodec.SectionsBack | keepkeylib/erc7730_compiler.py:1071-1079 | the section loop returns every payload under its kind |
| ProgramCodec.SectionsHold | keepkeylib/erc7730_compiler.py:907-917 | each table stands in its section, and an omitted one reads as empty |
| ProgramCodec.Header | keepkeylib/erc7730_compiler.py:971-977 | the header length and where the definition kind is |
| ProgramCodec.ProgramSections | keepkeylib/erc7730_compiler.py:1071-1079 | the loop over the bytes computes the section map, or raises on a short program |
| ProgramCodec.DecodeUndoesSerialize | keepkeylib/erc7730_compiler.py:858-979 | the bytes of any encodable tables decode to exactly those tables |
| DeviceRefusal.CheckRows | keepkeylib/erc7730_compiler.py:1123-1129 | the byte loop gives the verdict on the decoded rows |
| DeviceRefusal.CheckStrings | keepkeylib/erc7730_compiler.py:1131-1149 | the same for strings, with the sets of short and of date strings |
| DeviceRefusal.CheckLiterals | keepkeylib/erc7730_compiler.py:1151-1178 | the same for literals, with each one's class |
| DeviceRefusal.CheckLimits | keepkeylib/erc7730_compiler.py:1183-1185 | the same for table sizes |
| DeviceRefusal.CheckSteps | keepkeylib/erc7730_compiler.py:1207-1220 | the same for the steps of a path, and on any bytes at all the verdict of `StepBytesVerdict` |
| DeviceRefusal.BadStepRefused | keepkeylib/erc7730_compiler.py:1210-1211 | behind executed steps any other opcode, known or not, is refused with its number |
| DeviceRefusal.CheckPath | keepkeylib/erc7730_compiler.py:1193-1230 | the same for one path, with what it leads to; a refused step refuses the path, whether or not the rest decodes |
| DeviceRefusal.CheckPaths | keepkeylib/erc7730_compiler.py:1187-1230 | the same for all paths |
| DeviceRefusal.CheckConditions | keepkeylib/erc7730_compiler.py:1232-1238 | the same for conditions |
| DeviceRefusal.CheckArguments | keepkeylib/erc7730_compiler.py:1252-1292 | the same for the arguments of a formatter |
| DeviceRefusal.CheckFormatter | keepkeylib/erc7730_compiler.py:1243-1298 | the same for one formatter |
| DeviceRefusal.CheckFormatters | keepkeylib/erc7730_compiler.py:1240-1298 | the same for all formatters |
| DeviceRefusal.CheckDisplays | keepkeylib/erc7730_compiler.py:1300-1336 | the same for the display program |
| DeviceRefusal.SectionsRefusal | keepkeylib/erc7730_compiler.py:1123-1337 | all passes over the sections, in the code's order, give the check on the decoded tables |
| DeviceRefusal.Refusal | keepkeylib/erc7730_compiler.py:1118-1337 | so does the whole function on any program that decodes |
| DeviceSoundness.AcceptedFormatterInBounds | keepkeylib/erc7730_compiler.py:1252-1269 | in an accepted program every argument's index exists, literals behind paths included |
| DeviceSoundness.AcceptedInstructionInBounds | keepkeylib/erc7730_compiler.py:1303-1336 | in an accepted program every formatter and path index that the check of the display program reads exists |
| DeviceSoundness.IterationTracked | keepkeylib/erc7730_compiler.py:1317-1322 | the check's single variable holds the array of the open iteration at every instruction |
| DeviceSoundness.AtMostOneIteration | keepkeylib/erc7730_compiler.py:1317-1322 | no two iterations are open at one instruction |
| DeviceSoundness.ValueReadsItsIteration | keepkeylib/erc7730_compiler.py:1323-1336 | every path argument of a shown value reads the open iteration's array, and none outside |
| DeviceSoundness.ArgumentReachesPermittedLeaf | keepkeylib/erc7730_compiler.py:1208-1269 | on every conforming value an accepted argument's path reaches a leaf of a kind that the format behind the kind takes for the parameter behind the role |
| Capabilities.ValueAllowedIff | keepkeylib/erc7730_compiler.py:1030-1061 | by names: a class is permitted for a role if and only if the format takes it for the parameter |
| Capabilities.SourcesAre | keepkeylib/erc7730_compiler.py:987-1010 | by names: where a parameter may come from |
| Capabilities.RequiredAre | keepkeylib/erc7730_compiler.py:987-1010 | by names: what a format cannot be shown without |
| Capabilities.KnownKindIff | keepkeylib/erc7730_compiler.py:987-1010 | the kinds executed are those of the ten formats the device shows |
| Capabilities.OtherRoles | keepkeylib/erc7730_compiler.py:1030-1061 | nothing is permitted or listed for any other role |
| CompiledAcceptance.PathTypeIff | keepkeylib/erc7730_compiler.py:1252-1269 | a path argument is refused for its type if and only if it leads to no leaf, sender, receiver or sent value of a kind the format takes: an address for `addressName`, an unsigned integer for `amount` |
| CompiledAcceptance.FormatterAcceptedIff | keepkeylib/erc7730_compiler.py:1243-1298 | a compiled formatter is accepted if and only if the device executes the field's format and takes everything the field gives: types, constants, short texts, decimals, aliases, labels, date encodings, no chain |
| CompiledAcceptance.CompiledFormattersIff | keepkeylib/erc7730_compiler.py:1240-1298 | with its paths accepted, a compilation passes the formatter checks if and only if every shown field is executable |
| DisplayChecks.DisplaysAcceptedIff | keepkeylib/erc7730_compiler.py:1300-1336 | a bracketed display program passes if and only if each instruction passes at its place, by the brackets around it: the intent first, interpolations behind it, one iteration at a time, values that read its array |
| DisplayChecks.ValueStepIff | keepkeylib/erc7730_compiler.py:1323-1336 | a value passes if and only if it can be shown there and all its paths read the open array |
| AcceptedDescriptors.RowsAcceptedIff | keepkeylib/erc7730_compiler.py:1123-1129 | the check of the ABI table passes if and only if every array of the signature is dynamic or has 1 to 64 elements |
| AcceptedDescriptors.PrintableIff | keepkeylib/erc7730_compiler.py:1131-1149 | an encoded text is printable if and only if the text has no control characters |
| AcceptedDescriptors.LabelsShortIff | keepkeylib/erc7730_compiler.py:1151-1178 | an enum passes the literal check if and only if each label is at most 64 bytes long |
| AcceptedDescriptors.RuleRefused | keepkeylib/erc7730_compiler.py:1232-1238 | a field shown by a rule has a condition the device refuses |
| AcceptedDescriptors.CompiledCheckIff | keepkeylib/erc7730_compiler.py:1118-1337 | all checks pass on a compilation if and only if those conditions hold, the tables are small and the paths are walked to the end |
| AcceptedDescriptors.AcceptedDescriptor | keepkeylib/erc7730_compiler.py:1340-1355 | for every accepted compilation: array sizes, executable fields, short printable titles, no rules |
| CompiledExecution.EveryIndexInBounds | keepkeylib/erc7730_compiler.py:1118-1337 | in every accepted compilation all operands of all instructions, all conditions, all paths to literals and all arguments down to sets and maps are absent or name existing entries |
| CompiledExecution.AcceptedNamesNoChain | keepkeylib/erc7730_compiler.py:1252-1258 | no field of an accepted compilation names a chain |
| CompiledExecution.OneIterationOpen | keepkeylib/erc7730_compiler.py:1317-1322 | the iteration guarantee for every accepted compilation |
| CompiledExecution.ShownValueReadsItsIteration | keepkeylib/erc7730_compiler.py:1323-1336 | the array guarantee for every accepted compilation |
| CompiledExecution.ArgumentReachesLeaf | keepkeylib/erc7730_compiler.py:1340-1355 | bounds, and leaves of the kinds that the field's format takes, for every accepted compilation, against the parsed signature |
| CompiledExecution.CompileExecutable | keepkeylib/erc7730_compiler.py:1340-1355 | it returns exactly the bytes of the tables the descriptor determines, if there are such tables, the sections have room for them and the device accepts them, and raises otherwise; the bytes decode to those tables, which read back to the descriptor, and every shown field is executable |
| Eip712Types.SafeStep | keepkeylib/erc7730_compiler.py:1366-1378 | a struct is safe if and only if it is not active, its members parse and the structs below are safe with it active |
| Eip712Types.TypedBaseIff | keepkeylib/erc7730_compiler.py:1358-1378 | the terminating tree builder succeeds if and only if its base is safe |
| Eip712Types.TypedBaseSucceedsIff | keepkeylib/erc7730_compiler.py:1358-1378 | with parsable elementary types: if and only if no struct cycle is reachable |
| Eip712Types.TypedBaseValid | keepkeylib/erc7730_compiler.py:1358-1378 | the tree is valid, keeps member names, and a struct becomes a tuple; `TypedTypes` says which tree it is |
| Eip712Types.TypedSignatureParses | keepkeylib/erc7730_compiler.py:1408-1421 | the signature text written for a typed message parses back to the very tree built from its types |
| TypedTypes.TypedBaseIsParsed | keepkeylib/erc7730_compiler.py:1358-1378 | where no struct is named, the tree built from the end of the text is the one the signature parser reads from its front, lengths included, and they raise together |
| TypedTypes.TypedBaseWraps | keepkeylib/erc7730_compiler.py:1359-1363 | for any type, structs included: the tree is what the parser's suffix loop makes of the base's tree and the text behind the base |
| TypedTypes.TypedBaseText | keepkeylib/erc7730_compiler.py:1359-1363 | with canonical numerals the canonical text is that of the base followed by exactly the suffix |
| TypedTypes.StructTree | keepkeylib/erc7730_compiler.py:1364-1372 | member `i` of a struct's tree is the tree of member `i`'s own type under its name |
| SignatureLookahead.TypeAlike | keepkeylib/erc7730_compiler.py:139-197 | what the parser reads depends on the text it takes and one character behind it |
| Eip712EncodeType.Encoder.Visit | keepkeylib/erc7730_compiler.py:1386-1391 | terminates on cyclic tables too; adds only what is reachable and everything the added names lead to |
| Eip712EncodeType.WalkStays | keepkeylib/erc7730_compiler.py:1386-1392 | a settled set contains the end of every walk from the primary type |
| Eip712EncodeType.SortNames | keepkeylib/erc7730_compiler.py:1398-1399 | the names of the set, ascending |
| Eip712EncodeType.AscendingUnique | keepkeylib/erc7730_compiler.py:1398-1399 | a set of names has one ascending order |
| Eip712EncodeType.EncodeType | keepkeylib/erc7730_compiler.py:1381-1399 | the primary type, then exactly the structs reachable from it, once each, in name order; for types without blanks and identifier names a reader recovers each struct with its members from the text |
| Eip712EncodeType.EncodedOrderUnique | keepkeylib/erc7730_compiler.py:1381-1399 | that order is unique, so the text is determined |
| Eip712Declarations.DeclarationsRead | keepkeylib/erc7730_compiler.py:1393-1399 | a reader that splits declarations, commas and the one blank recovers each struct with its members in order |
| Eip712Declarations.DeclarationParses | keepkeylib/erc7730_compiler.py:1393-1397 | the declaration of a struct without struct members is a signature that parses to the struct's own tree |
| Eip712EncodeType.StripArraysIsBase | keepkeylib/erc7730_compiler.py:1388-1388 | without line feeds, the suffixes the pattern strips are those `_typed_base` peels off |
| StreamTypes.ParseArrayLevels | keepkeylib/eip712_stream.py:66-132 | the loop over matches accepts exactly gapless bracket groups |
| StreamTypes.ParseSolidityType | keepkeylib/eip712_stream.py:66-132 | the whole type text, errors included |
| StreamTypes.ParseUndoesPrint | keepkeylib/eip712_stream.py:66-132 | every descriptor is parsed back from its text |
| StreamTypes.PrintRecoversIff | keepkeylib/eip712_stream.py:66-132 | an accepted text is recovered from its descriptor if and only if its base is not `bytes`, `uint` or `int`, digits and a line feed |
| StreamTypes.ParseInjective | keepkeylib/eip712_stream.py:66-132 | texts without line feeds that parse alike are the same |
| StreamTypes.LineFeedIsLost | keepkeylib/eip712_stream.py:105-115 | two texts that share a descriptor |
| StreamValues.EncodeInteger | keepkeylib/eip712_stream.py:188-192 | the shifting loop computes the big-endian bytes at every width |
| StreamValues.EncodeValue | keepkeylib/eip712_stream.py:160-226 | every data type's branch and error; what is returned has a length of the type and, read back by the type, says what the value says, and a refused value is said by no bytes |
| StreamValues.EncodeIff | keepkeylib/eip712_stream.py:160-226 | for every data type: a value is accepted as some bytes if and only if they have a length of the type and, read by the type alone, say what the value says |
| StreamValues.IntegerText | keepkeylib/eip712_stream.py:135-146 | which texts are integers, and which integers they are |
| StreamValues.IntegerReadsBack | keepkeylib/eip712_stream.py:171-192 | an accepted integer is recovered from its bytes |
| StreamValues.IntegerAcceptedIff | keepkeylib/eip712_stream.py:171-187 | exactly the integers that fit the width are accepted |
| StreamPaths.StructMembers | keepkeylib/eip712_stream.py:236-258 | all members in declaration order, or an error on a bad or repeated name |
| StreamPaths.ListedIff | keepkeylib/eip712_stream.py:236-258 | a member list is taken if and only if its names are allowed and distinct and its types parse |
| StreamPaths.ResolveMemberPath | keepkeylib/eip712_stream.py:261-318 | the loop over field, value and levels used computes the recursive walk, errors included |
| StreamPaths.PlaceAppend | keepkeylib/eip712_stream.py:280-306 | a longer path enters one level or member further |
| StreamPaths.ValueAck | keepkeylib/eip712_stream.py:337-378 | lengths, whole values and chunks, with every refusal |
| StreamWalk.PrintElement | keepkeylib/eip712_stream.py:55-63 | an array's type text is its element's text and then its own, last, suffix |
| StreamWalk.RemainingNext | keepkeylib/eip712_stream.py:55-63 | entering a level takes the last suffix off, so dimensions go outermost first at every depth |
| StreamWalk.ArrayAnsweredIff | keepkeylib/eip712_stream.py:280-306 | an array is answered, and entered, if and only if the document has a list as long as the last suffix left on the type says |
| StreamWalk.ServedChunk | keepkeylib/eip712_stream.py:357-368 | an offset is served if and only if the value is long, in the message and not exhausted; the answer echoes it |
| StreamWalk.ChunksAgree | keepkeylib/eip712_stream.py:361-368 | after any offsets in any order, with repeats, the device holds the value's own byte wherever an offset covered |
| StreamWalk.ChunksReassemble | keepkeylib/eip712_stream.py:361-378 | once all positions are covered it holds exactly the value |
| StreamWalk.ReadLeaf | keepkeylib/eip712_stream.py:357-378 | a device that reads on from offset to offset gets the whole encoded leaf |
| StreamWalk.DeviceWalk | keepkeylib/eip712_stream.py:261-318 | walking any conforming subtree by requests gets no error, terminates and rebuilds it |
| StreamWalk.DeviceRead | keepkeylib/eip712_stream.py:236-378 | so domain and message are rebuilt as their encodings, and what is rebuilt shows what the document says |
| StreamWalk.TreeShows | keepkeylib/eip712_stream.py:160-226 | the encoded document, read leaf by leaf by the declared types, says what the document says |
| Catalog.DefinitionCatalog.constructor | keepkeylib/erc7730.py:117-122 | an empty catalog is valid |
| Catalog.DefinitionCatalog.Add | keepkeylib/erc7730.py:131-151 | fails exactly on a conflict and then changes nothing; else both indexes gain the definition; the bijection is kept |
| Catalog.DefinitionCatalog.AddEach | keepkeylib/erc7730.py:117-122 | after any sequence of additions, failed ones included, the indexes are in bijection no entry changed, and each definition took effect unless its id or lookup tuple belonged to another |
| Catalog.DefinitionCatalog.ResolveAgrees | keepkeylib/erc7730.py:153-171 | a definition is found by id if and only if it is registered, and by its lookup tuple likewise |
| Catalog.DefinitionCatalog.Fetch | keepkeylib/erc7730.py:173-195 | chunk requests of any legal lengths return the envelope |
| Catalog.StreamReassembles | keepkeylib/erc7730.py:202-218 | from any offset the chunks join to the rest of the envelope without gaps |
| Catalog.Preload | keepkeylib/erc7730.py:198-218 | returns normally if and only if the device acknowledges every chunk; what was sent is a prefix of the stream, and all of it on return |
| EthereumSigning.Signing.SendInitial | keepkeylib/client.py:925-928 | the first chunk is at most 1024 bytes and bytes are conserved |
| EthereumSigning.Signing.SendChunk | keepkeylib/client.py:955-958 | the next bytes are sent and taken off; without data it raises and sends nothing |
| EthereumSigning.Signing.Answer | keepkeylib/client.py:950-961 | a data request is answered with the next bytes at the length asked for, a definition request with its chunk; anything else raises |
| EthereumSigning.Signing.Run | keepkeylib/client.py:946-961 | for every response sequence sent plus remaining is the data; the run ends normally if and only if a signature comes before anything unanswerable, and then the chunks sent are exactly those asked for, in order |
| ZcashPczt.Session.Call | keepkeylib/client.py:218-230 | one message is sent, one response consumed, and a failure raises |
| ZcashPczt.Session.SendOutputs | keepkeylib/client.py:2190-2207 | outputs go out in order as long as they are asked for; an exception means the device broke the protocol |
| ZcashPczt.Session.SendInputs | keepkeylib/client.py:2209-2231 | then inputs, likewise |
| ZcashPczt.Session.SendActions | keepkeylib/client.py:2233-2255 | terminates; each action is sent once, in the device's order |
| ZcashPczt.Session.TakeSignatures | keepkeylib/client.py:2257-2294 | succeeds if and only if one 64-byte signature per spend and one non-empty one per transparent input came |
| ZcashPczt.Session.SignPczt | keepkeylib/client.py:2118-2298 | returns normally if and only if the device complies; then outputs, inputs and every action exactly once in 1+n+m+k messages, each the caller's record at the index asked for; and for every run at all, what was sent answers what was asked |
| ZcashPczt.AllIndexesIff | keepkeylib/client.py:2254-2255 | the final set comparison holds if and only if as many distinct indexes were sent as there are actions |
| ZcashPczt.CheckArguments | keepkeylib/client.py:2118-2134 | the checks in front of the first message |
| ZcashPczt.SpendsAre | keepkeylib/client.py:2257-2294 | as many signatures are expected as actions say they are spends |
| ZcashPczt.NotAskedAction | keepkeylib/client.py:2236-2255 | a missing, unknown or repeated index, or an early end, means no run with these responses could comply |
| ClearsignAbi.EncodeStaticArgs | keepkeylib/clearsign_abi.py:97-163 | every type's branch and error, words appended in order |
| ClearsignAbi.IntegerEncodingsAgree | keepkeylib/clearsign_abi.py:113-133 | the typed-data bytes, zero- or sign-extended, are the calldata word, and both accept the same integers |
| ClearsignAbi.OpaqueEncodingsAgree | keepkeylib/clearsign_abi.py:134-158 | for bools, addresses and fixed bytes: the typed-data bytes, zero-extended on the left or the right, are the calldata word, and both accept the same bools, numbers and byte strings |
| ClearsignAbi.OpaqueTextsAgree | keepkeylib/clearsign_abi.py:134-158 | of texts that one accepts the other refuses exactly those with `0X` or with blanks |
| ClearsignAbi.TypeNamesAgree | keepkeylib/clearsign_abi.py:66-94 | the static encoder and the compiler's parser read a type name alike, bare `uint` and `int` as 256 bits |
| ClearsignAbi.HeadNamesTail | keepkeylib/clearsign_abi.py:97-163 | in the encoding of the Solidity Contract ABI Specification ("Formal Specification of the Encoding") each dynamic part is found at the offset its head names |
| ClearsignAbi.TupleEncodingIsFlat | keepkeylib/clearsign_abi.py:97-163 | that encoding of any static type, tuples and fixed arrays nested at will, is the flat encoding of its leaves, 32 bytes each |
| ClearsignAbi.WordDecodes | keepkeylib/clearsign_abi.py:105-163 | every encoded word decodes to its argument |
| ClearsignAbi.ArgIff | keepkeylib/clearsign_abi.py:105-163 | an argument is accepted as a word if and only if the word is well-formed for the type and decodes to the argument |
| ClearsignAbi.ArgsDecode | keepkeylib/clearsign_abi.py:97-163 | each word of an encoding decodes to the argument at its position |
| EosNames.NameToNumber | keepkeylib/eos.py:8-25 | the shifting loop computes the packed symbols and stays below 2^64 |
| EosNames.DecodeRecovers | keepkeylib/eos.py:8-25 | the number's symbols spell the name again, up to dots at its end |
| EosNames.OrderAgrees | keepkeylib/eos.py:8-25 | numbers are ordered as the names' symbols are lexicographically |
| EosNames.NumbersDistinct | keepkeylib/eos.py:8-25 | names with one number differ in dots at their ends only |

## Left out

Inputs that are parameters of the model:

- Descriptors are given as display items after `includes`, `$ref` and `$.` references were followed; `_merge_descriptor`, `load_descriptor` and JSON decoding are not modelled.
- The choice of a display format for a signature or typed message, and `compile_eip712` beyond the signature text it builds.
- The interpolated intent is given as tokens; splitting it by regular expression and trimming is not modelled.
- Enum entries are given with decoded keys, sorted as the compiler sorts them.
- Domain constraints, token and network records: their literals, texts and bindings are parameters of `Compilation.Compile`, which appends them as the code does.
- Hashes (SHA-256, keccak) are parameters or uninterpreted; the header's digests are opaque bytes.
- The capability table of the device is fixed at the values in the source.

Narrower than the code:

- DeviceRefusal.Refusal: says nothing about programs whose tables cannot be read to the end, where the original raises an error of its runtime or, as it does not read every byte, may accept; `Decode` also refuses opcodes and flags that the compiler never writes, of which `DeviceRefusal.CheckPath` covers those of steps.
- DeviceSoundness.AcceptedInstructionInBounds: bounds only the operands the check reads; `CompiledExecution.EveryIndexInBounds` bounds all of them for compiled programs.
- CompiledExecution.ArgumentReachesLeaf: speaks of paths whose indexes are into fixed arrays; an index into a dynamic array may be beyond its length.
- AcceptedDescriptors.CompiledCheckIff: the checks of literals, table sizes, paths and conditions are named as such; `AbiWalk.WalkAcceptsIff`, `AcceptedDescriptors.LabelsShortIff` and `RuleRefused` say what they mean one by one.
- Eip712Declarations.DeclarationParses: of structs whose members are no structs; `Eip712Declarations.DeclarationsRead` reads all of them.
- PathTexts.PathResolves: of paths through members whose names are identifiers and unique among their siblings.
- CompiledScope.DescriptorScope: requires that no field is dropped; `CompiledScope.ScopeKeptIff` covers the rest.
- CanonicalForms.FormsAgree: one direction, without blanks; `TidySignatures.FormsAgreeIff` has both directions for every accepted signature.
- SignatureParser.ParseFunctionSignature: digits are ASCII; Python's `isdigit` and `int` take other digits too.
- SignatureParser.Parser.Suffixes: likewise for digits in array lengths.
- ZcashPczt.Session.SignPczt: of the initial request only the counts are kept; the remaining fields are copied through unchanged.
- EosNames.NameToNumber: `|=` is addition, as the bits it sets are clear.
- Two groups with one range are ordered by label and path as the code orders them; comparing an absent label with a text raises, as in Python.

Not modelled:

- `sign_envelope`, Merkle proofs, certificates and BIP-32 arithmetic: foreign cryptography.
- PIN, passphrase and button callbacks inside `call`, transports, sessions and protobuf plumbing.
- Dynamic ABI types in `clearsign_abi.py`, which its encoder refuses.
- Bitcoin `sign_tx`, `asset_to_number`, the EOS action parsers, the wrappers of other chains, and the constant tables of `clearsign_catalog.py`.
