# XamlX code-generation back end, modelled in Dafny

XamlX compiles XAML markup into IL. This project models three pieces of its back end:

- **The Cecil instruction emitter** (`CecilEmitter`, in `Instructions.dfy` and `CecilEmitter.dfy`).
  It appends instructions to a method body and converts opcode and argument pairs into
  Cecil operands. It also maps argument and local slot numbers to parameters and variables,
  defines and marks labels, and keeps per-assembly debug documents and sequence points.
  - A marked label is bound lazily: it is bound to the next instruction emitted, and every
    operand that pointed at the label's old instruction is retargeted there.
  - The emitter is a class whose methods update its fields. Each method is proved against a
    function on values (`AppendStep`, `MarkStep`, `DefineStep`, `LookupDocument`,
    `BeginBlock`, `Release`).
  - Those functions are connected to an independent reference: for an emitter begun over an
    empty body, a run of events replayed by the scanning emitter gives, at every position,
    the instruction that resolution by mark position predicts (`ReplayResolvesBranches`).
- **The compiler helper AST nodes** (`CompilerHelpers.dfy`): local reference, local
  initialization, begin-init, imperative manipulation, value-then-manipulation, context
  local, runtime cast and needs-parent-stack.
  - Each node's code generation is a function from its children's code to the code it
    appends and the result it reports.
  - Each node's effect on the stack is proved with a typed evaluation-stack machine
    (`Step`/`Run`):
    - the local-reference, local-initialization, begin-init and runtime-cast nodes push
      one value (under the stated assumptions about their children's code);
    - the imperative manipulation discards the one value under it;
    - the value-then-manipulation node leaves the stack as it was.
  - As in the code, the context-local and local-initialization nodes report a type that is
    not tied to the type they push. The needs-parent-stack node has no stack lemma; it only
    passes its value's block through.
  - `CodeGen` is the emitter the nodes append to.
- **The Cecil type builder** (`CecilTypeBuilder.dfy`): a type definition under construction
  and the builder that adds fields, methods, properties, constructors, interface
  implementations and nested types to it.
  - Its invariant (`TypeBuilder.Valid`) says the builder's wrapper lists mirror the
    definition's member lists.
  - The methods of the definition are split into ordinary methods and constructors, told
    apart by `RTSpecialName`.
  - Attribute flag sets are proved to match the ECMA-335 bit values (`MethodBits`).

`Metadata.dfy` holds the opaque handles shared by the three: imported type and member
references, and assembly identities.

Two places where one might expect different behaviour from what the code does; the model
follows the code:

- **Consecutive debug blocks.** One might expect two consecutive begin/release pairs, with
  nothing emitted between the first release and the second begin, to give no sequence
  point for the second pair. The code instead compares the new begin with the offset where
  the *last debug point started* (src/XamlX.Cecil/CecilEmitter.cs:251-253). So the second
  block is collapsed only when the first block emitted nothing (`EmptyBlockSwallowsNext`).
  When the first block emitted an instruction, the second begin is at a later count and gets
  its own point (`BlockAddsOnePointIfNonEmpty`).
- **Local, then begin-init.** One might expect that initializing a local from a new object
  and then wrapping a *reference* to it in begin-init leaves the one new object. The code
  emits newobj, dup, stloc, then an extra ldloc for the reference, then dup and the
  `BeginInit` call, so two values of the type are left (`BeginInitOverReferenceAfterInit`).
  The composition that leaves a single value is begin-init around the initialization
  itself: newobj, dup, stloc, dup, call (`BeginInitOverInitLocal`). Initialization followed
  by any number of references is `InitThenReferences`.

## Model

| member | source | states |
|---|---|---|
| Instructions.Rebind | src/XamlX.Cecil/CecilEmitter.cs:77-79 | the rewritten body has the same length; an instruction whose operand names a staged instruction now has the same opcode and names the new target; every other instruction is unchanged |
| Instructions.RebindCompose | src/XamlX.Cecil/CecilEmitter.cs:75-81 | retargeting for one set of staged instructions and then for another is the same as one retargeting for their union, so the per-label loop is one rewrite |
| Instructions.RebindIgnoresTarget | src/XamlX.Cecil/CecilEmitter.cs:77-79 | whether the new instruction itself is among the staged ones does not change the result |
| Instructions.StagedTargets | src/XamlX.Cecil/CecilEmitter.cs:75-78 | a definitional helper: holds exactly the instructions that the staged labels currently point at |
| Instructions.BindTargets | src/XamlX.Cecil/CecilEmitter.cs:80 | a definitional helper: every staged label now holds the new instruction; every other label keeps its instruction |
| Instructions.AppendStep | src/XamlX.Cecil/CecilEmitter.cs:72-84 | one instruction is appended; existing opcodes are kept; the staged labels are bound to the new index; other labels are unchanged; nothing stays staged |
| Instructions.MarkStep | src/XamlX.Cecil/CecilEmitter.cs:162-166 | marking stages the label and changes neither the body nor any label's target |
| Instructions.DefineStep | src/XamlX.Cecil/CecilEmitter.cs:149-160 | a new label is added that holds its own fresh placeholder; body and staging are unchanged |
| Instructions.AppendRetargets | src/XamlX.Cecil/CecilEmitter.cs:72-84 | after an append, operands that named a staged label's instruction name the new instruction, the others are unchanged, and no operand names a staged instruction other than the new one |
| Instructions.AppendPreservesConsistent | src/XamlX.Cecil/CecilEmitter.cs:72-84 | appending an instruction whose operand names something that exists keeps the label invariant: staged labels exist, each label holds its placeholder or an appended instruction, every operand names something that exists |
| Instructions.MarkPreservesConsistent | src/XamlX.Cecil/CecilEmitter.cs:162-166 | marking an existing label keeps the label invariant |
| Instructions.DefinePreservesConsistent | src/XamlX.Cecil/CecilEmitter.cs:149-160 | defining a label keeps the invariant, and no existing operand names the new label's placeholder |
| Instructions.ReplayResolvesBranches | src/XamlX.Cecil/CecilEmitter.cs:72-84 | for every well-formed run of define/mark/emit events, the body holds one instruction per emit, and instruction p equals the reference resolution: forward and backward branches point at the instruction emitted right after the label's mark; branches to an unbound label point at its placeholder |
| Instructions.ReplayBindsLabels | src/XamlX.Cecil/CecilEmitter.cs:75-81 | at the end of a well-formed run, each label holds the instruction emitted right after its mark, or its own placeholder if none was |
| CecilEmitter.GetParameter | src/XamlX.Cecil/CecilEmitter.cs:86-96 | with an implicit `this`, slot 0 is `this` and slot k is parameter k-1; without one, slot k is parameter k; the result is absent exactly when the slot is negative or past the last parameter |
| CecilEmitter.GetParameterThenSlot | src/XamlX.Cecil/CecilEmitter.cs:86-96 | the parameter found for a slot maps back to that slot |
| CecilEmitter.SlotThenGetParameter | src/XamlX.Cecil/CecilEmitter.cs:86-96 | every existing parameter's slot finds that parameter again |
| CecilEmitter.CreateI | src/XamlX.Cecil/CecilEmitter.cs:98-105 | argument opcodes get the parameter at the slot, variable opcodes the variable at the index, all others the integer itself; it fails exactly when the slot or index does not exist |
| CecilEmitter.CreateOperand | src/XamlX.Cecil/CecilEmitter.cs:109-172 | each overload's argument is carried into the operand unchanged: no argument, a field, a method, a constructor (as a method operand), a string, a long, a type, a float or a double. An integer argument is resolved by `CreateI`, which is the only source of failure. A label argument becomes the instruction the label holds, a local its variable, and no other argument yields an instruction operand |
| CecilEmitter.LookupDocument | src/XamlX.Cecil/CecilEmitter.cs:231-249 | after the lookup, the assembly's table maps the path to the returned document; a hash is computed exactly when the path was not cached; a cached document is returned with nothing changed; a new one carries the path and the contents' SHA-1; other assemblies' tables are unchanged |
| CecilEmitter.LookupTwice | src/XamlX.Cecil/CecilEmitter.cs:235-249 | a second lookup of the same assembly and path returns the first document and hashes nothing, even if the contents have changed |
| CecilEmitter.LookupKeys | src/XamlX.Cecil/CecilEmitter.cs:231-249 | a lookup adds exactly its (assembly, path) pair to the cached pairs, and it hashes exactly when that pair was not cached before |
| CecilEmitter.LookupAllHashesOncePerPath | src/XamlX.Cecil/CecilEmitter.cs:235-249 | over any series of lookups, the number of hashes computed equals the number of new (assembly, path) pairs; no cached pair is lost |
| CecilEmitter.BeginBlock | src/XamlX.Cecil/CecilEmitter.cs:251-253 | a no-op handle comes back exactly when the last debug point started at the current instruction count; otherwise a point at the current count carries the document, line and position |
| CecilEmitter.Release | src/XamlX.Cecil/CecilEmitter.cs:193-215 | a no-op handle, or a point over no instructions, changes nothing. Otherwise: exactly one sequence point is appended, anchored at the start instruction, spanning line to line and column position to position+1; when the method has no scope yet, one is created, starting at the instruction at the point's start offset and extending to the end of the method; an existing scope is kept as it is |
| CecilEmitter.BlockAddsOnePointIfNonEmpty | src/XamlX.Cecil/CecilEmitter.cs:193-215 | an uncollapsed block adds one sequence point exactly when at least one instruction was emitted inside it |
| CecilEmitter.CollapsedBlockAddsNothing | src/XamlX.Cecil/CecilEmitter.cs:251-252 | a block begun where the last point started leaves the debug information unchanged, whatever it contains |
| CecilEmitter.EmptyBlockSwallowsNext | src/XamlX.Cecil/CecilEmitter.cs:251-253 | after a block that emitted nothing, the next begin at the same count is collapsed |
| CecilEmitter.StagedSnoc | src/XamlX.Cecil/CecilEmitter.cs:75-78 | staging one more label adds exactly the instruction it holds to the staged set |
| CecilEmitter.BindStep | src/XamlX.Cecil/CecilEmitter.cs:75-81 | one turn of the binding loop for label l binds l, and its rewrite composes with the rewrite for the labels before it |
| CecilEmitter.DocumentCache.constructor | src/XamlX.Cecil/CecilEmitter.cs:226-227 | the document cache starts with no assembly tables |
| CecilEmitter.DocumentCache.ComputeHash | src/XamlX.Cecil/CecilEmitter.cs:237-239 | returns the contents' SHA-1, counts one hash and leaves the tables alone |
| CecilEmitter.CecilEmitter.constructor | src/XamlX.Cecil/CecilEmitter.cs:62-67 | the emitter wraps the method's existing body: it keeps the given instructions, variables and debug information, has no labels, nothing staged and no last debug point, and satisfies its invariant when the given body is well formed |
| CecilEmitter.CecilEmitter.RetargetOperands | src/XamlX.Cecil/CecilEmitter.cs:77-79 | the body becomes the rewrite of the old body for the one staged instruction; labels, staging, variables and debug state are untouched |
| CecilEmitter.CecilEmitter.BindStaged | src/XamlX.Cecil/CecilEmitter.cs:75-81 | the body becomes the rewrite of the old body for all staged instructions; the label table becomes the old one with every staged label bound to the new index |
| CecilEmitter.CecilEmitter.EmitInstruction | src/XamlX.Cecil/CecilEmitter.cs:72-84 | the emitter's label state becomes exactly `AppendStep` of the old state, so the invariant holds and, for an emitter begun over an empty body, the resolution theorem applies; variables and debug state are unchanged |
| CecilEmitter.CecilEmitter.Emit | src/XamlX.Cecil/CecilEmitter.cs:109-139 | when the operand can be built, exactly that instruction is appended, as in `EmitInstruction`; otherwise nothing changes and the call reports failure |
| CecilEmitter.CecilEmitter.DefineLocal | src/XamlX.Cecil/CecilEmitter.cs:152-158 | one variable of the given type is appended and the returned local names it; labels and debug state are unchanged |
| CecilEmitter.CecilEmitter.DefineLabel | src/XamlX.Cecil/CecilEmitter.cs:160 | the label state becomes `DefineStep` of the old one; the new label holds its own placeholder, which no instruction names yet |
| CecilEmitter.CecilEmitter.MarkLabel | src/XamlX.Cecil/CecilEmitter.cs:162-166 | the label state becomes `MarkStep` of the old one; no instruction is added |
| CecilEmitter.CecilEmitter.FindDocument | src/XamlX.Cecil/CecilEmitter.cs:231-249 | the cache's tables and result are those of `LookupDocument`; a hash is counted exactly when the lookup hashes |
| CecilEmitter.CecilEmitter.BeginDebugBlock | src/XamlX.Cecil/CecilEmitter.cs:229-254 | the handle is `BeginBlock` over the looked-up document and the current count; a real point becomes the last debug point; body, labels and sequence points are unchanged |
| CecilEmitter.CecilEmitter.Dispose | src/XamlX.Cecil/CecilEmitter.cs:193-224 | the debug information becomes `Release` of the handle at the current instruction count; nothing else changes |
| CompilerHelpers.LocalRefBlock | src/XamlX/Ast/CompilerHelpers.cs:24-28 | in any context and on any stack, the node's code leaves one more value, of the local's declared type, and the node reports that type with nothing consumed |
| CompilerHelpers.InitLocalBlock | src/XamlX/Ast/CompilerHelpers.cs:49-55 | the value, coerced to the local's type, is emitted first; after it come exactly `dup` and the store to the node's own local; the node reports nothing consumed and the value's return type |
| CompilerHelpers.BeginInitBlock | src/XamlX/Ast/CompilerHelpers.cs:64-79 | the wrapped value's code comes first; the node adds code exactly when `SupportsInitialize` holds (the hook type is configured and accepts the value's type), and then exactly `dup` and the hook call; the node reports the wrapped value's own result |
| CompilerHelpers.ManipulationImperativeBlock | src/XamlX/Ast/CompilerHelpers.cs:92-98 | the node fails on an empty stack; on any other stack it discards the top value and then behaves as its imperative child; it reports one value consumed |
| CompilerHelpers.ValueManipulationBlock | src/XamlX/Ast/CompilerHelpers.cs:124-129 | the value, at its own type, is emitted before the manipulation and nothing else is added; the node reports nothing consumed and no value |
| CompilerHelpers.ContextLocalBlock | src/XamlX/Ast/CompilerHelpers.cs:140-144 | in any context and on any stack, the node's code leaves one more value, of the context local's type, while the node reports its declared type |
| CompilerHelpers.CastOp | src/XamlX/Ast/CompilerHelpers.cs:166-170 | the conversion is `unbox.any` exactly for a value type and `castclass` exactly otherwise; either replaces the top of a non-empty stack by a value of the cast-to type |
| CompilerHelpers.RuntimeCastBlock | src/XamlX/Ast/CompilerHelpers.cs:163-172 | the value, coerced to `Object`, is emitted first, followed by exactly one conversion to the cast-to type, which is the type reported |
| CompilerHelpers.CodeGen.Emit | src/XamlX/Ast/CompilerHelpers.cs:52 | emitting one instruction appends exactly that instruction to the collected code |
| CompilerHelpers.LocalRefLoadsItsLocal | src/XamlX/Ast/CompilerHelpers.cs:24-28 | the node emits one load of its own local, which pushes one value of the local's type; it reports that type and consumes nothing |
| CompilerHelpers.InitLocalStoresACopy | src/XamlX/Ast/CompilerHelpers.cs:49-55 | when the value pushes one value of the local's type, the node leaves exactly one such value on the stack (one copy is stored) and reports the value's return type |
| CompilerHelpers.BeginInitKeepsEffect | src/XamlX/Ast/CompilerHelpers.cs:64-79 | `dup` and the BeginInit call are appended exactly when the hook type exists and is assignable from the value's type; either way the node pushes one value of that type and reports the value's result |
| CompilerHelpers.ManipulationImperativeDiscardsTarget | src/XamlX/Ast/CompilerHelpers.cs:92-98 | with a stack-neutral imperative child, the node pops the value it was given and nothing else, and reports void, consuming one |
| CompilerHelpers.ValueManipulationLeavesNothing | src/XamlX/Ast/CompilerHelpers.cs:124-129 | when the value pushes one value of its type and the manipulation consumes one such value, the node leaves the stack as it was and reports void, consuming nothing |
| CompilerHelpers.ContextLocalLoadsContext | src/XamlX/Ast/CompilerHelpers.cs:140-144 | the node loads the context local, pushing one value of the context's type, and reports the declared type |
| CompilerHelpers.RuntimeCastYieldsTarget | src/XamlX/Ast/CompilerHelpers.cs:163-172 | the value is emitted as Object and then unboxed (value type) or cast (reference type), so the node pushes one value of the target type and reports it |
| CompilerHelpers.NeedsParentStackBlock | src/XamlX/Ast/CompilerHelpers.cs:183-189 | the node emits something exactly when the parent-stack check passes, and then exactly the value's own block and result |
| CompilerHelpers.InitThenReferences | src/XamlX/Ast/CompilerHelpers.cs:24-55 | initializing a local and then referencing it n times leaves n+1 values of the local's type |
| CompilerHelpers.BeginInitOverReferenceAfterInit | src/XamlX/Ast/CompilerHelpers.cs:24-79 | initializing a local from a new object and then wrapping a reference to it in begin-init emits newobj, dup, stloc, ldloc, dup, call BeginInit and leaves two values of the local's type |
| CompilerHelpers.BeginInitOverInitLocal | src/XamlX/Ast/CompilerHelpers.cs:49-79 | begin-init around the initialization of a local from a new object emits newobj, dup, stloc, dup, call BeginInit and leaves one value of the type |
| CompilerHelpers.CodeGen.EmitBlock | src/XamlX/Ast/CompilerHelpers.cs:51 | emitting a child appends its code and returns its result |
| CompilerHelpers.EmitLocalRef | src/XamlX/Ast/CompilerHelpers.cs:24-28 | appends exactly the local-reference block and returns its result |
| CompilerHelpers.EmitInitLocal | src/XamlX/Ast/CompilerHelpers.cs:49-55 | appends exactly the local-initialization block and returns its result |
| CompilerHelpers.EmitBeginInit | src/XamlX/Ast/CompilerHelpers.cs:64-79 | appends exactly the begin-init block and returns the value's result |
| CompilerHelpers.EmitManipulationImperative | src/XamlX/Ast/CompilerHelpers.cs:92-98 | appends `pop` and the imperative child's code and returns void, consuming one |
| CompilerHelpers.EmitValueManipulation | src/XamlX/Ast/CompilerHelpers.cs:124-129 | appends the value's and the manipulation's code and returns void, consuming nothing |
| CompilerHelpers.EmitContextLocal | src/XamlX/Ast/CompilerHelpers.cs:140-144 | appends the context-local load and returns the declared type |
| CompilerHelpers.EmitRuntimeCast | src/XamlX/Ast/CompilerHelpers.cs:163-172 | appends the value as Object and the cast for the target type, and returns the target type |
| CompilerHelpers.EmitNeedsParentStack | src/XamlX/Ast/CompilerHelpers.cs:183-189 | when the check passes, appends the value's block and returns its result; otherwise appends nothing and fails |
| CecilTypeBuilder.FieldAttributesFor | src/XamlX.Cecil/CecilTypeBuilder.cs:21-25 | `Public` is set exactly when the field is public and `Static` exactly when it is static |
| CecilTypeBuilder.MethodAttributesFor | src/XamlX.Cecil/CecilTypeBuilder.cs:43-50 | `Public` iff public, `Static` iff static, `NewSlot` and `Virtual` iff an interface implementation; never `HideBySig` or the special-name flags |
| CecilTypeBuilder.ConstructorAttributesFor | src/XamlX.Cecil/CecilTypeBuilder.cs:81-86 | always `HideBySig`, `SpecialName` and `RTSpecialName`; `Static` iff static and `Public` iff not static; never virtual |
| CecilTypeBuilder.MethodBitsOfFlags | src/XamlX.Cecil/CecilTypeBuilder.cs:43-50 | each flag is present in a set exactly when its own ECMA-335 bits are set in the encoding (`Public` as access value 6), so no flag disturbs another's bits |
| CecilTypeBuilder.MethodBitsRoundTrip | src/XamlX.Cecil/CecilTypeBuilder.cs:43-50 | every method flag set is read back unchanged from its ECMA-335 bit encoding, so distinct flag sets have distinct bits |
| CecilTypeBuilder.AttributeBitValues | src/XamlX.Cecil/CecilTypeBuilder.cs:81-86 | a sanity check on concrete values: a static constructor gets 0x1890, an instance constructor 0x1886 and a public interface implementation 0x0146 |
| CecilTypeBuilder.MethodsPartition | src/XamlX.Cecil/CecilTypeBuilder.cs:59-96 | the ordinary methods and the constructors together account for every method definition, none twice |
| CecilTypeBuilder.AppendOrdinaryMirrors | src/XamlX.Cecil/CecilTypeBuilder.cs:59-61 | adding a non-constructor definition and its wrapper keeps the ordinary-method mirror and leaves the constructor mirror as it was |
| CecilTypeBuilder.AppendConstructorMirrors | src/XamlX.Cecil/CecilTypeBuilder.cs:94-96 | adding a constructor definition and its wrapper keeps the constructor mirror and leaves the ordinary-method mirror as it was |
| CecilTypeBuilder.BuildParameters | src/XamlX.Cecil/CecilTypeBuilder.cs:53-55 | no parameters when no argument list is given; otherwise one parameter per argument type, in order |
| CecilTypeBuilder.TypeDefinition.constructor | src/XamlX.Cecil/CecilTypeBuilder.cs:104-105 | a new type definition has the given namespace, name, attributes and base type and no members |
| CecilTypeBuilder.TypeBuilder.constructor | src/XamlX.Cecil/CecilTypeBuilder.cs:10-13 | a builder over a definition starts with wrappers mirroring the definition's members and no cached interfaces |
| CecilTypeBuilder.TypeBuilder.DefineField | src/XamlX.Cecil/CecilTypeBuilder.cs:18-32 | one field definition, with the flags of `FieldAttributesFor`, is appended to the definition, and its wrapper is appended to the fields; the mirror invariant holds; everything else is unchanged |
| CecilTypeBuilder.TypeBuilder.AddInterfaceImplementation | src/XamlX.Cecil/CecilTypeBuilder.cs:34-38 | the interface is appended to the definition and the interface cache is cleared; nothing else changes |
| CecilTypeBuilder.TypeBuilder.DefineMethod | src/XamlX.Cecil/CecilTypeBuilder.cs:40-63 | one method is appended to the definition's methods and to the wrapper list. It has the given name and return type, the flags of `MethodAttributesFor` and one parameter per argument, and overrides the given method if any. The mirror invariant holds and the constructors are unchanged |
| CecilTypeBuilder.TypeBuilder.DefineProperty | src/XamlX.Cecil/CecilTypeBuilder.cs:65-77 | one property is appended to the definition and to the wrapper list; its setter and getter are the given methods' definitions when given, absent otherwise |
| CecilTypeBuilder.TypeBuilder.DefineConstructor | src/XamlX.Cecil/CecilTypeBuilder.cs:79-98 | one `.cctor` or `.ctor`, returning void with the flags of `ConstructorAttributesFor`, is appended to the definition's methods and to the constructor list; ordinary methods are unchanged and the mirror invariant holds |
| CecilTypeBuilder.TypeBuilder.CreateType | src/XamlX.Cecil/CecilTypeBuilder.cs:100 | the finished type is the builder itself |
| CecilTypeBuilder.TypeBuilder.DefineSubType | src/XamlX.Cecil/CecilTypeBuilder.cs:102-108 | a fresh nested definition with an empty namespace, nested-public or nested-private visibility and the given base type is appended to the nested types; a fresh, valid, empty builder over it, with no cached interfaces, is returned |

## Left out

- SHA-1 is not computed: a document's hash is the symbolic `Sha1Of(contents)`, which is enough to state when hashing happens and what a document carries.
- The static opcode table (src/XamlX.Cecil/CecilEmitter.cs:39-56) is built by reflection. It is a partial map given to the emitter, and `Emit` requires the opcode to be in it; the dictionary miss the source would throw on is not modelled.
- Importing references into the module (`ImportReference`, `GetReference`) is the identity on opaque handles. The generic-argument import helpers of CecilEmitter.cs are not part of this model.
- Cecil's `Instruction.Create` checks that an operand suits its opcode; that check is not modelled, and any opcode/argument pair builds an instruction.
- Floating-point operands are opaque bit patterns.
- The `ConditionalWeakTable` of documents is an ordinary map: weak lifetimes and concurrent access are not modelled.
- A document's type, hash-algorithm and language GUIDs (src/XamlX.Cecil/CecilEmitter.cs:174-175, 245-246) are constants. They are not part of the document value.
- The import of the scope into the method's debug information is not modelled.
- A label or local created by another emitter cannot be expressed. `Emit` and `MarkLabel` require the label number to be one of this emitter's. A local is only its variable index. A debug handle is released on the emitter that created it.
- The emitter has no unbound-label detection, because the source has none either. A branch to a label never marked keeps its placeholder: the branch's operand by `ReplayResolvesBranches` (through `Expected` and `Resolution`), the label's own target by `ReplayBindsLabels`.
- Instructions.ReplayResolvesBranches: the reference resolution takes each label to be marked at most once. A label marked twice is handled by `EmitInstruction` itself but is not compared with the reference.
- Instructions.ReplayResolvesBranches: the replay starts from an empty body, so the comparison covers an emitter begun over an empty method body only. An emitter wrapping a body that already has instructions keeps the invariant (`EmitInstruction`, `MarkLabel`, `DefineLabel`), but its positions are not compared with the reference.
- CecilEmitter.CecilEmitter.constructor: requires that the wrapped body's branch operands and sequence points name the body's own instructions. Cecil keeps a method body that way, and the model has no other instructions for them to name.
- CecilEmitter.Release: the end column is position + 1 over unbounded integers. The 32-bit wrap-around at `int.MaxValue` is not modelled.
- CecilEmitter.GetParameter: the out-of-range exception the source's parameter list throws is modelled as `None`; so is the one the body's variable list throws for a variable index out of range (`CreateI`, src/XamlX.Cecil/CecilEmitter.cs:103). `Emit` then reports failure and appends nothing, where the source throws.
- `XamlXEmitContext` is reduced to parameters:
  - the local table behind `LdLocal`/`StLocal`;
  - the conversion `context.Emit` performs to reach the requested type;
  - the `IsAssignableFrom` and `IsValueType` queries;
  - the BeginInit lookup.

  A child's emitted code for a requested type is an abstract function of that type.
- `XamlXNeedsParentStackCache.Verify` is a boolean in the context (`parentStackVerified`); its failure stands for the exception it throws.
- The `NeedsParentStack` property (src/XamlX/Ast/CompilerHelpers.cs:189) is the constant `true` and only marks the node kind. The model has no node interface to attach it to.
- `VisitChildren` and the node constructors (tree rewriting, not code generation) are not part of this model. This includes the hard cast to a local node at src/XamlX/Ast/CompilerHelpers.cs:120.
- `CecilType`, the base class of the type builder, is not part of this model. Its wrapper lists are taken to start as the wrappers of the definition's members, and its lazy `_interfaces` getter is reduced to a cache that `AddInterfaceImplementation` clears.
- Properties always get `PropertyAttributes.None`, so the model keeps no property attributes.
