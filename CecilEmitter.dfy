/** The per-method instruction emitter of the Cecil back end,
    src/XamlX.Cecil/CecilEmitter.cs: opcode lookup, operand construction (with the
    argument and local index mapping), label staging and retargeting, local allocation and
    the debug-point tracker with its per-assembly document cache. */
module CecilEmitter {
  import opened Metadata
  import opened Instructions

  /** A System.Reflection.Emit opcode, known by its field name. */
  datatype SreOpCode = SreOpCode(name: string)

  /** Handle of a label this emitter defined (a `CecilLabel`). */
  datatype Label = Label(index: nat)

  /** Handle of a local this emitter defined (a `CecilLocal`): its variable's index. */
  datatype Local = Local(variable: nat)

  /** The argument of one `Emit` overload, lines 109-139 and 168-172. */
  datatype EmitArg =
    | NoArg
    | FieldArg(fieldArg: MemberRef)
    | MethodArg(methodArg: MemberRef)
    | ConstructorArg(ctorArg: MemberRef)
    | StringArg(stringArg: string)
    | IntArg(intArg: int)
    | LongArg(longArg: int)
    | TypeArg(typeArg: TypeRef)
    | FloatArg(floatArgBits: nat)
    | DoubleArg(doubleArgBits: nat)
    | LabelArg(labelArg: Label)
    | LocalArg(localArg: Local)

  // ---------------------------------------------------------------------------------------
  // Operand construction
  // ---------------------------------------------------------------------------------------

  /** `GetParameter`, lines 86-96: on an instance method argument 0 is `this` and argument k
      is declared parameter k - 1; on a static method argument k is parameter k. An index
      outside the parameter list makes `Parameters[arg]` throw, modelled as `None`. */
  function GetParameter(hasThis: bool, parameterCount: nat, arg: int): (r: Option<ParamRef>)
    ensures hasThis && arg == 0 ==> r == Some(ThisParam)
    ensures hasThis && 0 < arg <= parameterCount ==> r == Some(Param(arg - 1))
    ensures !hasThis && 0 <= arg < parameterCount ==> r == Some(Param(arg))
    ensures r.None? <==> arg < 0 || arg >= parameterCount + (if hasThis then 1 else 0)
  {
    if hasThis && arg == 0 then Some(ThisParam)
    else
      var index := if hasThis then arg - 1 else arg;
      if 0 <= index < parameterCount then Some(Param(index)) else None
  }

  /** The IL argument slot of a parameter: the inverse of `GetParameter`. */
  function ArgumentSlot(hasThis: bool, p: ParamRef): int {
    match p
    case ThisParam => 0
    case Param(k) => if hasThis then k + 1 else k
  }

  /** Every slot `GetParameter` accepts names the parameter whose slot it is. */
  lemma GetParameterThenSlot(hasThis: bool, parameterCount: nat, arg: int)
    requires GetParameter(hasThis, parameterCount, arg).Some?
    ensures ArgumentSlot(hasThis, GetParameter(hasThis, parameterCount, arg).value) == arg
  {
  }

  /** Every parameter of the method, `this` included when there is one, is reached from its
      slot, so the mapping is one-to-one. */
  lemma SlotThenGetParameter(hasThis: bool, parameterCount: nat, p: ParamRef)
    requires p.ThisParam? ==> hasThis
    requires p.Param? ==> p.index < parameterCount
    ensures GetParameter(hasThis, parameterCount, ArgumentSlot(hasThis, p)) == Some(p)
  {
  }

  predicate IsArgCode(code: OpCode) {
    code.operandType == ShortInlineArg || code.operandType == InlineArg
  }

  predicate IsVarCode(code: OpCode) {
    code.operandType == InlineVar || code.operandType == ShortInlineVar
  }

  /** `CreateI`, lines 98-105: an argument opcode takes the parameter the integer names, a
      variable opcode the body's variable at that index, any other opcode the integer itself.
      An index outside the parameter or variable list throws, modelled as `None`. */
  function CreateI(code: OpCode, arg: int, hasThis: bool, parameterCount: nat, variableCount: nat): (r: Option<Operand>)
    ensures IsArgCode(code) ==>
      (r.Some? <==> GetParameter(hasThis, parameterCount, arg).Some?) &&
      (r.Some? ==> r.value == ParamOperand(GetParameter(hasThis, parameterCount, arg).value))
    ensures IsVarCode(code) ==>
      r == (if 0 <= arg < variableCount then Some(VarOperand(arg)) else None)
    ensures !IsArgCode(code) && !IsVarCode(code) ==> r == Some(IntOperand(arg))
  {
    if IsArgCode(code) then
      match GetParameter(hasThis, parameterCount, arg)
      case Some(p) => Some(ParamOperand(p))
      case None => None
    else if IsVarCode(code) then
      if 0 <= arg < variableCount then Some(VarOperand(arg)) else None
    else Some(IntOperand(arg))
  }

  /** The operand each `Emit` overload hands to `Instruction.Create`. Member and type
      references are taken as already imported. A branch takes the label's current
      instruction (line 169): its placeholder while the label is unbound, the instruction
      it was bound to afterwards. */
  function CreateOperand(code: OpCode, arg: EmitArg, hasThis: bool, parameterCount: nat,
                         variableCount: nat, targets: seq<InstrRef>): (r: Option<Operand>)
    requires arg.LabelArg? ==> arg.labelArg.index < |targets|
    ensures r.None? ==> arg.IntArg?
    ensures arg.NoArg? ==> r == Some(NoOperand)
    ensures arg.FieldArg? ==> r == Some(FieldOperand(arg.fieldArg))
    ensures arg.MethodArg? ==> r == Some(MethodOperand(arg.methodArg))
    ensures arg.ConstructorArg? ==> r == Some(MethodOperand(arg.ctorArg))
    ensures arg.StringArg? ==> r == Some(StringOperand(arg.stringArg))
    ensures arg.IntArg? ==> r == CreateI(code, arg.intArg, hasThis, parameterCount, variableCount)
    ensures arg.LongArg? ==> r == Some(LongOperand(arg.longArg))
    ensures arg.TypeArg? ==> r == Some(TypeOperand(arg.typeArg))
    ensures arg.FloatArg? ==> r == Some(FloatOperand(arg.floatArgBits))
    ensures arg.DoubleArg? ==> r == Some(DoubleOperand(arg.doubleArgBits))
    ensures arg.LabelArg? ==> r == Some(InstrOperand(targets[arg.labelArg.index]))
    ensures arg.LocalArg? ==> r == Some(VarOperand(arg.localArg.variable))
    ensures !arg.LabelArg? && r.Some? ==> !r.value.InstrOperand?
  {
    match arg
    case NoArg => Some(NoOperand)
    case FieldArg(f) => Some(FieldOperand(f))
    case MethodArg(m) => Some(MethodOperand(m))
    case ConstructorArg(c) => Some(MethodOperand(c))
    case StringArg(s) => Some(StringOperand(s))
    case IntArg(i) => CreateI(code, i, hasThis, parameterCount, variableCount)
    case LongArg(v) => Some(LongOperand(v))
    case TypeArg(t) => Some(TypeOperand(t))
    case FloatArg(bits) => Some(FloatOperand(bits))
    case DoubleArg(bits) => Some(DoubleOperand(bits))
    case LabelArg(l) => Some(InstrOperand(targets[l.index]))
    case LocalArg(v) => Some(VarOperand(v.variable))
  }

  // ---------------------------------------------------------------------------------------
  // Documents and debug points
  // ---------------------------------------------------------------------------------------

  /** The SHA-1 digest of some bytes. Only its determinism matters here, so it is kept
      symbolic: equal contents give equal digests. */
  datatype Digest = Sha1Of(contents: seq<bv8>)

  /** A source file: its path and raw contents (`IFileSource`). */
  datatype FileSource = FileSource(filePath: string, fileContents: seq<bv8>)

  /** A Cecil debug `Document`: its URL (the file path) and content hash. */
  datatype Document = Document(url: string, hash: Digest)

  type DocumentTables = map<AssemblyId, map<string, Document>>

  datatype DocumentLookup = DocumentLookup(doc: Document, tables: DocumentTables, hashed: bool)

  /** Lines 231-249: find the assembly's table, creating an empty one if there is none, then
      the path's document, hashing the contents and creating the document only if the path
      is not in the table yet. Nothing already cached is changed. */
  function LookupDocument(tables: DocumentTables, assembly: AssemblyId, file: FileSource): (r: DocumentLookup)
    ensures assembly in r.tables && file.filePath in r.tables[assembly]
    ensures r.tables[assembly][file.filePath] == r.doc
    ensures r.hashed <==> !(assembly in tables && file.filePath in tables[assembly])
    ensures !r.hashed ==> r.doc == tables[assembly][file.filePath] && r.tables == tables
    ensures r.hashed ==> r.doc == Document(file.filePath, Sha1Of(file.fileContents))
    ensures r.tables.Keys == tables.Keys + {assembly}
    ensures forall a :: a in tables && a != assembly ==> r.tables[a] == tables[a]
    ensures assembly in tables ==>
      r.tables[assembly].Keys == tables[assembly].Keys + {file.filePath} &&
      forall p :: p in tables[assembly] ==> r.tables[assembly][p] == tables[assembly][p]
    ensures assembly !in tables ==> r.tables[assembly].Keys == {file.filePath}
  {
    var docs := if assembly in tables then tables[assembly] else map[];
    if file.filePath in docs then
      assert tables[assembly := docs] == tables;
      DocumentLookup(docs[file.filePath], tables, false)
    else
      var doc := Document(file.filePath, Sha1Of(file.fileContents));
      DocumentLookup(doc, tables[assembly := docs[file.filePath := doc]], true)
  }

  /** A second request for the same assembly and path, whatever the contents are then,
      returns the cached document and hashes nothing. */
  lemma LookupTwice(tables: DocumentTables, assembly: AssemblyId, file: FileSource, again: FileSource)
    requires again.filePath == file.filePath
    ensures var first := LookupDocument(tables, assembly, file);
      var second := LookupDocument(first.tables, assembly, again);
      second.doc == first.doc && !second.hashed && second.tables == first.tables
  {
  }

  /** The (assembly, path) pairs that have a document. */
  function CachedKeys(tables: DocumentTables): set<(AssemblyId, string)> {
    set a, p | a in tables && p in tables[a] :: (a, p)
  }

  /** A series of document requests against the cache: the final tables and how many
      times contents were hashed. */
  function LookupAll(tables: DocumentTables, requests: seq<(AssemblyId, FileSource)>): (r: (DocumentTables, nat))
  {
    if requests == [] then (tables, 0)
    else
      var (t, hashes) := LookupAll(tables, requests[..|requests| - 1]);
      var last := requests[|requests| - 1];
      var lookup := LookupDocument(t, last.0, last.1);
      (lookup.tables, hashes + if lookup.hashed then 1 else 0)
  }

  lemma LookupKeys(tables: DocumentTables, assembly: AssemblyId, file: FileSource)
    ensures var r := LookupDocument(tables, assembly, file);
      CachedKeys(r.tables) == CachedKeys(tables) + {(assembly, file.filePath)} &&
      (r.hashed <==> (assembly, file.filePath) !in CachedKeys(tables))
  {
    var r := LookupDocument(tables, assembly, file);
    forall k | k in CachedKeys(r.tables) ensures k in CachedKeys(tables) + {(assembly, file.filePath)} {
      var (a, p) := k;
      if a != assembly {
        assert a in tables && p in tables[a];
      } else if p != file.filePath {
        assert p in tables[a];
      }
    }
    forall k | k in CachedKeys(tables) ensures k in CachedKeys(r.tables) {
      var (a, p) := k;
      assert a in r.tables && p in r.tables[a];
    }
  }

  /** Hashing happens at most once per (assembly, path): over any series of requests the
      number of hashes is exactly the number of pairs the cache did not hold before. */
  lemma {:induction false} LookupAllHashesOncePerPath(tables: DocumentTables, requests: seq<(AssemblyId, FileSource)>)
    ensures CachedKeys(tables) <= CachedKeys(LookupAll(tables, requests).0)
    ensures LookupAll(tables, requests).1 == |CachedKeys(LookupAll(tables, requests).0)| - |CachedKeys(tables)|
  {
    if requests != [] {
      var prefix := requests[..|requests| - 1];
      LookupAllHashesOncePerPath(tables, prefix);
      var t := LookupAll(tables, prefix).0;
      var last := requests[|requests| - 1];
      LookupKeys(t, last.0, last.1);
    }
  }

  /** A debug point in progress (`CecilDebugPoint`). */
  datatype DebugPoint = DebugPoint(doc: Document, line: int, position: int, startOffset: nat)

  /** What `BeginDebugBlock` returns: a no-op disposable or a debug point. */
  datatype DebugHandle = EmptyDisposable | PointHandle(point: DebugPoint)

  /** An instruction boundary of a debug scope; `EndOfMethod` is Cecil's empty offset. */
  datatype InstructionOffset = OffsetOf(instruction: InstrRef) | EndOfMethod

  datatype Scope = Scope(start: InstructionOffset, end: InstructionOffset)

  datatype SequencePoint = SequencePoint(anchor: InstrRef, document: Document,
                                         startLine: int, startColumn: int, endLine: int, endColumn: int)

  /** The method's debug information: its scope and its sequence points. */
  datatype DebugInfo = DebugInfo(scope: Option<Scope>, sequencePoints: seq<SequencePoint>)

  /** Lines 251-253: a begin at the instruction count where the last debug point started is
      a no-op; any other begin starts a new point at the current count. */
  function BeginBlock(last: Option<DebugPoint>, count: nat, doc: Document, line: int, position: int): (h: DebugHandle)
    ensures h.EmptyDisposable? <==> last.Some? && last.value.startOffset == count
    ensures h.PointHandle? ==> h.point == DebugPoint(doc, line, position, count)
  {
    if last.Some? && last.value.startOffset == count then EmptyDisposable
    else PointHandle(DebugPoint(doc, line, position, count))
  }

  /** `Dispose`, lines 193-215 and 220-223: a point over at least one instruction adds one
      sequence point anchored at the instruction where it started, one column wide on its
      line, and creates the method scope if there is none; otherwise nothing changes. */
  function Release(h: DebugHandle, count: nat, info: DebugInfo): (r: DebugInfo)
    ensures h.EmptyDisposable? || count <= h.point.startOffset ==> r == info
    ensures h.PointHandle? && h.point.startOffset < count ==>
      && |r.sequencePoints| == |info.sequencePoints| + 1
      && r.sequencePoints[..|info.sequencePoints|] == info.sequencePoints
      && r.sequencePoints[|info.sequencePoints|]
         == SequencePoint(At(h.point.startOffset), h.point.doc, h.point.line, h.point.position, h.point.line, h.point.position + 1)
      && (info.scope.None? ==> r.scope == Some(Scope(OffsetOf(At(h.point.startOffset)), EndOfMethod)))
      && (info.scope.Some? ==> r.scope == info.scope)
  {
    match h
    case EmptyDisposable => info
    case PointHandle(p) =>
      if count <= p.startOffset then info
      else
        var instruction := At(p.startOffset);
        var scope := if info.scope.None? then Some(Scope(OffsetOf(instruction), EndOfMethod)) else info.scope;
        DebugInfo(scope, info.sequencePoints + [SequencePoint(instruction, p.doc, p.line, p.position, p.line, p.position + 1)])
  }

  /** A begin that is not collapsed, followed by `emitted` instructions and the release: no
      sequence point if nothing was emitted, otherwise exactly one, anchored at the
      instruction present at begin time, with `EndLine == StartLine == line` and
      `EndColumn == position + 1`; the first one also opens the method scope there. */
  lemma BlockAddsOnePointIfNonEmpty(last: Option<DebugPoint>, count: nat, emitted: nat,
                                    doc: Document, line: int, position: int, info: DebugInfo)
    requires !(last.Some? && last.value.startOffset == count)
    ensures var r := Release(BeginBlock(last, count, doc, line, position), count + emitted, info);
      && (emitted == 0 ==> r == info)
      && (emitted > 0 ==>
           && r.sequencePoints == info.sequencePoints + [SequencePoint(At(count), doc, line, position, line, position + 1)]
           && r.scope == if info.scope.None? then Some(Scope(OffsetOf(At(count)), EndOfMethod)) else info.scope)
  {
  }

  /** A begin at the count where the last point started is collapsed: its release adds
      nothing, however many instructions are emitted inside it. */
  lemma CollapsedBlockAddsNothing(last: DebugPoint, emitted: nat, doc: Document, line: int, position: int, info: DebugInfo)
    ensures Release(BeginBlock(Some(last), last.startOffset, doc, line, position), last.startOffset + emitted, info) == info
  {
  }

  /** A consequence of comparing with the last point's start rather than with what was
      emitted: after a block that emitted nothing, a block begun at the same count is
      collapsed, so the instructions it emits get no sequence point of their own. */
  lemma EmptyBlockSwallowsNext(last: Option<DebugPoint>, count: nat, emitted: nat,
                               doc: Document, line: int, position: int,
                               doc2: Document, line2: int, position2: int, info: DebugInfo)
    requires !(last.Some? && last.value.startOffset == count)
    ensures var first := BeginBlock(last, count, doc, line, position);
      && first.PointHandle?
      && Release(first, count, info) == info
      && var second := BeginBlock(Some(first.point), count, doc2, line2, position2);
         second == EmptyDisposable && Release(second, count + emitted, info) == info
  {
  }

  /** Staging one more label adds the instruction it holds. */
  lemma StagedSnoc(targets: seq<InstrRef>, marked: seq<nat>, l: nat)
    requires forall m :: m in marked ==> m < |targets|
    requires l < |targets|
    ensures StagedTargets(targets, marked + [l]) == StagedTargets(targets, marked) + {targets[l]}
  {
  }

  /** The instructions held by the first `k` staged labels. */
  function StagedPrefix(targets: seq<InstrRef>, marked: seq<nat>, k: nat): set<InstrRef>
    requires forall i :: 0 <= i < |marked| ==> marked[i] < |targets|
    requires k <= |marked|
  {
    StagedTargets(targets, marked[..k])
  }

  /** One turn of the loop of lines 75-81: label `marked[k]`, bound by the earlier turns
      as `BindTargets` says, holds some instruction `t`. Retargeting `t` after the earlier
      rewrites is one rewrite for all of them, `t` joins the staged set (unless it already is
      `At(n)`) and the label is bound to `At(n)`. */
  lemma BindStep(body: seq<Instruction>, targets: seq<InstrRef>, marked: seq<nat>, k: nat, n: nat, done: set<InstrRef>)
    requires forall i :: 0 <= i < |marked| ==> marked[i] < |targets|
    requires k < |marked|
    requires forall m :: 0 <= m < |targets| ==> targets[m] != At(n)
    requires done - {At(n)} == StagedPrefix(targets, marked, k)
    ensures var bound := BindTargets(targets, marked[..k], At(n));
      var t := bound[marked[k]];
      && Rebind(Rebind(body, done, At(n)), {t}, At(n)) == Rebind(body, done + {t}, At(n))
      && (done + {t}) - {At(n)} == StagedPrefix(targets, marked, k + 1)
      && BindTargets(targets, marked[..k + 1], At(n)) == bound[marked[k] := At(n)]
  {
    var t := BindTargets(targets, marked[..k], At(n))[marked[k]];
    RebindCompose(body, done, {t}, At(n));
    assert marked[..k + 1] == marked[..k] + [marked[k]];
    StagedSnoc(targets, marked[..k], marked[k]);
  }

  // ---------------------------------------------------------------------------------------
  // The emitter
  // ---------------------------------------------------------------------------------------

  /** The static `_documents` table, shared by every emitter (lines 226-227). `hashCount`
      records how often file contents were hashed. */
  class DocumentCache {
    var tables: DocumentTables
    ghost var hashCount: nat

    constructor()
      ensures tables == map[] && hashCount == 0
    {
      tables := map[];
      hashCount := 0;
    }

    /** Lines 237-239: the foreign SHA-1 call. */
    method ComputeHash(contents: seq<bv8>) returns (d: Digest)
      modifies this
      ensures d == Sha1Of(contents)
      ensures tables == old(tables) && hashCount == old(hashCount) + 1
    {
      d := Sha1Of(contents);
      hashCount := hashCount + 1;
    }
  }

  class CecilEmitter {
    /** The static opcode table `Dic` (lines 39-56): a partial map, since opcodes without a
        Cecil counterpart were skipped. */
    const opcodes: map<SreOpCode, OpCode>
    /** `_body.Method.HasThis` and the number of declared parameters. */
    const hasThis: bool
    const parameterCount: nat
    /** `_method.Module.Assembly`. */
    const assembly: AssemblyId
    const documents: DocumentCache

    /** `_body.Instructions` and `_body.Variables` (each variable by its type). */
    var instructions: seq<Instruction>
    var variables: seq<TypeRef>
    /** The `Instruction` of each label this emitter defined, by label number. */
    var targets: seq<InstrRef>
    /** `_markedLabels`. */
    var marked: seq<nat>
    var lastDebugPoint: Option<DebugPoint>
    /** `_method.DebugInformation`. */
    var debugInfo: DebugInfo

    function Labels(): LabelState
      reads this
    {
      LabelState(instructions, targets, marked)
    }

    ghost predicate Valid()
      reads this
    {
      && Consistent(Labels())
      && (lastDebugPoint.Some? ==> lastDebugPoint.value.startOffset <= |instructions|)
      && (forall k :: 0 <= k < |debugInfo.sequencePoints| ==>
            debugInfo.sequencePoints[k].anchor.At? && debugInfo.sequencePoints[k].anchor.index < |instructions|)
    }

    /** Lines 62-67: the emitter wraps the method's existing body, whose instructions,
        variables and debug information it goes on appending to. The body it is given is
        well formed: its branches name its own instructions and its sequence points are
        anchored at them. No label exists yet and no debug point has been begun. */
    constructor(opcodes: map<SreOpCode, OpCode>, hasThis: bool, parameterCount: nat,
                assembly: AssemblyId, documents: DocumentCache,
                body: seq<Instruction>, bodyVariables: seq<TypeRef>, bodyDebugInfo: DebugInfo)
      requires Consistent(LabelState(body, [], []))
      requires forall k :: 0 <= k < |bodyDebugInfo.sequencePoints| ==>
        bodyDebugInfo.sequencePoints[k].anchor.At? && bodyDebugInfo.sequencePoints[k].anchor.index < |body|
      ensures Valid()
      ensures this.opcodes == opcodes && this.hasThis == hasThis && this.parameterCount == parameterCount
      ensures this.assembly == assembly && this.documents == documents
      ensures instructions == body && variables == bodyVariables && debugInfo == bodyDebugInfo
      ensures targets == [] && marked == [] && lastDebugPoint == None
    {
      this.opcodes := opcodes;
      this.hasThis := hasThis;
      this.parameterCount := parameterCount;
      this.assembly := assembly;
      this.documents := documents;
      instructions := body;
      variables := bodyVariables;
      targets := [];
      marked := [];
      lastDebugPoint := None;
      debugInfo := bodyDebugInfo;
    }

    /** Lines 77-79: every instruction whose operand names `from` now names `to`. */
    method RetargetOperands(from: InstrRef, to: InstrRef)
      modifies this`instructions
      ensures instructions == Rebind(old(instructions), {from}, to)
    {
      var j := 0;
      while j < |instructions|
        invariant 0 <= j <= |instructions| == |old(instructions)|
        invariant forall m :: 0 <= m < j ==>
          instructions[m] == if RefersTo(old(instructions)[m].operand, {from})
                             then Instruction(old(instructions)[m].code, InstrOperand(to))
                             else old(instructions)[m]
        invariant forall m :: j <= m < |instructions| ==> instructions[m] == old(instructions)[m]
      {
        if instructions[j].operand == InstrOperand(from) {
          instructions := instructions[j := Instruction(instructions[j].code, InstrOperand(to))];
        }
        j := j + 1;
      }
    }

    /** Lines 75-81: for each staged label in turn, retarget the operands naming its
        instruction at `At(n)` and bind the label to it. */
    method BindStaged(n: nat)
      requires forall i :: 0 <= i < |marked| ==> marked[i] < |targets|
      requires forall l :: 0 <= l < |targets| ==> targets[l] != At(n)
      modifies this`instructions, this`targets
      ensures instructions == Rebind(old(instructions), StagedTargets(old(targets), marked), At(n))
      ensures targets == BindTargets(old(targets), marked, At(n))
    {
      ghost var done: set<InstrRef> := {};
      var k := 0;
      while k < |marked|
        invariant 0 <= k <= |marked|
        invariant instructions == Rebind(old(instructions), done, At(n))
        invariant done - {At(n)} == StagedPrefix(old(targets), marked, k)
        invariant targets == BindTargets(old(targets), marked[..k], At(n))
      {
        BindStep(old(instructions), old(targets), marked, k, n, done);
        var l := marked[k];
        var t := targets[l];
        RetargetOperands(t, At(n));
        done := done + {t};
        targets := targets[l := At(n)];
        k := k + 1;
      }
      assert marked[..k] == marked;
      RebindIgnoresTarget(old(instructions), done, StagedTargets(old(targets), marked), At(n));
    }

    /** `Emit(Instruction i)`, lines 72-84: append, then for every staged label rewrite each
        operand naming its instruction to the new one, bind the label to it, and unstage
        all labels. */
    method EmitInstruction(i: Instruction)
      requires Valid()
      requires i.operand.InstrOperand? ==> Refers(Labels(), i.operand.target)
      modifies this
      ensures Valid()
      ensures Labels() == AppendStep(old(Labels()), i)
      ensures variables == old(variables) && lastDebugPoint == old(lastDebugPoint) && debugInfo == old(debugInfo)
    {
      AppendPreservesConsistent(Labels(), i);
      var n := |instructions|;
      instructions := instructions + [i];
      assert forall k :: 0 <= k < |marked| ==> marked[k] in marked;
      BindStaged(n);
      marked := [];
    }

    /** The public `Emit` overloads, lines 109-139 and 168-172: look the opcode up in `Dic`,
        build the operand, append. When `CreateI` throws, nothing is appended. */
    method Emit(code: SreOpCode, arg: EmitArg) returns (ok: bool)
      requires Valid() && code in opcodes
      requires arg.LabelArg? ==> arg.labelArg.index < |targets|
      modifies this
      ensures Valid()
      ensures var op := CreateOperand(opcodes[code], arg, hasThis, parameterCount, |old(variables)|, old(targets));
        && ok == op.Some?
        && Labels() == if ok then AppendStep(old(Labels()), Instruction(opcodes[code], op.value)) else old(Labels())
      ensures variables == old(variables) && lastDebugPoint == old(lastDebugPoint) && debugInfo == old(debugInfo)
    {
      var op := CreateOperand(opcodes[code], arg, hasThis, parameterCount, |variables|, targets);
      if op.None? {
        return false;
      }
      EmitInstruction(Instruction(opcodes[code], op.value));
      ok := true;
    }

    /** `DefineLocal`, lines 152-158: one more variable of type `t`; the handle names it. */
    method DefineLocal(t: TypeRef) returns (local: Local)
      requires Valid()
      modifies this
      ensures Valid()
      ensures variables == old(variables) + [t]
      ensures local.variable == |old(variables)| && variables[local.variable] == t
      ensures Labels() == old(Labels()) && lastDebugPoint == old(lastDebugPoint) && debugInfo == old(debugInfo)
    {
      variables := variables + [t];
      local := Local(|variables| - 1);
    }

    /** `DefineLabel`, lines 149 and 160: a new label holding a fresh placeholder that no
        instruction of the body refers to. */
    method DefineLabel() returns (defined: Label)
      requires Valid()
      modifies this
      ensures Valid()
      ensures Labels() == DefineStep(old(Labels()))
      ensures defined.index == |old(targets)| && targets[defined.index] == Placeholder(defined.index)
      ensures forall j :: 0 <= j < |instructions| ==> instructions[j].operand != InstrOperand(targets[defined.index])
      ensures variables == old(variables) && lastDebugPoint == old(lastDebugPoint) && debugInfo == old(debugInfo)
    {
      defined := Label(|targets|);
      targets := targets + [Placeholder(|targets|)];
      DefinePreservesConsistent(old(Labels()));
    }

    /** `MarkLabel`, lines 162-166: stages the label; no instruction is added. */
    method MarkLabel(toMark: Label)
      requires Valid() && toMark.index < |targets|
      modifies this
      ensures Valid()
      ensures Labels() == MarkStep(old(Labels()), toMark.index)
      ensures variables == old(variables) && lastDebugPoint == old(lastDebugPoint) && debugInfo == old(debugInfo)
    {
      marked := marked + [toMark.index];
    }

    /** Lines 231-249: the document for `file` in this assembly's table, created and hashed
        on the first request for its path. */
    method FindDocument(file: FileSource) returns (doc: Document)
      modifies documents
      ensures var lookup := LookupDocument(old(documents.tables), assembly, file);
        && documents.tables == lookup.tables && doc == lookup.doc
        && documents.hashCount == old(documents.hashCount) + (if lookup.hashed then 1 else 0)
    {
      var docs: map<string, Document>;
      if assembly in documents.tables {
        docs := documents.tables[assembly];
      } else {
        docs := map[];
        documents.tables := documents.tables[assembly := docs];
      }
      if file.filePath in docs {
        doc := docs[file.filePath];
      } else {
        var hash := documents.ComputeHash(file.fileContents);
        doc := Document(file.filePath, hash);
        docs := docs[file.filePath := doc];
        documents.tables := documents.tables[assembly := docs];
      }
    }

    /** `BeginDebugBlock`, lines 229-254: look the document up (creating and hashing it on
        the first request for this assembly and path), then return a no-op if the last
        point started at the current count, else a new point that becomes the last one. */
    method BeginDebugBlock(file: FileSource, line: int, position: int) returns (h: DebugHandle)
      requires Valid()
      modifies this, documents
      ensures Valid()
      ensures var lookup := LookupDocument(old(documents.tables), assembly, file);
        && documents.tables == lookup.tables
        && documents.hashCount == old(documents.hashCount) + (if lookup.hashed then 1 else 0)
        && h == BeginBlock(old(lastDebugPoint), |instructions|, lookup.doc, line, position)
      ensures lastDebugPoint == if h.PointHandle? then Some(h.point) else old(lastDebugPoint)
      ensures Labels() == old(Labels()) && variables == old(variables) && debugInfo == old(debugInfo)
    {
      var doc := FindDocument(file);
      if lastDebugPoint.Some? && lastDebugPoint.value.startOffset == |instructions| {
        h := EmptyDisposable;
      } else {
        var point := DebugPoint(doc, line, position, |instructions|);
        lastDebugPoint := Some(point);
        h := PointHandle(point);
      }
    }

    /** Releasing a handle `BeginDebugBlock` returned (`CecilDebugPoint.Dispose`,
        `EmptyDisposable.Dispose`). */
    method Dispose(h: DebugHandle)
      requires Valid()
      modifies this
      ensures Valid()
      ensures debugInfo == Release(h, |instructions|, old(debugInfo))
      ensures Labels() == old(Labels()) && variables == old(variables) && lastDebugPoint == old(lastDebugPoint)
    {
      match h
      case EmptyDisposable =>
      case PointHandle(p) =>
        if |instructions| <= p.startOffset {
          return;
        }
        var instruction := At(p.startOffset);
        if debugInfo.scope.None? {
          debugInfo := debugInfo.(scope := Some(Scope(OffsetOf(instruction), EndOfMethod)));
        }
        debugInfo := debugInfo.(sequencePoints := debugInfo.sequencePoints +
          [SequencePoint(instruction, p.doc, p.line, p.position, p.line, p.position + 1)]);
    }
  }
}
