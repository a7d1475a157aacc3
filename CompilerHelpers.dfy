/** The eight emitting AST nodes of src/XamlX/Ast/CompilerHelpers.cs. Each node's `Emit`
    appends a short fixed sequence of instructions around the code its children contribute
    and reports an emit result. A child's emission (`context.Emit`) is an abstract block of
    code with its own result. The partner of the nodes is a typed stack machine `Run`: the
    lemmas state what each node's code does to the evaluation stack. As in the code, the
    context-local and local-initialization nodes report a type that is not tied to the type
    they push, and the needs-parent-stack node only passes its value's block through. */
module CompilerHelpers {
  import opened Metadata

  /** A `XamlXAstCompilerLocalNode`: its identity and its declared type (`Type`). */
  datatype LocalNode = LocalNode(id: nat, localType: TypeRef)

  /** The IL local a load or store names: the local the emit context keeps for a compiler
      local node, or the method's context local (`context.ContextLocal`). */
  datatype LocalSlot = NodeLocal(node: LocalNode) | ContextLocal

  /** The instructions the nodes append themselves, and `Effect` for an instruction a child
      contributes, known only by how many values it pops and which types it pushes. */
  datatype Op =
    | Dup
    | Pop
    | Ldloc(slot: LocalSlot)
    | Stloc(slot: LocalSlot)
    | CallBeginInit(hookType: TypeRef)
    | UnboxAny(unboxTo: TypeRef)
    | Castclass(castTo: TypeRef)
    | Effect(pops: nat, pushes: seq<TypeRef>)

  /** `XamlXNodeEmitResult`: how many stack values the node consumed and, for a value
      node, the type of the value it leaves (`Type(n, t)`); none for `Void(n)`. */
  datatype EmitResult = EmitResult(consumed: nat, returnType: Option<TypeRef>)

  function Typed(consumed: nat, t: TypeRef): EmitResult { EmitResult(consumed, Some(t)) }
  function Void(consumed: nat): EmitResult { EmitResult(consumed, None) }

  /** The code a node or child contributes, with the result it reports. */
  datatype Block = Block(code: seq<Op>, result: EmitResult)

  /** A value child: its CLR type (`Value.Type.GetClrType()`) and the block
      `context.Emit(child, codeGen, expected)` contributes for each expected type, that is,
      the child's code followed by whatever conversion the context adds. */
  datatype ValueChild = ValueChild(clrType: TypeRef, emitAs: TypeRef -> Block)

  /** The parts of `XamlXEmitContext` the nodes consult. `isAssignableFrom` and
      `isValueType` stand for the type system's predicates, `parentStackVerified` for the
      outcome of `XamlXNeedsParentStackCache.Verify`. */
  datatype EmitContext = EmitContext(
    contextLocalType: TypeRef,
    supportInitialize: Option<TypeRef>,
    objectType: TypeRef,
    isAssignableFrom: (TypeRef, TypeRef) -> bool,
    isValueType: TypeRef -> bool,
    parentStackVerified: bool)

  // ---------------------------------------------------------------------------------------
  // The stack machine
  // ---------------------------------------------------------------------------------------

  function SlotType(ctx: EmitContext, slot: LocalSlot): TypeRef {
    match slot
    case NodeLocal(n) => n.localType
    case ContextLocal => ctx.contextLocalType
  }

  /** One instruction on a stack of value types; `None` when the stack underflows or a
      store or hook call meets a value of the wrong type. */
  function Step(ctx: EmitContext, op: Op, stack: seq<TypeRef>): Option<seq<TypeRef>> {
    match op
    case Dup => if |stack| > 0 then Some(stack + [stack[|stack| - 1]]) else None
    case Pop => if |stack| > 0 then Some(stack[..|stack| - 1]) else None
    case Ldloc(slot) => Some(stack + [SlotType(ctx, slot)])
    case Stloc(slot) =>
      if |stack| > 0 && stack[|stack| - 1] == SlotType(ctx, slot) then Some(stack[..|stack| - 1]) else None
    case CallBeginInit(hook) =>
      if |stack| > 0 && ctx.isAssignableFrom(hook, stack[|stack| - 1]) then Some(stack[..|stack| - 1]) else None
    case UnboxAny(t) => if |stack| > 0 then Some(stack[..|stack| - 1] + [t]) else None
    case Castclass(t) => if |stack| > 0 then Some(stack[..|stack| - 1] + [t]) else None
    case Effect(pops, pushes) => if |stack| >= pops then Some(stack[..|stack| - pops] + pushes) else None
  }

  function Run(ctx: EmitContext, code: seq<Op>, stack: seq<TypeRef>): Option<seq<TypeRef>>
    decreases |code|
  {
    if code == [] then Some(stack)
    else match Step(ctx, code[0], stack)
      case None => None
      case Some(next) => Run(ctx, code[1..], next)
  }

  /** Running two pieces of code one after the other is running their concatenation. */
  lemma {:induction false} RunAppend(ctx: EmitContext, a: seq<Op>, b: seq<Op>, stack: seq<TypeRef>)
    ensures Run(ctx, a + b, stack) ==
      match Run(ctx, a, stack)
      case None => None
      case Some(mid) => Run(ctx, b, mid)
    decreases |a|
  {
    if a != [] {
      assert (a + b)[0] == a[0];
      assert (a + b)[1..] == a[1..] + b;
      match Step(ctx, a[0], stack)
      case None =>
      case Some(next) => RunAppend(ctx, a[1..], b, next);
    } else {
      assert a + b == b;
    }
  }

  /** The code leaves one more value, of type `t`, on any stack. */
  ghost predicate Pushes(ctx: EmitContext, code: seq<Op>, t: TypeRef) {
    forall stack :: Run(ctx, code, stack) == Some(stack + [t])
  }

  /** The code leaves any stack as it found it. */
  ghost predicate Neutral(ctx: EmitContext, code: seq<Op>) {
    forall stack :: Run(ctx, code, stack) == Some(stack)
  }

  /** The code consumes one value of type `t` from the top of any stack. */
  ghost predicate ConsumesOne(ctx: EmitContext, code: seq<Op>, t: TypeRef) {
    forall stack :: Run(ctx, code, stack + [t]) == Some(stack)
  }

  // ---------------------------------------------------------------------------------------
  // The code each node contributes
  // ---------------------------------------------------------------------------------------

  /** `XamlXAstCompilerLocalNode.Emit`, lines 24-28: whatever the context, the node leaves
      one value of its declared type on top of the stack, and that is the type it reports. */
  function LocalRefBlock(local: LocalNode): (b: Block)
    ensures b.result == Typed(0, local.localType)
    ensures forall ctx, stack :: Run(ctx, b.code, stack) == Some(stack + [local.localType])
  {
    var code := [Ldloc(NodeLocal(local))];
    assert code[1..] == [];
    Block(code, Typed(0, local.localType))
  }

  /** `XamlXAstLocalInitializationNodeEmitter.Emit`, lines 49-55: the value, coerced to the
      local's type, comes first; the node adds `dup` and the store to its own local, and
      reports no consumption and the value's own return type. */
  function InitLocalBlock(value: ValueChild, local: LocalNode): (b: Block)
    ensures var rv := value.emitAs(local.localType);
      && rv.code <= b.code
      && b.code[|rv.code|..] == [Dup, Stloc(NodeLocal(local))]
      && b.result.consumed == 0
      && b.result.returnType == rv.result.returnType
  {
    var rv := value.emitAs(local.localType);
    Block(rv.code + [Dup, Stloc(NodeLocal(local))], EmitResult(0, rv.result.returnType))
  }

  /** Lines 67-70: the configured hook type exists and accepts the value's type. */
  predicate SupportsInitialize(ctx: EmitContext, t: TypeRef) {
    ctx.supportInitialize.Some? && ctx.isAssignableFrom(ctx.supportInitialize.value, t)
  }

  /** `XamlXValueNodeWithBeginInit.Emit`, lines 64-79: the wrapped value first, then
      `dup` and the hook call exactly when the hook applies; the node reports the wrapped
      value's own result. */
  function BeginInitBlock(ctx: EmitContext, value: ValueChild): (b: Block)
    ensures var res := value.emitAs(value.clrType);
      && res.code <= b.code
      && (SupportsInitialize(ctx, value.clrType) <==> |b.code| > |res.code|)
      && (SupportsInitialize(ctx, value.clrType) ==>
            b.code[|res.code|..] == [Dup, CallBeginInit(ctx.supportInitialize.value)])
      && b.result == res.result
  {
    var res := value.emitAs(value.clrType);
    if SupportsInitialize(ctx, value.clrType) then
      Block(res.code + [Dup, CallBeginInit(ctx.supportInitialize.value)], res.result)
    else res
  }

  /** `XamlXAstManipulationImperativeNode.Emit`, lines 92-98: the value to manipulate is
      discarded before the imperative child runs, so the node fails on an empty stack and
      otherwise behaves as the child over the stack below that value; it reports one
      consumed value. */
  function ManipulationImperativeBlock(imperative: Block): (b: Block)
    ensures b.result == Void(1)
    ensures forall ctx :: Run(ctx, b.code, []) == None
    ensures forall ctx, stack, target :: Run(ctx, b.code, stack + [target]) == Run(ctx, imperative.code, stack)
  {
    var code := [Pop] + imperative.code;
    assert code[0] == Pop && code[1..] == imperative.code;
    assert forall stack: seq<TypeRef>, target :: (stack + [target])[..|stack|] == stack;
    Block(code, Void(1))
  }

  /** `XamlXAstImperativeValueManipulation.Emit`, lines 124-129: the value at its own type,
      then the manipulation, reporting nothing consumed and no value. */
  function ValueManipulationBlock(value: ValueChild, manipulation: Block): (b: Block)
    ensures var v := value.emitAs(value.clrType).code;
      && v <= b.code
      && b.code[|v|..] == manipulation.code
      && b.result == Void(0)
  {
    Block(value.emitAs(value.clrType).code + manipulation.code, Void(0))
  }

  /** `XamlXAstContextLocalNode.Emit`, lines 140-144: `declared` is the node's `Type`. The
      node leaves the context local's type on the stack but reports its declared type. */
  function ContextLocalBlock(declared: TypeRef): (b: Block)
    ensures b.result == Typed(0, declared)
    ensures forall ctx, stack :: Run(ctx, b.code, stack) == Some(stack + [ctx.contextLocalType])
  {
    var code := [Ldloc(ContextLocal)];
    assert code[1..] == [];
    Block(code, Typed(0, declared))
  }

  /** Lines 167-170: the conversion to `t`, `unbox.any` exactly for a value type. Either
      way it replaces the value on top of a non-empty stack by one of type `t`. */
  function CastOp(ctx: EmitContext, t: TypeRef): (op: Op)
    ensures op == UnboxAny(t) <==> ctx.isValueType(t)
    ensures op == Castclass(t) <==> !ctx.isValueType(t)
    ensures forall stack :: |stack| > 0 ==> Step(ctx, op, stack) == Some(stack[..|stack| - 1] + [t])
  {
    if ctx.isValueType(t) then UnboxAny(t) else Castclass(t)
  }

  /** `XamlXAstRuntimeCastNode.Emit`, lines 163-172: the value coerced to `Object`, then
      the conversion to the cast-to type, which is the type reported. */
  function RuntimeCastBlock(ctx: EmitContext, value: ValueChild, castTo: TypeRef): (b: Block)
    ensures var v := value.emitAs(ctx.objectType).code;
      && v <= b.code
      && b.code[|v|..] == [CastOp(ctx, castTo)]
      && b.result == Typed(0, castTo)
  {
    Block(value.emitAs(ctx.objectType).code + [CastOp(ctx, castTo)], Typed(0, castTo))
  }

  /** `XamlXAstNeedsParentStackValueNode.Emit`, lines 183-189: when the check of line 185
      passes, exactly the inner value's block (code and result); when it throws, nothing. */
  function NeedsParentStackBlock(ctx: EmitContext, value: ValueChild): (b: Option<Block>)
    ensures b.Some? <==> ctx.parentStackVerified
    ensures b.Some? ==> b.value == value.emitAs(value.clrType)
  {
    if ctx.parentStackVerified then Some(value.emitAs(value.clrType)) else None
  }

  // ---------------------------------------------------------------------------------------
  // What each node's code does
  // ---------------------------------------------------------------------------------------

  /** The local-reference node only loads its own local and reports its declared type, so
      its report matches the value it leaves. */
  lemma LocalRefLoadsItsLocal(ctx: EmitContext, local: LocalNode)
    ensures LocalRefBlock(local).code == [Ldloc(NodeLocal(local))]
    ensures Pushes(ctx, LocalRefBlock(local).code, local.localType)
    ensures LocalRefBlock(local).result == Typed(0, local.localType)
  {
    forall stack ensures Run(ctx, LocalRefBlock(local).code, stack) == Some(stack + [local.localType]) {
      assert Run(ctx, [Ldloc(NodeLocal(local))][1..], stack + [local.localType]) == Some(stack + [local.localType]);
    }
  }

  /** Local initialization: the value coerced to the local's type, then `dup`, then the
      store. The stored copy has the local's type and one value of that type stays on the
      stack for the caller; the result reports count 0 and the value's own return type. */
  lemma InitLocalStoresACopy(ctx: EmitContext, value: ValueChild, local: LocalNode)
    requires Pushes(ctx, value.emitAs(local.localType).code, local.localType)
    ensures var b := InitLocalBlock(value, local);
      && b.code == value.emitAs(local.localType).code + [Dup, Stloc(NodeLocal(local))]
      && b.result == EmitResult(0, value.emitAs(local.localType).result.returnType)
      && Pushes(ctx, b.code, local.localType)
  {
    var t := local.localType;
    var rv := value.emitAs(t).code;
    forall stack ensures Run(ctx, rv + [Dup, Stloc(NodeLocal(local))], stack) == Some(stack + [t]) {
      RunAppend(ctx, rv, [Dup, Stloc(NodeLocal(local))], stack);
      assert Run(ctx, rv, stack) == Some(stack + [t]);
      var afterDup := stack + [t] + [t];
      assert Step(ctx, Dup, stack + [t]) == Some(afterDup);
      assert afterDup[..|afterDup| - 1] == stack + [t];
      assert Run(ctx, [Stloc(NodeLocal(local))], afterDup) == Some(stack + [t]);
    }
  }

  /** The begin-init node appends `dup` and the hook call exactly when the hook type is
      configured and accepts the value's type, always reports the wrapped value's result,
      and leaves the stack as the wrapped value alone does. */
  lemma BeginInitKeepsEffect(ctx: EmitContext, value: ValueChild)
    requires Pushes(ctx, value.emitAs(value.clrType).code, value.clrType)
    ensures var b := BeginInitBlock(ctx, value);
      var res := value.emitAs(value.clrType);
      && (SupportsInitialize(ctx, value.clrType) ==>
            b.code == res.code + [Dup, CallBeginInit(ctx.supportInitialize.value)])
      && (!SupportsInitialize(ctx, value.clrType) ==> b.code == res.code)
      && b.result == res.result
      && Pushes(ctx, b.code, value.clrType)
  {
    var t := value.clrType;
    var res := value.emitAs(t);
    if SupportsInitialize(ctx, t) {
      var hook := ctx.supportInitialize.value;
      forall stack ensures Run(ctx, res.code + [Dup, CallBeginInit(hook)], stack) == Some(stack + [t]) {
        RunAppend(ctx, res.code, [Dup, CallBeginInit(hook)], stack);
        assert Run(ctx, res.code, stack) == Some(stack + [t]);
        var afterDup := stack + [t] + [t];
        assert Step(ctx, Dup, stack + [t]) == Some(afterDup);
        assert afterDup[..|afterDup| - 1] == stack + [t];
        assert Run(ctx, [CallBeginInit(hook)], afterDup) == Some(stack + [t]);
      }
    }
  }

  /** Manipulation over an imperative node: `pop` first, then the imperative child; with a
      stack-neutral child the node consumes exactly the one ambient value, as `Void(1)`
      reports. */
  lemma ManipulationImperativeDiscardsTarget(ctx: EmitContext, imperative: Block, stack: seq<TypeRef>, target: TypeRef)
    requires Neutral(ctx, imperative.code)
    ensures var b := ManipulationImperativeBlock(imperative);
      && b.code[0] == Pop && b.code[1..] == imperative.code
      && b.result == Void(1)
      && Run(ctx, b.code, stack + [target]) == Some(stack)
  {
    var code := [Pop] + imperative.code;
    assert code[1..] == imperative.code;
    assert (stack + [target])[..|stack|] == stack;
    assert Step(ctx, Pop, stack + [target]) == Some(stack);
  }

  /** Value then manipulation: the value (at its own type) before the manipulation; a
      manipulation consuming that value leaves no residue, as `Void(0)` reports. */
  lemma ValueManipulationLeavesNothing(ctx: EmitContext, value: ValueChild, manipulation: Block)
    requires Pushes(ctx, value.emitAs(value.clrType).code, value.clrType)
    requires ConsumesOne(ctx, manipulation.code, value.clrType)
    ensures var b := ValueManipulationBlock(value, manipulation);
      && b.code == value.emitAs(value.clrType).code + manipulation.code
      && b.result == Void(0)
      && Neutral(ctx, b.code)
  {
    var v := value.emitAs(value.clrType).code;
    forall stack ensures Run(ctx, v + manipulation.code, stack) == Some(stack) {
      RunAppend(ctx, v, manipulation.code, stack);
    }
  }

  /** The context-local node loads the context local and reports its declared type; the
      report matches the value it leaves exactly when the declared type is the context
      local's type. */
  lemma ContextLocalLoadsContext(ctx: EmitContext, declared: TypeRef, stack: seq<TypeRef>)
    ensures var b := ContextLocalBlock(declared);
      && b.code == [Ldloc(ContextLocal)]
      && Run(ctx, b.code, stack) == Some(stack + [ctx.contextLocalType])
      && b.result == Typed(0, declared)
      && (Run(ctx, b.code, stack) == Some(stack + [declared]) <==> declared == ctx.contextLocalType)
  {
    assert Run(ctx, [Ldloc(ContextLocal)][1..], stack + [ctx.contextLocalType]) == Some(stack + [ctx.contextLocalType]);
    if Run(ctx, ContextLocalBlock(declared).code, stack) == Some(stack + [declared]) {
      assert (stack + [declared])[|stack|] == declared;
      assert (stack + [ctx.contextLocalType])[|stack|] == ctx.contextLocalType;
    }
  }

  /** Runtime cast: the value coerced to `Object`, then `unbox.any` for a value type and
      `castclass` otherwise; the value left has the cast-to type, which is the type
      reported. */
  lemma RuntimeCastYieldsTarget(ctx: EmitContext, value: ValueChild, castTo: TypeRef)
    requires Pushes(ctx, value.emitAs(ctx.objectType).code, ctx.objectType)
    ensures var b := RuntimeCastBlock(ctx, value, castTo);
      && (ctx.isValueType(castTo) ==> b.code == value.emitAs(ctx.objectType).code + [UnboxAny(castTo)])
      && (!ctx.isValueType(castTo) ==> b.code == value.emitAs(ctx.objectType).code + [Castclass(castTo)])
      && b.result == Typed(0, castTo)
      && Pushes(ctx, b.code, castTo)
  {
    var v := value.emitAs(ctx.objectType).code;
    forall stack ensures Run(ctx, v + [CastOp(ctx, castTo)], stack) == Some(stack + [castTo]) {
      RunAppend(ctx, v, [CastOp(ctx, castTo)], stack);
      var after := stack + [ctx.objectType];
      assert after[..|after| - 1] == stack;
      assert Run(ctx, [CastOp(ctx, castTo)], after) == Some(stack + [castTo]);
    }
  }

  /** `n` loads of a local. */
  function Loads(local: LocalNode, n: nat): seq<Op> {
    seq(n, _ => Ldloc(NodeLocal(local)))
  }

  function Copies(t: TypeRef, n: nat): seq<TypeRef> {
    seq(n, _ => t)
  }

  /** Evaluate once, use many times: initializing a local and then referencing it `n`
      times runs the value's code once and leaves `n + 1` values of the local's type. */
  lemma {:induction false} InitThenReferences(ctx: EmitContext, value: ValueChild, local: LocalNode, n: nat, stack: seq<TypeRef>)
    requires Pushes(ctx, value.emitAs(local.localType).code, local.localType)
    ensures Run(ctx, InitLocalBlock(value, local).code + Loads(local, n), stack) == Some(stack + Copies(local.localType, n + 1))
  {
    InitLocalStoresACopy(ctx, value, local);
    RunAppend(ctx, InitLocalBlock(value, local).code, Loads(local, n), stack);
    LoadsPush(ctx, local, n, stack + [local.localType]);
    assert stack + [local.localType] + Copies(local.localType, n) == stack + Copies(local.localType, n + 1);
  }

  lemma {:induction false} LoadsPush(ctx: EmitContext, local: LocalNode, n: nat, stack: seq<TypeRef>)
    ensures Run(ctx, Loads(local, n), stack) == Some(stack + Copies(local.localType, n))
  {
    if n > 0 {
      var t := local.localType;
      assert Loads(local, n) == Loads(local, n - 1) + [Ldloc(NodeLocal(local))];
      RunAppend(ctx, Loads(local, n - 1), [Ldloc(NodeLocal(local))], stack);
      LoadsPush(ctx, local, n - 1, stack);
      assert Run(ctx, [Ldloc(NodeLocal(local))], stack + Copies(t, n - 1)) == Some(stack + Copies(t, n - 1) + [t]);
      assert stack + Copies(t, n - 1) + [t] == stack + Copies(t, n);
    } else {
      assert stack + Copies(local.localType, 0) == stack;
    }
  }

  /** Begin-init around the initialization of a local from a new object of a type the hook
      accepts: construct, `dup`, store, `dup`, hook call, leaving exactly one value of that
      type on the stack. */
  lemma BeginInitOverInitLocal(ctx: EmitContext, local: LocalNode, stack: seq<TypeRef>)
    requires SupportsInitialize(ctx, local.localType)
    ensures var t := local.localType;
      var newObject := ValueChild(t, _ => Block([Effect(0, [t])], Typed(0, t)));
      var init := ValueChild(t, _ => InitLocalBlock(newObject, local));
      var b := BeginInitBlock(ctx, init);
      && b.code == [Effect(0, [t]), Dup, Stloc(NodeLocal(local)), Dup, CallBeginInit(ctx.supportInitialize.value)]
      && b.result == Typed(0, t)
      && Run(ctx, b.code, stack) == Some(stack + [t])
  {
    var t := local.localType;
    var newObject := ValueChild(t, _ => Block([Effect(0, [t])], Typed(0, t)));
    forall s ensures Run(ctx, [Effect(0, [t])], s) == Some(s + [t]) {
      assert s[..|s| - 0] == s;
    }
    InitLocalStoresACopy(ctx, newObject, local);
    var init := ValueChild(t, _ => InitLocalBlock(newObject, local));
    BeginInitKeepsEffect(ctx, init);
  }

  /** Initializing a local from a new object and then wrapping a reference to that local in
      begin-init: the reference adds a load, so two values of the local's type are left,
      one more than begin-init around the initialization itself leaves. */
  lemma BeginInitOverReferenceAfterInit(ctx: EmitContext, local: LocalNode, stack: seq<TypeRef>)
    requires SupportsInitialize(ctx, local.localType)
    ensures var t := local.localType;
      var newObject := ValueChild(t, _ => Block([Effect(0, [t])], Typed(0, t)));
      var reference := ValueChild(t, _ => LocalRefBlock(local));
      var code := InitLocalBlock(newObject, local).code + BeginInitBlock(ctx, reference).code;
      && code == [Effect(0, [t]), Dup, Stloc(NodeLocal(local)), Ldloc(NodeLocal(local)), Dup, CallBeginInit(ctx.supportInitialize.value)]
      && Run(ctx, code, stack) == Some(stack + [t, t])
  {
    var t := local.localType;
    var newObject := ValueChild(t, _ => Block([Effect(0, [t])], Typed(0, t)));
    forall s ensures Run(ctx, [Effect(0, [t])], s) == Some(s + [t]) {
      assert s[..|s| - 0] == s;
    }
    InitLocalStoresACopy(ctx, newObject, local);
    var reference := ValueChild(t, _ => LocalRefBlock(local));
    BeginInitKeepsEffect(ctx, reference);
    var init := InitLocalBlock(newObject, local).code;
    var wrap := BeginInitBlock(ctx, reference).code;
    RunAppend(ctx, init, wrap, stack);
    assert stack + [t] + [t] == stack + [t, t];
  }

  // ---------------------------------------------------------------------------------------
  // The emitting methods over the shared code buffer
  // ---------------------------------------------------------------------------------------

  /** The `IXamlXEmitter` the nodes append to, seen as the code it has collected. */
  class CodeGen {
    var code: seq<Op>

    constructor()
      ensures code == []
    {
      code := [];
    }

    method Emit(op: Op)
      modifies this
      ensures code == old(code) + [op]
    {
      code := code + [op];
    }

    /** `context.Emit(child, this, ...)`: the child's block is appended and its result
        returned. */
    method EmitBlock(b: Block) returns (r: EmitResult)
      modifies this
      ensures code == old(code) + b.code && r == b.result
    {
      code := code + b.code;
      r := b.result;
    }
  }

  method EmitLocalRef(g: CodeGen, local: LocalNode) returns (r: EmitResult)
    modifies g
    ensures g.code == old(g.code) + LocalRefBlock(local).code && r == LocalRefBlock(local).result
  {
    g.Emit(Ldloc(NodeLocal(local)));
    r := Typed(0, local.localType);
  }

  method EmitInitLocal(g: CodeGen, value: ValueChild, local: LocalNode) returns (r: EmitResult)
    modifies g
    ensures g.code == old(g.code) + InitLocalBlock(value, local).code && r == InitLocalBlock(value, local).result
  {
    var rv := g.EmitBlock(value.emitAs(local.localType));
    g.Emit(Dup);
    g.Emit(Stloc(NodeLocal(local)));
    r := EmitResult(0, rv.returnType);
  }

  method EmitBeginInit(ctx: EmitContext, g: CodeGen, value: ValueChild) returns (r: EmitResult)
    modifies g
    ensures g.code == old(g.code) + BeginInitBlock(ctx, value).code && r == BeginInitBlock(ctx, value).result
  {
    var res := g.EmitBlock(value.emitAs(value.clrType));
    var supportsInitialize := ctx.supportInitialize.Some? && ctx.isAssignableFrom(ctx.supportInitialize.value, value.clrType);
    if supportsInitialize {
      g.Emit(Dup);
      g.Emit(CallBeginInit(ctx.supportInitialize.value));
    }
    r := res;
  }

  method EmitManipulationImperative(g: CodeGen, imperative: Block) returns (r: EmitResult)
    modifies g
    ensures g.code == old(g.code) + ManipulationImperativeBlock(imperative).code
    ensures r == ManipulationImperativeBlock(imperative).result
  {
    g.Emit(Pop);
    var _ := g.EmitBlock(imperative);
    r := Void(1);
  }

  method EmitValueManipulation(g: CodeGen, value: ValueChild, manipulation: Block) returns (r: EmitResult)
    modifies g
    ensures g.code == old(g.code) + ValueManipulationBlock(value, manipulation).code
    ensures r == ValueManipulationBlock(value, manipulation).result
  {
    var _ := g.EmitBlock(value.emitAs(value.clrType));
    var _ := g.EmitBlock(manipulation);
    r := Void(0);
  }

  method EmitContextLocal(g: CodeGen, declared: TypeRef) returns (r: EmitResult)
    modifies g
    ensures g.code == old(g.code) + ContextLocalBlock(declared).code && r == ContextLocalBlock(declared).result
  {
    g.Emit(Ldloc(ContextLocal));
    r := Typed(0, declared);
  }

  method EmitRuntimeCast(ctx: EmitContext, g: CodeGen, value: ValueChild, castTo: TypeRef) returns (r: EmitResult)
    modifies g
    ensures g.code == old(g.code) + RuntimeCastBlock(ctx, value, castTo).code
    ensures r == RuntimeCastBlock(ctx, value, castTo).result
  {
    var _ := g.EmitBlock(value.emitAs(ctx.objectType));
    if ctx.isValueType(castTo) {
      g.Emit(UnboxAny(castTo));
    } else {
      g.Emit(Castclass(castTo));
    }
    r := Typed(0, castTo);
  }

  /** `None` when the parent-stack check throws; nothing is appended then. */
  method EmitNeedsParentStack(ctx: EmitContext, g: CodeGen, value: ValueChild) returns (r: Option<EmitResult>)
    modifies g
    ensures NeedsParentStackBlock(ctx, value).None? ==> r.None? && g.code == old(g.code)
    ensures NeedsParentStackBlock(ctx, value).Some? ==>
      && g.code == old(g.code) + NeedsParentStackBlock(ctx, value).value.code
      && r == Some(NeedsParentStackBlock(ctx, value).value.result)
  {
    if !ctx.parentStackVerified {
      return None;
    }
    var res := g.EmitBlock(value.emitAs(value.clrType));
    r := Some(res);
  }
}
