/** The instruction stream of one method body and the label-resolution rule of
    src/XamlX.Cecil/CecilEmitter.cs:72-84, stated as functions over values.

    Instructions are Cecil objects compared by reference. The emitter only ever appends to a
    body, so an appended instruction is named by its index (`At`), and the `nop` placeholder
    that a fresh label holds, which is never appended, by the label's number (`Placeholder`).
    Distinct objects therefore have distinct names. */
module Instructions {
  import opened Metadata

  /** Mono.Cecil's operand kinds; `CreateI` chooses its operand by them. */
  datatype OperandType =
    | InlineNone | InlineBrTarget | ShortInlineBrTarget | InlineSwitch
    | InlineField | InlineMethod | InlineType | InlineTok | InlineSig | InlineString
    | InlineI | ShortInlineI | InlineI8 | InlineR | ShortInlineR
    | InlineVar | ShortInlineVar | InlineArg | ShortInlineArg | InlinePhi

  /** A Cecil opcode: its name and the kind of operand it takes. */
  datatype OpCode = OpCode(name: string, operandType: OperandType)

  /** The identity of an instruction object. */
  datatype InstrRef = At(index: nat) | Placeholder(labelId: nat)

  /** A parameter of the method being emitted: the implicit `this` or a declared one. */
  datatype ParamRef = ThisParam | Param(index: nat)

  /** What `Instruction.Create` stores as the operand. Floating-point values are opaque bits. */
  datatype Operand =
    | NoOperand
    | IntOperand(intValue: int)
    | LongOperand(longValue: int)
    | FloatOperand(floatBits: nat)
    | DoubleOperand(doubleBits: nat)
    | StringOperand(text: string)
    | FieldOperand(fieldRef: MemberRef)
    | MethodOperand(methodRef: MemberRef)
    | TypeOperand(typeRef: TypeRef)
    | ParamOperand(param: ParamRef)
    | VarOperand(variable: nat)
    | InstrOperand(target: InstrRef)

  datatype Instruction = Instruction(code: OpCode, operand: Operand)

  /** The operand is a reference to one of the `staged` instructions. */
  predicate RefersTo(op: Operand, staged: set<InstrRef>) {
    op.InstrOperand? && op.target in staged
  }

  /** The body after the scan of lines 77-79, done for every staged instruction at once:
      an operand naming a staged instruction now names `to`; nothing else changes. */
  function Rebind(body: seq<Instruction>, staged: set<InstrRef>, to: InstrRef): (r: seq<Instruction>)
    ensures |r| == |body|
    ensures forall j :: 0 <= j < |body| && RefersTo(body[j].operand, staged) ==>
      r[j] == Instruction(body[j].code, InstrOperand(to))
    ensures forall j :: 0 <= j < |body| && !RefersTo(body[j].operand, staged) ==> r[j] == body[j]
  {
    if body == [] then []
    else
      var last := body[|body| - 1];
      Rebind(body[..|body| - 1], staged, to)
        + [if RefersTo(last.operand, staged) then Instruction(last.code, InstrOperand(to)) else last]
  }

  /** Scanning once for `s1` and then for `s2` is scanning once for both. This is why the
      per-label loop of lines 75-81 may be read as one rewrite. */
  lemma RebindCompose(body: seq<Instruction>, s1: set<InstrRef>, s2: set<InstrRef>, to: InstrRef)
    ensures Rebind(Rebind(body, s1, to), s2, to) == Rebind(body, s1 + s2, to)
  {
    var a := Rebind(Rebind(body, s1, to), s2, to);
    var b := Rebind(body, s1 + s2, to);
    forall j | 0 <= j < |body| ensures a[j] == b[j] {
      if RefersTo(body[j].operand, s1) {
        assert Rebind(body, s1, to)[j].operand == InstrOperand(to);
      }
    }
  }

  /** Retargeting the new instruction at itself changes nothing, so whether `to` is among
      the staged instructions does not matter. */
  lemma RebindIgnoresTarget(body: seq<Instruction>, s1: set<InstrRef>, s2: set<InstrRef>, to: InstrRef)
    requires s1 - {to} == s2 - {to}
    ensures Rebind(body, s1, to) == Rebind(body, s2, to)
  {
    var a := Rebind(body, s1, to);
    var b := Rebind(body, s2, to);
    forall j | 0 <= j < |body| ensures a[j] == b[j] {
      var op := body[j].operand;
      if op.InstrOperand? && op.target != to {
        assert op.target in s1 - {to} <==> op.target in s2 - {to};
      }
    }
  }

  /** The label-related state of one emitter: the method body, each label's current
      instruction (`CecilLabel.Instruction`, by label number) and the labels staged by
      `MarkLabel` (`_markedLabels`). */
  datatype LabelState = LabelState(body: seq<Instruction>, targets: seq<InstrRef>, marked: seq<nat>)

  predicate StagedExist(st: LabelState) {
    forall l :: l in st.marked ==> l < |st.targets|
  }

  /** `r` names an appended instruction or the placeholder of an existing label. */
  predicate Refers(st: LabelState, r: InstrRef) {
    match r
    case At(k) => k < |st.body|
    case Placeholder(l) => l < |st.targets|
  }

  /** The invariant of the label machinery: staged labels exist, every label holds its own
      placeholder or an appended instruction, and every instruction operand names an
      appended instruction or an existing placeholder. */
  predicate Consistent(st: LabelState) {
    && StagedExist(st)
    && (forall l :: 0 <= l < |st.targets| ==>
          st.targets[l] == Placeholder(l) || (st.targets[l].At? && st.targets[l].index < |st.body|))
    && (forall j :: 0 <= j < |st.body| && st.body[j].operand.InstrOperand? ==>
          Refers(st, st.body[j].operand.target))
  }

  /** The instructions the staged labels currently hold. */
  function StagedTargets(targets: seq<InstrRef>, marked: seq<nat>): (s: set<InstrRef>)
    requires forall l :: l in marked ==> l < |targets|
    ensures forall l :: l in marked ==> targets[l] in s
    ensures forall r :: r in s ==> exists l :: l in marked && targets[l] == r
  {
    set l | l in marked :: targets[l]
  }

  /** Every staged label now holds `to` (line 80); the others keep their instruction. */
  function BindTargets(targets: seq<InstrRef>, marked: seq<nat>, to: InstrRef): (r: seq<InstrRef>)
    ensures |r| == |targets|
    ensures forall l :: 0 <= l < |targets| && l in marked ==> r[l] == to
    ensures forall l :: 0 <= l < |targets| && l !in marked ==> r[l] == targets[l]
  {
    seq(|targets|, l requires 0 <= l < |targets| => if l in marked then to else targets[l])
  }

  /** `Emit(Instruction i)`, lines 72-84: append `i`, retarget every operand that names a
      staged label's instruction at `i`, bind the staged labels to `i` and unstage them. */
  function AppendStep(st: LabelState, i: Instruction): (r: LabelState)
    requires StagedExist(st)
    ensures |r.body| == |st.body| + 1 && |r.targets| == |st.targets| && r.marked == []
    ensures forall j :: 0 <= j < |st.body| ==> r.body[j].code == st.body[j].code
    ensures r.body[|st.body|].code == i.code
    ensures forall l :: l in st.marked ==> r.targets[l] == At(|st.body|)
    ensures forall l :: 0 <= l < |st.targets| && l !in st.marked ==> r.targets[l] == st.targets[l]
  {
    var n := |st.body|;
    LabelState(Rebind(st.body + [i], StagedTargets(st.targets, st.marked), At(n)),
               BindTargets(st.targets, st.marked, At(n)), [])
  }

  /** `MarkLabel`, lines 162-166: the label is staged and nothing is appended. */
  function MarkStep(st: LabelState, l: nat): (r: LabelState)
    requires l < |st.targets|
    ensures r.body == st.body && r.targets == st.targets && r.marked == st.marked + [l]
  {
    st.(marked := st.marked + [l])
  }

  /** `DefineLabel`, lines 149 and 160: a new label holding its own fresh placeholder. */
  function DefineStep(st: LabelState): (r: LabelState)
    ensures r.body == st.body && r.marked == st.marked
    ensures r.targets == st.targets + [Placeholder(|st.targets|)]
  {
    st.(targets := st.targets + [Placeholder(|st.targets|)])
  }

  /** After an append, every operand that named a staged label's instruction names the new
      instruction, operands that named nothing staged are as they were, and no operand
      names a staged placeholder any more. */
  lemma AppendRetargets(st: LabelState, i: Instruction)
    requires Consistent(st)
    ensures var r := AppendStep(st, i);
      var staged := StagedTargets(st.targets, st.marked);
      && (forall j :: 0 <= j < |st.body| && RefersTo(st.body[j].operand, staged) ==>
            r.body[j] == Instruction(st.body[j].code, InstrOperand(At(|st.body|))))
      && (forall j :: 0 <= j < |st.body| && !RefersTo(st.body[j].operand, staged) ==>
            r.body[j] == st.body[j])
      && (RefersTo(i.operand, staged) ==> r.body[|st.body|] == Instruction(i.code, InstrOperand(At(|st.body|))))
      && (!RefersTo(i.operand, staged) ==> r.body[|st.body|] == i)
      && (forall j :: 0 <= j < |r.body| ==> !RefersTo(r.body[j].operand, staged - {At(|st.body|)}))
  {
    var n := |st.body|;
    var staged := StagedTargets(st.targets, st.marked);
    var r := AppendStep(st, i);
    var b := st.body + [i];
    assert r.body == Rebind(b, staged, At(n));
    forall j | 0 <= j < |r.body| ensures !RefersTo(r.body[j].operand, staged - {At(n)}) {
      if RefersTo(b[j].operand, staged) {
        assert r.body[j].operand == InstrOperand(At(n));
      } else {
        assert r.body[j] == b[j];
      }
    }
  }

  /** Appending keeps the label machinery consistent, provided the new instruction's
      operand names something that exists. */
  lemma AppendPreservesConsistent(st: LabelState, i: Instruction)
    requires Consistent(st)
    requires i.operand.InstrOperand? ==> Refers(st, i.operand.target)
    ensures Consistent(AppendStep(st, i))
  {
    var n := |st.body|;
    var r := AppendStep(st, i);
    var b := st.body + [i];
    var staged := StagedTargets(st.targets, st.marked);
    assert r.body == Rebind(b, staged, At(n));
    forall j | 0 <= j < |r.body| && r.body[j].operand.InstrOperand?
      ensures Refers(r, r.body[j].operand.target)
    {
      if RefersTo(b[j].operand, staged) {
        assert r.body[j].operand.target == At(n);
      } else {
        assert r.body[j] == b[j];
        if j < n {
          assert st.body[j] == b[j];
        }
      }
    }
  }

  lemma MarkPreservesConsistent(st: LabelState, l: nat)
    requires Consistent(st) && l < |st.targets|
    ensures Consistent(MarkStep(st, l))
  {
  }

  lemma DefinePreservesConsistent(st: LabelState)
    requires Consistent(st)
    ensures Consistent(DefineStep(st))
    ensures DefineStep(st).targets[|st.targets|] !in set j | 0 <= j < |st.body| && st.body[j].operand.InstrOperand? :: st.body[j].operand.target
  {
  }

  // ---------------------------------------------------------------------------------------
  // An independent reference: resolution by position, after the fact.
  //
  // A run of the emitter is a sequence of events. The reference reads off the whole run
  // where each label was marked, and resolves a branch to label `l` to the position of the
  // first instruction appended after `l`'s mark. The scanning emitter must agree with it.
  // ---------------------------------------------------------------------------------------

  datatype Event =
    | DefineLabel
    | MarkLabel(labelId: nat)
    | EmitPlain(code: OpCode, operand: Operand)
    | EmitBranch(code: OpCode, labelId: nat)

  predicate IsEmit(e: Event) {
    e.EmitPlain? || e.EmitBranch?
  }

  /** Number of instructions appended by a run. */
  function Emits(evs: seq<Event>): nat {
    if evs == [] then 0
    else Emits(evs[..|evs| - 1]) + (if IsEmit(evs[|evs| - 1]) then 1 else 0)
  }

  /** Number of labels defined by a run. */
  function Defines(evs: seq<Event>): nat {
    if evs == [] then 0
    else Defines(evs[..|evs| - 1]) + (if evs[|evs| - 1].DefineLabel? then 1 else 0)
  }

  /** How many instructions had been appended when label `l` was first marked. */
  function MarkedAt(evs: seq<Event>, l: nat): Option<nat> {
    if evs == [] then None
    else
      var prefix := evs[..|evs| - 1];
      if MarkedAt(prefix, l).Some? then MarkedAt(prefix, l)
      else if evs[|evs| - 1] == MarkLabel(l) then Some(Emits(prefix))
      else None
  }

  /** Runs the reference speaks about: a label is used only after it is defined and marked
      at most once, and only branches carry instruction operands. */
  predicate WellFormed(evs: seq<Event>) {
    evs == [] ||
    var prefix := evs[..|evs| - 1];
    && WellFormed(prefix)
    && match evs[|evs| - 1]
       case DefineLabel => true
       case MarkLabel(l) => l < Defines(prefix) && MarkedAt(prefix, l).None?
       case EmitPlain(_, op) => !op.InstrOperand?
       case EmitBranch(_, l) => l < Defines(prefix)
  }

  /** One event applied to the emitter's label state. A branch takes the label's current
      instruction as operand (line 169). */
  function Step(st: LabelState, e: Event): LabelState
    requires StagedExist(st)
    requires e.MarkLabel? || e.EmitBranch? ==> e.labelId < |st.targets|
  {
    match e
    case DefineLabel => DefineStep(st)
    case MarkLabel(l) => MarkStep(st, l)
    case EmitPlain(c, op) => AppendStep(st, Instruction(c, op))
    case EmitBranch(c, l) => AppendStep(st, Instruction(c, InstrOperand(st.targets[l])))
  }

  /** The state of an emitter that started empty and went through `evs`. */
  function Replay(evs: seq<Event>): (st: LabelState)
    requires WellFormed(evs)
    ensures |st.body| == Emits(evs) && |st.targets| == Defines(evs) && StagedExist(st)
  {
    if evs == [] then LabelState([], [], [])
    else Step(Replay(evs[..|evs| - 1]), evs[|evs| - 1])
  }

  /** Where the reference resolves label `l`: the instruction appended right after its mark,
      or its placeholder if it was never marked or nothing was appended after the mark. */
  function Resolution(evs: seq<Event>, l: nat): InstrRef {
    match MarkedAt(evs, l)
    case Some(m) => if m < Emits(evs) then At(m) else Placeholder(l)
    case None => Placeholder(l)
  }

  /** The event that appended the `p`-th instruction. */
  function EmitAt(evs: seq<Event>, p: nat): (e: Event)
    requires p < Emits(evs)
    ensures IsEmit(e)
  {
    var prefix := evs[..|evs| - 1];
    if IsEmit(evs[|evs| - 1]) && p == Emits(prefix) then evs[|evs| - 1]
    else EmitAt(prefix, p)
  }

  /** The `p`-th instruction as the reference sees it at the end of the run. */
  function Expected(evs: seq<Event>, p: nat): Instruction
    requires p < Emits(evs)
  {
    var e := EmitAt(evs, p);
    if e.EmitPlain? then Instruction(e.code, e.operand)
    else Instruction(e.code, InstrOperand(Resolution(evs, e.labelId)))
  }

  lemma {:induction false} MarkedAtBounds(evs: seq<Event>, l: nat)
    requires WellFormed(evs)
    ensures MarkedAt(evs, l).Some? ==> MarkedAt(evs, l).value <= Emits(evs) && l < Defines(evs)
  {
    if evs != [] {
      MarkedAtBounds(evs[..|evs| - 1], l);
    }
  }

  lemma {:induction false} EmitAtBounds(evs: seq<Event>, p: nat)
    requires WellFormed(evs) && p < Emits(evs)
    ensures EmitAt(evs, p).EmitPlain? ==> !EmitAt(evs, p).operand.InstrOperand?
    ensures EmitAt(evs, p).EmitBranch? ==> EmitAt(evs, p).labelId < Defines(evs)
  {
    var prefix := evs[..|evs| - 1];
    if !(IsEmit(evs[|evs| - 1]) && p == Emits(prefix)) {
      EmitAtBounds(prefix, p);
    }
  }

  /** The emitter state agrees with the reference after the run `evs`. */
  predicate Tracks(evs: seq<Event>, st: LabelState) {
    && |st.body| == Emits(evs)
    && |st.targets| == Defines(evs)
    && (forall l :: 0 <= l < |st.targets| ==> st.targets[l] == Resolution(evs, l))
    && (forall l :: l in st.marked ==> l < |st.targets| && MarkedAt(evs, l) == Some(Emits(evs)))
    && (forall l :: 0 <= l < |st.targets| && MarkedAt(evs, l) == Some(Emits(evs)) ==> l in st.marked)
    && (forall p :: 0 <= p < |st.body| ==> st.body[p] == Expected(evs, p))
  }

  lemma DefineTracks(evs: seq<Event>, st: LabelState)
    requires WellFormed(evs + [DefineLabel]) && Tracks(evs, st) && StagedExist(st)
    ensures Tracks(evs + [DefineLabel], Step(st, DefineLabel))
  {
    var evs' := evs + [DefineLabel];
    assert evs'[..|evs'| - 1] == evs;
    var st' := Step(st, DefineLabel);
    MarkedAtBounds(evs, |st.targets|);
    forall l | 0 <= l < |st'.targets| ensures st'.targets[l] == Resolution(evs', l) {
      assert MarkedAt(evs', l) == MarkedAt(evs, l);
    }
    forall p | 0 <= p < |st'.body| ensures st'.body[p] == Expected(evs', p) {
      assert EmitAt(evs', p) == EmitAt(evs, p);
      EmitAtBounds(evs, p);
      var e := EmitAt(evs, p);
      if e.EmitBranch? {
        assert MarkedAt(evs', e.labelId) == MarkedAt(evs, e.labelId);
      }
    }
    forall l | 0 <= l < |st'.targets| && MarkedAt(evs', l) == Some(Emits(evs'))
      ensures l in st'.marked
    {
      assert MarkedAt(evs', l) == MarkedAt(evs, l);
    }
  }

  lemma MarkTracks(evs: seq<Event>, l0: nat, st: LabelState)
    requires WellFormed(evs + [MarkLabel(l0)]) && Tracks(evs, st) && StagedExist(st)
    ensures l0 < |st.targets|
    ensures Tracks(evs + [MarkLabel(l0)], Step(st, MarkLabel(l0)))
  {
    var evs' := evs + [MarkLabel(l0)];
    assert evs'[..|evs'| - 1] == evs;
    var st' := Step(st, MarkLabel(l0));
    forall l | 0 <= l < |st'.targets| ensures st'.targets[l] == Resolution(evs', l) {
    }
    forall p | 0 <= p < |st'.body| ensures st'.body[p] == Expected(evs', p) {
      assert EmitAt(evs', p) == EmitAt(evs, p);
      EmitAtBounds(evs, p);
    }
  }

  /** While the emitter tracks the reference, a staged label still holds its own
      placeholder, so a branch operand is retargeted exactly when its label is staged. */
  lemma StagedArePlaceholders(evs: seq<Event>, st: LabelState)
    requires Tracks(evs, st)
    ensures forall m :: m in st.marked ==> st.targets[m] == Placeholder(m)
    ensures forall l :: 0 <= l < |st.targets| ==>
      (RefersTo(InstrOperand(st.targets[l]), StagedTargets(st.targets, st.marked)) <==> l in st.marked)
  {
    forall m | m in st.marked ensures st.targets[m] == Placeholder(m) {
      assert Resolution(evs, m) == Placeholder(m);
    }
  }

  /** Appending an instruction binds exactly the staged labels to it and marks nothing. */
  lemma EmitResolutions(evs: seq<Event>, e: Event, st: LabelState)
    requires IsEmit(e) && WellFormed(evs) && Tracks(evs, st)
    ensures forall l :: 0 <= l < |st.targets| ==> MarkedAt(evs + [e], l) == MarkedAt(evs, l)
    ensures forall l :: 0 <= l < |st.targets| ==> MarkedAt(evs + [e], l) != Some(Emits(evs + [e]))
    ensures forall l :: 0 <= l < |st.targets| ==>
      Resolution(evs + [e], l) == if l in st.marked then At(Emits(evs)) else Resolution(evs, l)
  {
    var evs' := evs + [e];
    assert evs'[..|evs'| - 1] == evs;
    forall l | 0 <= l < |st.targets|
      ensures MarkedAt(evs', l) == MarkedAt(evs, l)
      ensures MarkedAt(evs', l) != Some(Emits(evs'))
      ensures Resolution(evs', l) == if l in st.marked then At(Emits(evs)) else Resolution(evs, l)
    {
      MarkedAtBounds(evs, l);
    }
  }

  /** The appended instruction's operand, before rebinding, is the reference's operand as of
      the run so far. */
  lemma EmitTracks(evs: seq<Event>, e: Event, st: LabelState)
    requires IsEmit(e) && WellFormed(evs + [e]) && Tracks(evs, st) && StagedExist(st)
    ensures e.EmitBranch? ==> e.labelId < |st.targets|
    ensures Tracks(evs + [e], Step(st, e))
  {
    var evs' := evs + [e];
    assert evs'[..|evs'| - 1] == evs;
    var n := Emits(evs);
    var st' := Step(st, e);
    var staged := StagedTargets(st.targets, st.marked);
    StagedArePlaceholders(evs, st);
    EmitResolutions(evs, e, st);
    var i := if e.EmitPlain? then Instruction(e.code, e.operand)
             else Instruction(e.code, InstrOperand(st.targets[e.labelId]));
    var b := st.body + [i];
    assert st'.body == Rebind(b, staged, At(n));
    forall p | 0 <= p < |st'.body| ensures st'.body[p] == Expected(evs', p) {
      var ev := if p < n then EmitAt(evs, p) else e;
      assert EmitAt(evs', p) == ev;
      if p < n {
        EmitAtBounds(evs, p);
        assert b[p] == Expected(evs, p);
      }
      if ev.EmitPlain? {
        assert !RefersTo(b[p].operand, staged);
      } else {
        assert b[p] == Instruction(ev.code, InstrOperand(st.targets[ev.labelId]));
      }
    }
  }

  lemma StepTracks(evs: seq<Event>, e: Event, st: LabelState)
    requires WellFormed(evs + [e]) && Tracks(evs, st) && StagedExist(st)
    ensures e.MarkLabel? || e.EmitBranch? ==> e.labelId < |st.targets|
    ensures Tracks(evs + [e], Step(st, e))
  {
    match e
    case DefineLabel => DefineTracks(evs, st);
    case MarkLabel(l) => MarkTracks(evs, l, st);
    case EmitPlain(_, _) => EmitTracks(evs, e, st);
    case EmitBranch(_, _) => EmitTracks(evs, e, st);
  }

  lemma {:induction false} ReplayTracks(evs: seq<Event>)
    requires WellFormed(evs)
    ensures Tracks(evs, Replay(evs))
  {
    if evs != [] {
      var prefix := evs[..|evs| - 1];
      ReplayTracks(prefix);
      assert evs == prefix + [evs[|evs| - 1]];
      StepTracks(prefix, evs[|evs| - 1], Replay(prefix));
    }
  }

  /** The scanning emitter agrees with resolution by position: at the end of any well-formed
      run, the `p`-th instruction is what the run appended there, a branch pointing at the
      instruction appended right after its label's mark, whether the branch came before the
      mark (a forward branch retargeted by the scan) or after it (a backward branch); a branch
      to a label never bound still points at that label's placeholder. */
  lemma ReplayResolvesBranches(evs: seq<Event>, p: nat)
    requires WellFormed(evs) && p < Emits(evs)
    ensures |Replay(evs).body| == Emits(evs)
    ensures Replay(evs).body[p] == Expected(evs, p)
  {
    ReplayTracks(evs);
  }

  /** A label marked at position `m`, with an instruction appended afterwards, holds that
      instruction at the end of the run; a label not yet bound holds its placeholder. */
  lemma ReplayBindsLabels(evs: seq<Event>, l: nat)
    requires WellFormed(evs) && l < Defines(evs)
    ensures Replay(evs).targets[l] == Resolution(evs, l)
    ensures Replay(evs).targets[l].Placeholder? ==> Replay(evs).targets[l] == Placeholder(l)
  {
    ReplayTracks(evs);
  }
}
