/** Whole programs run from a fresh session, evaluated by the verifier.
    Longer runs are split into one lemma per procedure call or top-level
    form; each states the exact fuel its step receives in the run. */
module Examples {
  import opened Ast
  import opened EnvStore
  import opened Semantics
  import opened Properties

  const Fresh := State([], [], [])

  /** A program whose first form defines a name to a value that evaluates
      without touching the state continues, three steps later, with the
      rest of the program in the state that holds the new binding. */
  lemma ProgramStartsWithDefine(name: string, val: CExp, v: Value, rest: seq<Exp>, st: State, prim: Prim, fuel: nat)
    requires fuel >= 4 && rest != []
    requires Eval(val, GlobalEnv, st, prim, fuel - 3) == (Ok(v), st)
    ensures EvalProgram([DefineExp(name, val)] + rest, st, prim, fuel)
      == EvalCExps(rest[0], rest[1..], GlobalEnv, State(st.store + [v], st.gvars + [name], st.gaddrs + [|st.store|]), prim, fuel - 3)
  {
    var forms := [DefineExp(name, val)] + rest;
    assert forms[0] == DefineExp(name, val) && forms[1..] == rest;
    assert EvalProgram(forms, st, prim, fuel) == EvalCExps(forms[0], rest, GlobalEnv, st, prim, fuel - 1);
    assert EvalCExps(forms[0], rest, GlobalEnv, st, prim, fuel - 1) == EvalDefineExps(name, val, rest, st, prim, fuel - 2);
  }

  /** Redefining a name appends a second entry, but lookups keep finding
      the first: (define x 1) (define x 2) x evaluates to 1. */
  lemma RedefinitionKeepsFirst(prim: Prim)
    ensures EvalProgram([DefineExp("x", NumExp(1)), DefineExp("x", NumExp(2)), CExpForm(VarRef("x"))], Fresh, prim, 20).0
      == Ok(NumV(1))
  {
  }

  /** (if 0 "a" "b") evaluates to "a". */
  lemma ZeroIsTrue(prim: Prim)
    ensures EvalProgram([CExpForm(IfExp(NumExp(0), StrExp("a"), StrExp("b")))], Fresh, prim, 10).0 == Ok(StrV("a"))
  {
  }

  /** A definition whose value fails still binds its name, to the newest
      existing cell: after (define x 5), the program (define y z) fails with
      z unbound, and a later program reading y gets 5, the value of x. */
  lemma FailedDefinitionAliasesOlderCell(prim: Prim)
    ensures var (_, st1) := EvalProgram([DefineExp("x", NumExp(5))], Fresh, prim, 10);
      var (r2, st2) := EvalProgram([DefineExp("y", VarRef("z"))], st1, prim, 10);
      r2 == Fail(UnboundVariable("z")) &&
      EvalProgram([CExpForm(VarRef("y"))], st2, prim, 10).0 == Ok(NumV(5))
  {
    var st1 := State([NumV(5)], ["x"], [0]);
    var st2 := State([NumV(5)], ["x", "y"], [0, 0]);
    assert EvalProgram([DefineExp("x", NumExp(5))], Fresh, prim, 10) == (Ok(UndefinedV), st1) by {
      assert [] + [NumV(5)] == [NumV(5)] && [] + ["x"] == ["x"] && [] + [0] == [0];
    }
    assert EvalProgram([DefineExp("y", VarRef("z"))], st1, prim, 10) == (Fail(UnboundVariable("z")), st2) by {
      assert ["x"] + ["y"] == ["x", "y"] && [0] + [0] == [0, 0];
    }
    assert EvalProgram([CExpForm(VarRef("y"))], st2, prim, 10).0 == Ok(NumV(5));
  }

  // ---------------------------------------------------------------------
  // (define f (lambda () (g))) (define g (lambda () 1)) (f)

  const BodyF := [CExpForm(AppExp(VarRef("g"), []))]
  const BodyG := [CExpForm(NumExp(1))]
  const ForwardDefined := State([Closure([], BodyF, GlobalEnv), Closure([], BodyG, GlobalEnv)], ["f", "g"], [0, 1])

  lemma ForwardCallG(prim: Prim)
    ensures Eval(AppExp(VarRef("g"), []), ExtEnv([], Range(2, 2), GlobalEnv), ForwardDefined, prim, 19).0 == Ok(NumV(1))
  {
    assert Range(2, 2) == [];
  }

  lemma ForwardCallF(prim: Prim)
    ensures Eval(AppExp(VarRef("f"), []), GlobalEnv, ForwardDefined, prim, 24).0 == Ok(NumV(1))
  {
    ForwardCallG(prim);
  }

  lemma ForwardDefineG(prim: Prim)
    ensures EvalCExps(DefineExp("g", ProcExp([], BodyG)), [CExpForm(AppExp(VarRef("f"), []))], GlobalEnv,
                      State([Closure([], BodyF, GlobalEnv)], ["f"], [0]), prim, 27).0 == Ok(NumV(1))
  {
    ForwardCallF(prim);
    assert [Closure([], BodyF, GlobalEnv)] + [Closure([], BodyG, GlobalEnv)] == ForwardDefined.store;
    assert ["f"] + ["g"] == ForwardDefined.gvars && [0] + [1] == ForwardDefined.gaddrs;
    assert [CExpForm(AppExp(VarRef("f"), []))][1..] == [];
  }

  /** A procedure may refer to a name defined after it, since the name is
      looked up when the procedure runs: the program above evaluates to 1. */
  lemma ForwardReferenceResolves(prim: Prim)
    ensures EvalProgram([DefineExp("f", ProcExp([], BodyF)),
                         DefineExp("g", ProcExp([], BodyG)),
                         CExpForm(AppExp(VarRef("f"), []))], Fresh, prim, 30).0
      == Ok(NumV(1))
  {
    var rest := [DefineExp("g", ProcExp([], BodyG)), CExpForm(AppExp(VarRef("f"), []))];
    ProgramStartsWithDefine("f", ProcExp([], BodyF), Closure([], BodyF, GlobalEnv), rest, Fresh, prim, 30);
    assert [DefineExp("f", ProcExp([], BodyF))] + rest == [DefineExp("f", ProcExp([], BodyF)),
      DefineExp("g", ProcExp([], BodyG)), CExpForm(AppExp(VarRef("f"), []))];
    assert rest[1..] == [CExpForm(AppExp(VarRef("f"), []))];
    assert State(Fresh.store + [Closure([], BodyF, GlobalEnv)], Fresh.gvars + ["f"], Fresh.gaddrs + [0])
        == State([Closure([], BodyF, GlobalEnv)], ["f"], [0]);
    ForwardDefineG(prim);
  }

  // ---------------------------------------------------------------------
  // (define x 1) (define f (lambda () x)) (let ((x 2)) (f))

  const BodyX := [CExpForm(VarRef("x"))]
  const ScopeDefined := State([NumV(1), Closure([], BodyX, GlobalEnv)], ["x", "f"], [0, 1])
  const LetCallF := LetExp([Binding("x", NumExp(2))], [CExpForm(AppExp(VarRef("f"), []))])

  const ScopeCalling := ScopeDefined.(store := ScopeDefined.store + [NumV(2)])

  lemma ScopeCallF(prim: Prim)
    ensures ApplyProcedure(Closure([], BodyX, GlobalEnv), [], ScopeCalling, prim, 19).0 == Ok(NumV(1))
  {
    ClosureCallUsesCapturedEnv([], BodyX, GlobalEnv, [], ScopeCalling, prim, 19);
    assert Range(3, 3) == [];
    assert ScopeCalling.(store := ScopeCalling.store + []) == ScopeCalling;
  }

  lemma ScopeLetBody(prim: Prim)
    ensures EvalSequence([CExpForm(AppExp(VarRef("f"), []))], ExtEnv(["x"], Range(2, 3), GlobalEnv), ScopeCalling, prim, 22).0
      == Ok(NumV(1))
  {
    ScopeCallF(prim);
    assert Range(2, 3) == [2];
    assert ScopeCalling.store == [NumV(1), Closure([], BodyX, GlobalEnv), NumV(2)];
  }

  lemma ScopeLet(prim: Prim)
    ensures Eval(LetCallF, GlobalEnv, ScopeDefined, prim, 24).0 == Ok(NumV(1))
  {
    var bindings := [Binding("x", NumExp(2))];
    assert [NumExp(2)][1..] == [] && [NumV(2)] + [] == [NumV(2)];
    assert EvalRands([NumExp(2)], GlobalEnv, ScopeDefined, prim, 22) == (Ok([NumV(2)]), ScopeDefined);
    assert BindingVals(bindings) == [NumExp(2)] && BindingVars(bindings) == ["x"];
    assert |ScopeDefined.store| == 2;
    assert Eval(LetCallF, GlobalEnv, ScopeDefined, prim, 24)
        == EvalSequence([CExpForm(AppExp(VarRef("f"), []))], ExtEnv(["x"], Range(2, 3), GlobalEnv), ScopeCalling, prim, 22);
    ScopeLetBody(prim);
  }

  lemma ScopeDefineF(prim: Prim)
    ensures EvalCExps(DefineExp("f", ProcExp([], BodyX)), [CExpForm(LetCallF)], GlobalEnv,
                      State([NumV(1)], ["x"], [0]), prim, 27).0 == Ok(NumV(1))
  {
    ScopeLet(prim);
    assert [NumV(1)] + [Closure([], BodyX, GlobalEnv)] == ScopeDefined.store;
    assert ["x"] + ["f"] == ScopeDefined.gvars && [0] + [1] == ScopeDefined.gaddrs;
    assert [CExpForm(LetCallF)][1..] == [];
  }

  /** The free variables of a closure resolve where it was created, not
      where it is called: the program above evaluates to 1. */
  lemma LexicalScoping(prim: Prim)
    ensures EvalProgram([DefineExp("x", NumExp(1)),
                         DefineExp("f", ProcExp([], BodyX)),
                         CExpForm(LetCallF)], Fresh, prim, 30).0
      == Ok(NumV(1))
  {
    var rest := [DefineExp("f", ProcExp([], BodyX)), CExpForm(LetCallF)];
    ProgramStartsWithDefine("x", NumExp(1), NumV(1), rest, Fresh, prim, 30);
    assert [DefineExp("x", NumExp(1))] + rest == [DefineExp("x", NumExp(1)), DefineExp("f", ProcExp([], BodyX)), CExpForm(LetCallF)];
    assert rest[1..] == [CExpForm(LetCallF)];
    assert State(Fresh.store + [NumV(1)], Fresh.gvars + ["x"], Fresh.gaddrs + [0]) == State([NumV(1)], ["x"], [0]);
    ScopeDefineF(prim);
  }

  // ---------------------------------------------------------------------
  // (let ((n 0)) ((lambda () (set! n 7))) ((lambda () n)))

  const Setter := AppExp(ProcExp([], [CExpForm(SetExp("n", NumExp(7)))]), [])
  const Getter := AppExp(ProcExp([], [CExpForm(VarRef("n"))]), [])
  const SharedFrame := ExtEnv(["n"], Range(0, 1), GlobalEnv)

  const SetterProc := Closure([], [CExpForm(SetExp("n", NumExp(7)))], SharedFrame)
  const GetterProc := Closure([], [CExpForm(VarRef("n"))], SharedFrame)

  lemma SiblingSetterCall(prim: Prim)
    ensures ApplyProcedure(SetterProc, [], State([NumV(0)], [], []), prim, 23) == (Ok(UndefinedV), State([NumV(7)], [], []))
  {
    var s0 := State([NumV(0)], [], []);
    var inner := ExtEnv([], [], SharedFrame);
    ClosureCallUsesCapturedEnv([], [CExpForm(SetExp("n", NumExp(7)))], SharedFrame, [], s0, prim, 23);
    assert Range(1, 1) == [] && Range(0, 1) == [0];
    assert s0.(store := s0.store + []) == s0;
    assert ApplyEnv(inner, "n", s0) == Ok(At(0));
    assert EvalSequence([CExpForm(SetExp("n", NumExp(7)))], inner, s0, prim, 21)
        == EvalSetExps("n", NumExp(7), [], inner, s0, prim, 19);
    assert SetStore([NumV(0)], 0, NumV(7)) == [NumV(7)];
  }

  lemma SiblingSetter(prim: Prim)
    ensures Eval(Setter, SharedFrame, State([NumV(0)], [], []), prim, 24) == (Ok(UndefinedV), State([NumV(7)], [], []))
  {
    SiblingSetterCall(prim);
  }

  lemma SiblingGetterCall(prim: Prim)
    ensures ApplyProcedure(GetterProc, [], State([NumV(7)], [], []), prim, 21).0 == Ok(NumV(7))
  {
    ClosureCallUsesCapturedEnv([], [CExpForm(VarRef("n"))], SharedFrame, [], State([NumV(7)], [], []), prim, 21);
    assert Range(1, 1) == [] && Range(0, 1) == [0];
    assert [NumV(7)] + [] == [NumV(7)];
  }

  lemma SiblingGetter(prim: Prim)
    ensures Eval(Getter, SharedFrame, State([NumV(7)], [], []), prim, 22).0 == Ok(NumV(7))
  {
    SiblingGetterCall(prim);
  }

  lemma SiblingBody(prim: Prim)
    ensures EvalSequence([CExpForm(Setter), CExpForm(Getter)], SharedFrame, State([NumV(0)], [], []), prim, 26).0 == Ok(NumV(7))
  {
    SiblingSetter(prim);
    SiblingGetter(prim);
    assert [CExpForm(Setter), CExpForm(Getter)][1..] == [CExpForm(Getter)];
  }

  const SiblingLet := LetExp([Binding("n", NumExp(0))], [CExpForm(Setter), CExpForm(Getter)])

  lemma SiblingLetStep(prim: Prim)
    ensures Eval(SiblingLet, GlobalEnv, Fresh, prim, 28).0 == Ok(NumV(7))
  {
    var bindings := [Binding("n", NumExp(0))];
    assert [NumExp(0)][1..] == [] && [NumV(0)] + [] == [NumV(0)];
    assert EvalRands([NumExp(0)], GlobalEnv, Fresh, prim, 26) == (Ok([NumV(0)]), Fresh);
    assert BindingVals(bindings) == [NumExp(0)] && BindingVars(bindings) == ["n"];
    assert Eval(SiblingLet, GlobalEnv, Fresh, prim, 28)
        == EvalSequence([CExpForm(Setter), CExpForm(Getter)], SharedFrame, State([NumV(0)], [], []), prim, 26);
    SiblingBody(prim);
  }

  /** Two closures created in one `let` share its cell: the second reads
      what the first assigned, so the program above evaluates to 7. */
  lemma SiblingClosuresShareCells(prim: Prim)
    ensures EvalProgram([CExpForm(SiblingLet)], Fresh, prim, 30).0 == Ok(NumV(7))
  {
    SiblingLetStep(prim);
  }

  // ---------------------------------------------------------------------
  // (define x 5) (define y (lambda (z) (set! x (+ x z)) x)) (y 3)

  const Plus := AppExp(PrimOp("+"), [VarRef("x"), VarRef("z")])
  const BodyY := [CExpForm(SetExp("x", Plus)), CExpForm(VarRef("x"))]
  const ClosureY := Closure(["z"], BodyY, GlobalEnv)
  const FrameZ := ExtEnv(["z"], Range(2, 3), GlobalEnv)
  const CallState := State([NumV(5), ClosureY, NumV(3)], ["x", "y"], [0, 1])
  const AfterCall := State([NumV(8), ClosureY, NumV(3)], ["x", "y"], [0, 1])

  /** The primitive library adds numbers under "+". */
  ghost predicate Adds(prim: Prim) {
    forall a: int, b: int :: prim("+", [NumV(a), NumV(b)]) == Ok(NumV(a + b))
  }

  const DefinedY := State([NumV(5), ClosureY], ["x", "y"], [0, 1])

  lemma DurableAdd(prim: Prim)
    requires Adds(prim)
    ensures Eval(Plus, FrameZ, CallState, prim, 18) == (Ok(NumV(8)), CallState)
  {
    assert Range(2, 3) == [2];
    assert [VarRef("x"), VarRef("z")][1..] == [VarRef("z")] && [VarRef("z")][1..] == [];
    assert [NumV(5)] + ([NumV(3)] + []) == [NumV(5), NumV(3)];
    assert EvalRands([VarRef("x"), VarRef("z")], FrameZ, CallState, prim, 17) == (Ok([NumV(5), NumV(3)]), CallState);
    assert prim("+", [NumV(5), NumV(3)]) == Ok(NumV(8));
  }

  lemma DurableCallY(prim: Prim)
    requires Adds(prim)
    ensures ApplyProcedure(ClosureY, [NumV(3)], DefinedY, prim, 23) == (Ok(NumV(8)), AfterCall)
  {
    ClosureCallUsesCapturedEnv(["z"], BodyY, GlobalEnv, [NumV(3)], DefinedY, prim, 23);
    assert DefinedY.(store := DefinedY.store + [NumV(3)]) == CallState;
    assert Range(2, 3) == [2];
    assert ApplyEnv(FrameZ, "x", CallState) == Ok(At(0));
    assert EvalSequence(BodyY, FrameZ, CallState, prim, 21)
        == EvalSetExps("x", Plus, [CExpForm(VarRef("x"))], FrameZ, CallState, prim, 19);
    DurableAdd(prim);
    assert SetStore(CallState.store, 0, NumV(8)) == AfterCall.store;
    assert BodyY[1..] == [CExpForm(VarRef("x"))];
  }

  lemma DurableCallSite(prim: Prim)
    requires Adds(prim)
    ensures Eval(AppExp(VarRef("y"), [NumExp(3)]), GlobalEnv, DefinedY, prim, 24) == (Ok(NumV(8)), AfterCall)
  {
    assert [NumExp(3)][1..] == [] && [NumV(3)] + [] == [NumV(3)];
    assert EvalRands([NumExp(3)], GlobalEnv, DefinedY, prim, 23) == (Ok([NumV(3)]), DefinedY);
    assert Eval(VarRef("y"), GlobalEnv, DefinedY, prim, 23) == (Ok(ClosureY), DefinedY);
    DurableCallY(prim);
  }

  lemma DurableDefineY(prim: Prim)
    requires Adds(prim)
    ensures EvalCExps(DefineExp("y", ProcExp(["z"], BodyY)), [CExpForm(AppExp(VarRef("y"), [NumExp(3)]))], GlobalEnv,
                      State([NumV(5)], ["x"], [0]), prim, 27) == (Ok(NumV(8)), AfterCall)
  {
    DurableCallSite(prim);
    assert [NumV(5)] + [ClosureY] == DefinedY.store;
    assert ["x"] + ["y"] == DefinedY.gvars && [0] + [1] == DefinedY.gaddrs;
    assert [CExpForm(AppExp(VarRef("y"), [NumExp(3)]))][1..] == [];
  }

  /** Assignment through a closure changes the global cell for good: with
      "+" adding numbers, the program above evaluates to 8, and a later
      program reading x gets 8. */
  lemma GlobalMutationIsDurable(prim: Prim)
    requires Adds(prim)
    ensures var (r, st) := EvalProgram([DefineExp("x", NumExp(5)),
                                        DefineExp("y", ProcExp(["z"], BodyY)),
                                        CExpForm(AppExp(VarRef("y"), [NumExp(3)]))], Fresh, prim, 30);
      r == Ok(NumV(8)) && EvalProgram([CExpForm(VarRef("x"))], st, prim, 30).0 == Ok(NumV(8))
  {
    var rest := [DefineExp("y", ProcExp(["z"], BodyY)), CExpForm(AppExp(VarRef("y"), [NumExp(3)]))];
    ProgramStartsWithDefine("x", NumExp(5), NumV(5), rest, Fresh, prim, 30);
    assert [DefineExp("x", NumExp(5))] + rest == [DefineExp("x", NumExp(5)), DefineExp("y", ProcExp(["z"], BodyY)),
      CExpForm(AppExp(VarRef("y"), [NumExp(3)]))];
    assert rest[1..] == [CExpForm(AppExp(VarRef("y"), [NumExp(3)]))];
    assert State(Fresh.store + [NumV(5)], Fresh.gvars + ["x"], Fresh.gaddrs + [0]) == State([NumV(5)], ["x"], [0]);
    DurableDefineY(prim);
    assert EvalProgram([CExpForm(VarRef("x"))], AfterCall, prim, 30).0 == Ok(NumV(8));
  }

  // ---------------------------------------------------------------------
  // Arity and assignment quirks

  lemma MissingArgumentCall(prim: Prim)
    ensures ApplyProcedure(Closure(["a", "b"], [CExpForm(VarRef("b"))], GlobalEnv), [NumV(1)], Fresh, prim, 17).0
      == Fail(TypeError)
  {
    ClosureCallUsesCapturedEnv(["a", "b"], [CExpForm(VarRef("b"))], GlobalEnv, [NumV(1)], Fresh, prim, 17);
    assert IndexOf(["a", "b"], "b") == 1;
    assert EvalVarRef(ExtEnv(["a", "b"], Range(0, 1), GlobalEnv), "b", State([NumV(1)], [], [])) == Fail(TypeError);
    assert Fresh.(store := Fresh.store + [NumV(1)]) == State([NumV(1)], [], []);
  }

  /** Arity is not checked: ((lambda (a b) b) 1) reaches a parameter that
      has no cell, and reading it raises a TypeError. */
  lemma MissingArgumentRaises(prim: Prim)
    ensures EvalProgram([CExpForm(AppExp(ProcExp(["a", "b"], [CExpForm(VarRef("b"))]), [NumExp(1)]))], Fresh, prim, 20).0
      == Fail(TypeError)
  {
    MissingArgumentCall(prim);
  }

  lemma UnboundAssignmentLet(prim: Prim)
    ensures Eval(LetExp([Binding("a", NumExp(1))], [CExpForm(VarRef("a"))]), GlobalEnv, Fresh, prim, 17)
      == (Ok(NumV(1)), State([NumV(1)], [], []))
  {
    var bindings := [Binding("a", NumExp(1))];
    assert [NumExp(1)][1..] == [] && [NumV(1)] + [] == [NumV(1)];
    assert EvalRands([NumExp(1)], GlobalEnv, Fresh, prim, 15) == (Ok([NumV(1)]), Fresh);
    assert BindingVals(bindings) == [NumExp(1)] && BindingVars(bindings) == ["a"];
    LetBindsFreshCells(bindings, [CExpForm(VarRef("a"))], GlobalEnv, Fresh, prim, 17);
    var frame := ExtEnv(["a"], Range(0, 1), GlobalEnv);
    var st1 := State([NumV(1)], [], []);
    assert Range(0, 1) == [0];
    assert Fresh.(store := Fresh.store + [NumV(1)]) == st1;
    assert EvalVarRef(frame, "a", st1) == Ok(NumV(1));
    assert EvalSequence([CExpForm(VarRef("a"))], frame, st1, prim, 15) == Eval(VarRef("a"), frame, st1, prim, 13);
  }

  /** `set!` of an unbound name fails, but only after its value has been
      evaluated: the `let` inside it still allocates a cell. */
  lemma UnboundAssignmentStillEvaluates(prim: Prim)
    ensures EvalProgram([CExpForm(SetExp("nope", LetExp([Binding("a", NumExp(1))], [CExpForm(VarRef("a"))])))], Fresh, prim, 20)
      == (Fail(UnboundVariable("nope")), State([NumV(1)], [], []))
  {
    UnboundAssignmentLet(prim);
  }

  // ---------------------------------------------------------------------
  // With x bound to 0: (((lambda () (set! x 1))) 5)

  const XZero := State([NumV(0)], ["x"], [0])
  const XOne := State([NumV(1)], ["x"], [0])
  const AssignX := AppExp(ProcExp([], [CExpForm(SetExp("x", NumExp(1)))]), [])

  lemma AssignXCall(prim: Prim)
    ensures ApplyProcedure(Closure([], [CExpForm(SetExp("x", NumExp(1)))], GlobalEnv), [], XZero, prim, 26)
      == (Ok(UndefinedV), XOne)
  {
    ClosureCallUsesCapturedEnv([], [CExpForm(SetExp("x", NumExp(1)))], GlobalEnv, [], XZero, prim, 26);
    var inner := ExtEnv([], [], GlobalEnv);
    assert Range(1, 1) == [];
    assert XZero.(store := XZero.store + []) == XZero;
    assert ApplyEnv(inner, "x", XZero) == Ok(At(0));
    assert SetStore([NumV(0)], 0, NumV(1)) == [NumV(1)];
  }

  /** An assignment yields `undefined`, and applying it raises a TypeError
      (after the assignment and the operands have taken effect). */
  lemma UndefinedIsNotCallable(prim: Prim)
    ensures EvalProgram([CExpForm(AppExp(AssignX, [NumExp(5)]))], XZero, prim, 30) == (Fail(TypeError), XOne)
  {
    AssignXCall(prim);
    assert Eval(AssignX, GlobalEnv, XZero, prim, 27) == (Ok(UndefinedV), XOne);
    assert [NumExp(5)][1..] == [] && [NumV(5)] + [] == [NumV(5)];
    assert EvalRands([NumExp(5)], GlobalEnv, XOne, prim, 27) == (Ok([NumV(5)]), XOne);
  }
}
