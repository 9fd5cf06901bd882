/** What the evaluator promises, stated over the functions of module
    Semantics. The fuel arithmetic in the statements counts the calls
    between the expression and the step described: Eval on an `if`
    consumes one unit and EvalIf one more before the test is evaluated. */
module Properties {
  import opened Ast
  import opened EnvStore
  import opened Semantics

  // ---------------------------------------------------------------------
  // Expressions

  /** Number, boolean, string and quoted literals evaluate to the value they
      carry, a primitive operator to itself, and the state is untouched. */
  lemma LiteralsEvaluateToThemselves(e: CExp, env: Env, st: State, prim: Prim, fuel: nat)
    requires fuel > 0
    requires e.NumExp? || e.BoolExp? || e.StrExp? || e.LitExp? || e.PrimOp?
    ensures var (r, st') := Eval(e, env, st, prim, fuel);
      st' == st &&
      (e.NumExp? ==> r == Ok(NumV(e.n))) &&
      (e.BoolExp? ==> r == Ok(BoolV(e.b))) &&
      (e.StrExp? ==> r == Ok(StrV(e.s))) &&
      (e.LitExp? ==> r == Ok(e.datum)) &&
      (e.PrimOp? ==> r == Ok(PrimV(e.op)))
  {
  }

  /** A variable evaluates to the current contents of the cell its name
      resolves to; a lookup failure and an address outside the store fail,
      and nothing changes. */
  lemma VarRefReadsCell(v: string, env: Env, st: State, prim: Prim, fuel: nat)
    requires fuel > 0
    ensures var (r, st') := Eval(VarRef(v), env, st, prim, fuel);
      var found := ApplyEnv(env, v, st);
      st' == st &&
      (found.Fail? ==> r == Fail(found.err)) &&
      (found == Ok(Missing) ==> r == Fail(TypeError)) &&
      (found.Ok? && found.value.At? ==>
        var a := found.value.n;
        if 0 <= a < |st.store| then r == Ok(st.store[a]) else r == Fail(IllegalAddress(a)))
  {
  }

  /** `if` takes the `then` branch for every test value except boolean
      false, in the state the test left behind. */
  lemma IfTruthiness(test: CExp, thn: CExp, alt: CExp, env: Env, st: State, prim: Prim, fuel: nat)
    requires fuel >= 2
    ensures var (t, st1) := Eval(test, env, st, prim, fuel - 2);
      var r := Eval(IfExp(test, thn, alt), env, st, prim, fuel);
      (t.Fail? ==> r == (Fail(t.err), st1)) &&
      (t.Ok? && t.value != BoolV(false) ==> r == Eval(thn, env, st1, prim, fuel - 2)) &&
      (t == Ok(BoolV(false)) ==> r == Eval(alt, env, st1, prim, fuel - 2))
  {
  }

  /** Zero, the empty string and the empty list are all true. */
  lemma {:induction false} FalsyOnlyFalse(thn: CExp, alt: CExp, env: Env, st: State, prim: Prim, fuel: nat)
    requires fuel >= 3
    ensures Eval(IfExp(NumExp(0), thn, alt), env, st, prim, fuel) == Eval(thn, env, st, prim, fuel - 2)
    ensures Eval(IfExp(StrExp(""), thn, alt), env, st, prim, fuel) == Eval(thn, env, st, prim, fuel - 2)
    ensures Eval(IfExp(LitExp(EmptyV), thn, alt), env, st, prim, fuel) == Eval(thn, env, st, prim, fuel - 2)
    ensures Eval(IfExp(BoolExp(false), thn, alt), env, st, prim, fuel) == Eval(alt, env, st, prim, fuel - 2)
  {
    IfTruthiness(NumExp(0), thn, alt, env, st, prim, fuel);
    IfTruthiness(StrExp(""), thn, alt, env, st, prim, fuel);
    IfTruthiness(LitExp(EmptyV), thn, alt, env, st, prim, fuel);
    IfTruthiness(BoolExp(false), thn, alt, env, st, prim, fuel);
  }

  /** A lambda becomes a closure over the current environment; its body is
      not evaluated and the state is untouched. */
  lemma LambdaCapturesEnv(params: seq<string>, body: seq<Exp>, env: Env, st: State, prim: Prim, fuel: nat)
    requires fuel > 0
    ensures Eval(ProcExp(params, body), env, st, prim, fuel) == (Ok(Closure(params, body, env)), st)
  {
  }

  /** A `set!` in an expression position is a failure. */
  lemma NestedSetFails(name: string, val: CExp, env: Env, st: State, prim: Prim, fuel: nat)
    requires fuel > 0
    ensures Eval(SetExp(name, val), env, st, prim, fuel) == (Fail(NestedSet), st)
  {
  }

  // ---------------------------------------------------------------------
  // Frames: let and closure application

  /** In a frame built over fresh cells holding `vals`, every name resolves
      at its first occurrence to its own value; a name with no value (more
      names than values) reads as a TypeError. */
  lemma {:induction false} FrameResolves(vars: seq<string>, vals: seq<Value>, outer: Env, st: State, i: nat)
    requires i < |vars| && IndexOf(vars, vars[i]) == i
    ensures var n := |st.store|;
      var st' := st.(store := st.store + vals);
      var frame := ExtEnv(vars, Range(n, n + |vals|), outer);
      EvalVarRef(frame, vars[i], st') == if i < |vals| then Ok(vals[i]) else Fail(TypeError)
  {
    var n := |st.store|;
    var addresses := Range(n, n + |vals|);
    var st' := st.(store := st.store + vals);
    assert ApplyEnv(ExtEnv(vars, addresses, outer), vars[i], st') == Ok(AddressAt(addresses, i));
    if i < |vals| {
      assert AddressAt(addresses, i) == At(n + i);
      assert ApplyStore(st'.store, n + i) == Ok(vals[i]);
    }
  }

  /** `let` evaluates every value in the enclosing environment, stopping at
      the first failure. Otherwise it grows the store by exactly the values,
      in order, and runs the body in a frame over the enclosing environment
      that binds the names to those fresh cells (FrameResolves says what
      each name then reads). */
  lemma {:induction false} LetBindsFreshCells(bindings: seq<Binding>, body: seq<Exp>, env: Env, st: State, prim: Prim, fuel: nat)
    requires fuel >= 2
    ensures var (vals, st1) := EvalRands(BindingVals(bindings), env, st, prim, fuel - 2);
      var r := Eval(LetExp(bindings, body), env, st, prim, fuel);
      (vals.Fail? ==> r == (Fail(vals.err), st1)) &&
      (vals.Ok? ==>
        var n := |st1.store|;
        var st2 := st1.(store := st1.store + vals.value);
        |vals.value| == |bindings| &&
        r == EvalSequence(body, ExtEnv(BindingVars(bindings), Range(n, n + |bindings|), env), st2, prim, fuel - 2))
  {
    var (vals, st1) := EvalRands(BindingVals(bindings), env, st, prim, fuel - 2);
    assert Eval(LetExp(bindings, body), env, st, prim, fuel) == EvalLet(bindings, body, env, st, prim, fuel - 1);
    if vals.Ok? {
      ExtendStoreValsIsConcat(st1.store, vals.value);
    }
  }

  /** Applying a closure allocates one fresh cell per argument and runs the
      body in a frame whose parent is the environment the closure captured;
      the caller's environment plays no part. Parameters without arguments
      read as a TypeError; extra arguments get cells no name reaches. */
  lemma {:induction false} ClosureCallUsesCapturedEnv(params: seq<string>, body: seq<Exp>, cenv: Env, args: seq<Value>, st: State, prim: Prim, fuel: nat)
    requires fuel >= 2
    ensures var n := |st.store|;
      var st1 := st.(store := st.store + args);
      var frame := ExtEnv(params, Range(n, n + |args|), cenv);
      ApplyProcedure(Closure(params, body, cenv), args, st, prim, fuel) == EvalSequence(body, frame, st1, prim, fuel - 2) &&
      |st1.store| == n + |args| &&
      forall i :: 0 <= i < |params| && IndexOf(params, params[i]) == i ==>
        EvalVarRef(frame, params[i], st1) == if i < |args| then Ok(args[i]) else Fail(TypeError)
  {
    ExtendStoreValsIsConcat(st.store, args);
    forall i | 0 <= i < |params| && IndexOf(params, params[i]) == i
      ensures EvalVarRef(ExtEnv(params, Range(|st.store|, |st.store| + |args|), cenv), params[i],
                         st.(store := st.store + args)) == if i < |args| then Ok(args[i]) else Fail(TypeError)
    {
      FrameResolves(params, args, cenv, st, i);
    }
  }

  /** A primitive operator is handed to the primitive library with the
      evaluated arguments; applying `undefined` raises a TypeError; any
      other non-closure value is a bad procedure. None touches the state. */
  lemma ApplyNonClosure(proc: Value, args: seq<Value>, st: State, prim: Prim, fuel: nat)
    requires fuel > 0
    requires !proc.Closure?
    ensures proc.PrimV? ==> ApplyProcedure(proc, args, st, prim, fuel) == (prim(proc.op, args), st)
    ensures proc == UndefinedV ==> ApplyProcedure(proc, args, st, prim, fuel) == (Fail(TypeError), st)
    ensures !proc.PrimV? && proc != UndefinedV ==> ApplyProcedure(proc, args, st, prim, fuel) == (Fail(BadProcedure(proc)), st)
  {
  }

  /** Operands are evaluated in order, each in `env` and in the state the
      previous one left; an empty list yields no values and changes
      nothing. The first failing operand ends the evaluation with its
      failure, in the state it left; otherwise the values are collected in
      operand order. */
  lemma RandsThread(e: CExp, es: seq<CExp>, env: Env, st: State, prim: Prim, fuel: nat)
    requires fuel >= 1
    ensures EvalRands([], env, st, prim, fuel) == (Ok([]), st)
    ensures var (v, st1) := Eval(e, env, st, prim, fuel - 1);
      var (vs, st2) := EvalRands(es, env, st1, prim, fuel - 1);
      var r := EvalRands([e] + es, env, st, prim, fuel);
      (v.Fail? ==> r == (Fail(v.err), st1)) &&
      (v.Ok? && vs.Fail? ==> r == (Fail(vs.err), st2)) &&
      (v.Ok? && vs.Ok? ==> r == (Ok([v.value] + vs.value), st2))
  {
    assert ([e] + es)[0] == e && ([e] + es)[1..] == es;
  }

  /** An application evaluates the operator, then the operands in the
      state the operator left. The operands are evaluated even when the
      operator failed (unless the host raised an exception), and the
      operator's failure is then reported, in the state the operands left
      behind. When both succeed, the procedure is applied to the operands'
      values in that state. */
  lemma ApplicationRule(rator: CExp, rands: seq<CExp>, env: Env, st: State, prim: Prim, fuel: nat)
    requires fuel >= 1
    ensures var (p, st1) := Eval(rator, env, st, prim, fuel - 1);
      var (args, st2) := EvalRands(rands, env, st1, prim, fuel - 1);
      var r := Eval(AppExp(rator, rands), env, st, prim, fuel);
      (p.Fail? && p.err.Aborts() ==> r == (Fail(p.err), st1)) &&
      (p.Fail? && !p.err.Aborts() && !(args.Fail? && args.err.Aborts()) ==> r == (Fail(p.err), st2)) &&
      (args.Fail? && args.err.Aborts() && !(p.Fail? && p.err.Aborts()) ==> r == (Fail(args.err), st2)) &&
      (p.Ok? && args.Fail? ==> r == (Fail(args.err), st2)) &&
      (p.Ok? && args.Ok? ==> r == ApplyProcedure(p.value, args.value, st2, prim, fuel - 1))
  {
  }

  // ---------------------------------------------------------------------
  // Sequences, definitions and assignments

  lemma EmptySequenceFails(env: Env, st: State, prim: Prim, fuel: nat)
    requires fuel > 0
    ensures EvalSequence([], env, st, prim, fuel) == (Fail(EmptyProgram), st)
    ensures EvalProgram([], st, prim, fuel) == (Fail(EmptyProgram), st)
  {
  }

  /** A definition evaluates its value in the global environment, whatever
      the environment of the sequence it appears in, puts the value in a new
      cell and appends the name with that cell's address to the global
      table; a trailing definition yields UndefinedV, otherwise the remaining
      forms run as a sequence in the global environment. */
  lemma DefineBindsGlobally(name: string, val: CExp, rest: seq<Exp>, env: Env, st: State, prim: Prim, fuel: nat)
    requires fuel >= 3
    ensures var (res, st1) := Eval(val, GlobalEnv, st, prim, fuel - 2);
      var r := EvalCExps(DefineExp(name, val), rest, env, st, prim, fuel);
      res.Ok? ==>
        var st3 := State(st1.store + [res.value], st1.gvars + [name], st1.gaddrs + [|st1.store|]);
        (rest == [] ==> r == (Ok(UndefinedV), st3)) &&
        (rest != [] ==> r == EvalSequence(rest, GlobalEnv, st3, prim, fuel - 1))
  {
  }

  /** A definition does not depend on the environment it appears in. */
  lemma DefineIgnoresEnv(name: string, val: CExp, rest: seq<Exp>, env1: Env, env2: Env, st: State, prim: Prim, fuel: nat)
    ensures EvalCExps(DefineExp(name, val), rest, env1, st, prim, fuel)
         == EvalCExps(DefineExp(name, val), rest, env2, st, prim, fuel)
  {
  }

  /** After a definition of a name that was unbound, the name resolves from
      the global environment to the cell holding the defined value. */
  lemma {:induction false} DefinedNameReadsValue(name: string, val: CExp, env: Env, st: State, prim: Prim, fuel: nat)
    requires fuel >= 3
    ensures var (res, st1) := Eval(val, GlobalEnv, st, prim, fuel - 2);
      var (r, st3) := EvalCExps(DefineExp(name, val), [], env, st, prim, fuel);
      res.Ok? && |st1.gvars| == |st1.gaddrs| && name !in st1.gvars ==>
        r == Ok(UndefinedV) && EvalVarRef(GlobalEnv, name, st3) == Ok(res.value)
  {
    var (res, st1) := Eval(val, GlobalEnv, st, prim, fuel - 2);
    if res.Ok? && |st1.gvars| == |st1.gaddrs| && name !in st1.gvars {
      var st2 := st1.(store := st1.store + [res.value]);
      AddBindingBindsFreshName(st2, name, |st1.store|);
    }
  }

  /** When the value of a definition fails, the name is still appended to
      the global table, bound to the newest cell that already existed (-1
      when the store is empty), and the failure is reported. A host
      exception stops the definition before that binding. */
  lemma DefineFailureStillBinds(name: string, val: CExp, rest: seq<Exp>, env: Env, st: State, prim: Prim, fuel: nat)
    requires fuel >= 3
    ensures var (res, st1) := Eval(val, GlobalEnv, st, prim, fuel - 2);
      var r := EvalCExps(DefineExp(name, val), rest, env, st, prim, fuel);
      (res.Fail? && !res.err.Aborts() ==>
        r == (Fail(res.err), State(st1.store, st1.gvars + [name], st1.gaddrs + [|st1.store| - 1]))) &&
      (res.Fail? && res.err.Aborts() ==> r == (Fail(res.err), st1))
  {
  }

  /** An expression form of a sequence: the last one's value is the value
      of the sequence; an earlier one that fails ends the sequence in the
      state it left; otherwise the remaining forms run in the same
      environment. */
  lemma PlainFormThreads(c: CExp, rest: seq<Exp>, env: Env, st: State, prim: Prim, fuel: nat)
    requires fuel >= 2 && !c.SetExp?
    ensures var (v, st1) := Eval(c, env, st, prim, fuel - 1);
      var r := EvalCExps(CExpForm(c), rest, env, st, prim, fuel);
      (rest == [] ==> r == (v, st1)) &&
      (rest != [] && v.Fail? ==> r == (Fail(v.err), st1)) &&
      (rest != [] && v.Ok? ==> r == EvalSequence(rest, env, st1, prim, fuel - 1))
  {
  }

  /** `set!` resolves the name before evaluating the value, evaluates the
      value even when the name is unbound, and reports the lookup failure
      first (unless the value raised a host exception); after a successful
      lookup the value's own failure is reported. When both succeed it
      writes the resolved cell (nothing, for a missing address or one
      outside the store); a trailing `set!` yields UndefinedV, otherwise the
      remaining forms run in the same environment. */
  lemma SetWritesThroughAddress(name: string, val: CExp, rest: seq<Exp>, env: Env, st: State, prim: Prim, fuel: nat)
    requires fuel >= 3
    ensures var found := ApplyEnv(env, name, st);
      var (v, st1) := Eval(val, env, st, prim, fuel - 2);
      var r := EvalCExps(CExpForm(SetExp(name, val)), rest, env, st, prim, fuel);
      (v.Fail? && v.err.Aborts() ==> r == (Fail(v.err), st1)) &&
      (found.Fail? && !(v.Fail? && v.err.Aborts()) ==> r == (Fail(found.err), st1)) &&
      (found.Ok? && v.Fail? ==> r == (Fail(v.err), st1)) &&
      (found.Ok? && v.Ok? ==>
        var st2 := if found.value.At? then st1.(store := SetStore(st1.store, found.value.n, v.value)) else st1;
        (rest == [] ==> r == (Ok(UndefinedV), st2)) &&
        (rest != [] ==> r == EvalSequence(rest, env, st2, prim, fuel - 1)))
  {
  }

  // ---------------------------------------------------------------------
  // Bindings never change; cells do

  /** Whatever a program does, every name that resolved before it ran
      resolves afterwards, in every environment, to the same address. */
  lemma BindingsSurviveEvaluation(forms: seq<Exp>, st: State, prim: Prim, fuel: nat, env: Env, w: string)
    requires |st.gvars| == |st.gaddrs|
    requires ApplyEnv(env, w, st).Ok?
    ensures ApplyEnv(env, w, EvalProgram(forms, st, prim, fuel).1) == ApplyEnv(env, w, st)
  {
    LookupStableUnderGrowth(env, w, st, EvalProgram(forms, st, prim, fuel).1);
  }

  /** Aliasing: when `set!` assigns a name in one environment, every name
      that resolved to the same cell in any other environment (a sibling
      closure's frame, say) reads the assigned value afterwards. */
  lemma {:induction false} AssignmentVisibleThroughAlias(name: string, val: CExp, env: Env, other: Env, w: string, st: State, prim: Prim, fuel: nat)
    requires fuel >= 3
    requires |st.gvars| == |st.gaddrs|
    requires ApplyEnv(env, name, st) == ApplyEnv(other, w, st)
    requires ApplyEnv(env, name, st).Ok? && ApplyEnv(env, name, st).value.At?
    requires 0 <= ApplyEnv(env, name, st).value.n < |st.store|
    ensures var (v, _) := Eval(val, env, st, prim, fuel - 2);
      var (r, st') := EvalCExps(CExpForm(SetExp(name, val)), [], env, st, prim, fuel);
      v.Ok? ==> r == Ok(UndefinedV) && EvalVarRef(other, w, st') == Ok(v.value)
  {
    var (v, st1) := Eval(val, env, st, prim, fuel - 2);
    if v.Ok? {
      var a := ApplyEnv(env, name, st).value.n;
      SetWritesThroughAddress(name, val, [], env, st, prim, fuel);
      var st' := st1.(store := SetStore(st1.store, a, v.value));
      LookupStableUnderGrowth(other, w, st, st');
    }
  }
}
