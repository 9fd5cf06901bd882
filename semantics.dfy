/** The evaluator of L21 as state-passing functions: each takes the session
    state and returns the result together with the new state, performing
    the store and global-environment updates in the order the interpreter
    performs them. Every function takes a `fuel` bound that one recursive
    call consumes; running out is reported as OutOfFuel, which stands for
    the host's recursion limit. The session class in module Session runs
    the same steps in place and is proved to agree with these functions. */
module Semantics {
  import opened Ast
  import opened EnvStore

  /** The session state only grows: the store never shrinks, and the
      global lists are only ever appended to, in step with each other. */
  predicate Grows(a: State, b: State) {
    |a.store| <= |b.store| &&
    a.gvars <= b.gvars && a.gaddrs <= b.gaddrs &&
    |b.gvars| - |a.gvars| == |b.gaddrs| - |a.gaddrs|
  }

  /** Every value except boolean false counts as true. */
  predicate IsTrueValue(x: Value) {
    x != BoolV(false)
  }

  function EvalProc(params: seq<string>, body: seq<Exp>, env: Env): Value {
    Closure(params, body, env)
  }

  /** Reads the cell a variable resolves to. A missing address (a parameter
      without an argument) is passed on as the host's `undefined`, and
      reading a cell through it raises a TypeError. */
  function EvalVarRef(env: Env, v: string, st: State): Result<Value> {
    match ApplyEnv(env, v, st)
    case Fail(f) => Fail(f)
    case Ok(At(address)) => ApplyStore(st.store, address)
    case Ok(Missing) => Fail(TypeError)
  }

  /** Writes a cell through a resolved address; a missing address fails the
      store's range test and so writes nothing. */
  function SetThrough(store: seq<Value>, address: Addr, val: Value): seq<Value> {
    match address
    case At(a) => SetStore(store, a, val)
    case Missing => store
  }

  function Eval(e: CExp, env: Env, st: State, prim: Prim, fuel: nat): (r: (Result<Value>, State))
    decreases fuel
    ensures Grows(st, r.1)
  {
    if fuel == 0 then (Fail(OutOfFuel), st)
    else match e
      case NumExp(n) => (Ok(NumV(n)), st)
      case BoolExp(b) => (Ok(BoolV(b)), st)
      case StrExp(s) => (Ok(StrV(s)), st)
      case PrimOp(op) => (Ok(PrimV(op)), st)
      case VarRef(v) => (EvalVarRef(env, v, st), st)
      case LitExp(d) => (Ok(d), st)
      case IfExp(test, thn, alt) => EvalIf(test, thn, alt, env, st, prim, fuel - 1)
      case ProcExp(params, body) => (Ok(EvalProc(params, body, env)), st)
      case LetExp(bindings, body) => EvalLet(bindings, body, env, st, prim, fuel - 1)
      case AppExp(rator, rands) =>
        // Both the operator and the operands are evaluated before either
        // result is inspected; only a host exception stops that early.
        var (proc, st1) := Eval(rator, env, st, prim, fuel - 1);
        if proc.Fail? && proc.err.Aborts() then (Fail(proc.err), st1)
        else
          var (args, st2) := EvalRands(rands, env, st1, prim, fuel - 1);
          if args.Fail? && args.err.Aborts() then (Fail(args.err), st2)
          else if proc.Fail? then (Fail(proc.err), st2)
          else if args.Fail? then (Fail(args.err), st2)
          else ApplyProcedure(proc.value, args.value, st2, prim, fuel - 1)
      case SetExp(_, _) => (Fail(NestedSet), st)
  }

  function EvalIf(test: CExp, thn: CExp, alt: CExp, env: Env, st: State, prim: Prim, fuel: nat): (r: (Result<Value>, State))
    decreases fuel
    ensures Grows(st, r.1)
  {
    if fuel == 0 then (Fail(OutOfFuel), st)
    else
      var (t, st1) := Eval(test, env, st, prim, fuel - 1);
      if t.Fail? then (Fail(t.err), st1)
      else if IsTrueValue(t.value) then Eval(thn, env, st1, prim, fuel - 1)
      else Eval(alt, env, st1, prim, fuel - 1)
  }

  /** Evaluates the operands left to right, stopping at the first failure. */
  function EvalRands(es: seq<CExp>, env: Env, st: State, prim: Prim, fuel: nat): (r: (Result<seq<Value>>, State))
    decreases fuel
    ensures Grows(st, r.1)
    ensures r.0.Ok? ==> |r.0.value| == |es|
  {
    if fuel == 0 then (Fail(OutOfFuel), st)
    else if es == [] then (Ok([]), st)
    else
      var (v, st1) := Eval(es[0], env, st, prim, fuel - 1);
      if v.Fail? then (Fail(v.err), st1)
      else
        var (vs, st2) := EvalRands(es[1..], env, st1, prim, fuel - 1);
        if vs.Fail? then (Fail(vs.err), st2)
        else (Ok([v.value] + vs.value), st2)
  }

  /** Dispatches on the operator value. The interpreter's type tests read
      the value's tag, which the host cannot do on `undefined` (the value a
      definition or an assignment yields): applying it raises a TypeError. */
  function ApplyProcedure(proc: Value, args: seq<Value>, st: State, prim: Prim, fuel: nat): (r: (Result<Value>, State))
    decreases fuel
    ensures Grows(st, r.1)
  {
    if fuel == 0 then (Fail(OutOfFuel), st)
    else match proc
      case PrimV(op) => (prim(op, args), st)
      case Closure(params, body, cenv) => ApplyClosure(params, body, cenv, args, st, prim, fuel - 1)
      case UndefinedV => (Fail(TypeError), st)
      case _ => (Fail(BadProcedure(proc)), st)
  }

  /** Allocates one cell per argument and runs the body in a frame over the
      closure's own environment. Arities are not compared. */
  function ApplyClosure(params: seq<string>, body: seq<Exp>, cenv: Env, args: seq<Value>, st: State, prim: Prim, fuel: nat): (r: (Result<Value>, State))
    decreases fuel
    ensures Grows(st, r.1)
  {
    if fuel == 0 then (Fail(OutOfFuel), st)
    else
      var initLen := |st.store|;
      var st1 := st.(store := ExtendStoreVals(st.store, args));
      var finLen := |st1.store|;
      var newEnv := MakeExtEnv(params, Range(initLen, finLen), cenv);
      EvalSequence(body, newEnv, st1, prim, fuel - 1)
  }

  function EvalSequence(forms: seq<Exp>, env: Env, st: State, prim: Prim, fuel: nat): (r: (Result<Value>, State))
    decreases fuel
    ensures Grows(st, r.1)
  {
    if fuel == 0 then (Fail(OutOfFuel), st)
    else if forms == [] then (Fail(EmptyProgram), st)
    else EvalCExps(forms[0], forms[1..], env, st, prim, fuel - 1)
  }

  function EvalCExps(first: Exp, rest: seq<Exp>, env: Env, st: State, prim: Prim, fuel: nat): (r: (Result<Value>, State))
    decreases fuel
    ensures Grows(st, r.1)
  {
    if fuel == 0 then (Fail(OutOfFuel), st)
    else match first
      case DefineExp(name, val) => EvalDefineExps(name, val, rest, st, prim, fuel - 1)
      case CExpForm(c) =>
        if c.SetExp? then EvalSetExps(c.name, c.val, rest, env, st, prim, fuel - 1)
        else if rest == [] then Eval(c, env, st, prim, fuel - 1)
        else
          var (v, st1) := Eval(c, env, st, prim, fuel - 1);
          if v.Fail? then (Fail(v.err), st1)
          else EvalSequence(rest, env, st1, prim, fuel - 1)
  }

  /** Evaluates the value in the global environment, stores it in a new
      cell and binds the name to the newest cell. The binding is added even
      when the value failed; the address is then that of an older cell, or
      -1 in an empty store. The remaining forms run in the global
      environment. */
  function EvalDefineExps(name: string, val: CExp, rest: seq<Exp>, st: State, prim: Prim, fuel: nat): (r: (Result<Value>, State))
    decreases fuel
    ensures Grows(st, r.1)
  {
    if fuel == 0 then (Fail(OutOfFuel), st)
    else
      var (res, st1) := Eval(val, GlobalEnv, st, prim, fuel - 1);
      if res.Fail? && res.err.Aborts() then (Fail(res.err), st1)
      else
        var st2 := if res.Ok? then st1.(store := ExtendStore(st1.store, res.value)) else st1;
        var st3 := GlobalEnvAddBinding(st2, name, |st2.store| - 1);
        if res.Fail? then (Fail(res.err), st3)
        else if rest == [] then (Ok(UndefinedV), st3)
        else EvalCExps(rest[0], rest[1..], GlobalEnv, st3, prim, fuel - 1)
  }

  /** Resolves the name, evaluates the value (even when the name is
      unbound), then writes the cell and goes on with the remaining forms. */
  function EvalSetExps(name: string, val: CExp, rest: seq<Exp>, env: Env, st: State, prim: Prim, fuel: nat): (r: (Result<Value>, State))
    decreases fuel
    ensures Grows(st, r.1)
  {
    if fuel == 0 then (Fail(OutOfFuel), st)
    else
      var address := ApplyEnv(env, name, st);
      var (v, st1) := Eval(val, env, st, prim, fuel - 1);
      if v.Fail? && v.err.Aborts() then (Fail(v.err), st1)
      else if address.Fail? then (Fail(address.err), st1)
      else if v.Fail? then (Fail(v.err), st1)
      else
        var st2 := st1.(store := SetThrough(st1.store, address.value, v.value));
        if rest == [] then (Ok(UndefinedV), st2)
        else EvalCExps(rest[0], rest[1..], env, st2, prim, fuel - 1)
  }

  function BindingVals(bindings: seq<Binding>): seq<CExp>
  {
    seq(|bindings|, i requires 0 <= i < |bindings| => bindings[i].val)
  }

  function BindingVars(bindings: seq<Binding>): seq<string>
  {
    seq(|bindings|, i requires 0 <= i < |bindings| => bindings[i].name)
  }

  /** Evaluates every binding's value in the enclosing environment, then
      allocates their cells and runs the body in a frame over them. */
  function EvalLet(bindings: seq<Binding>, body: seq<Exp>, env: Env, st: State, prim: Prim, fuel: nat): (r: (Result<Value>, State))
    decreases fuel
    ensures Grows(st, r.1)
  {
    if fuel == 0 then (Fail(OutOfFuel), st)
    else
      var (vals, st1) := EvalRands(BindingVals(bindings), env, st, prim, fuel - 1);
      var vars := BindingVars(bindings);
      if vals.Fail? then (Fail(vals.err), st1)
      else
        var initLen := |st1.store|;
        var st2 := st1.(store := ExtendStoreVals(st1.store, vals.value));
        var finLen := |st2.store|;
        var newEnv := MakeExtEnv(vars, Range(initLen, finLen), env);
        EvalSequence(body, newEnv, st2, prim, fuel - 1)
  }

  /** A program is a sequence of forms evaluated in the global environment. */
  function EvalProgram(forms: seq<Exp>, st: State, prim: Prim, fuel: nat): (r: (Result<Value>, State))
    ensures Grows(st, r.1)
  {
    EvalSequence(forms, GlobalEnv, st, prim, fuel)
  }
}
