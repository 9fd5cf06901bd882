/** An interpreter session: the one store and the one global environment,
    updated in place, and the evaluator that runs against them. Every
    method is proved to leave the session in the state, and to return the
    result, that the functions of module Semantics describe. */
module Session {
  import opened Ast
  import EnvStore
  import Semantics

  class Interpreter {
    /** The cells of the store; an address is an index into it. */
    var store: seq<Value>
    /** The global environment's two parallel lists. */
    var gvars: seq<string>
    var gaddrs: seq<int>
    /** The primitive library the session applies primitive operators with. */
    const prim: Prim

    function Snapshot(): State
      reads this
    {
      State(store, gvars, gaddrs)
    }

    ghost predicate Valid()
      reads this
    {
      |gvars| == |gaddrs|
    }

    /** A fresh session: an empty store and an empty global environment. */
    constructor (prim: Prim)
      ensures Valid()
      ensures Snapshot() == State([], [], []) && this.prim == prim
    {
      store := [];
      gvars := [];
      gaddrs := [];
      this.prim := prim;
    }

    // -------------------------------------------------------------------
    // Store and global environment updates

    /** Appends one cell; its address is the old length of the store. */
    method ExtendStore(val: Value)
      modifies this
      ensures Snapshot() == old(Snapshot()).(store := EnvStore.ExtendStore(old(store), val))
      ensures |store| == |old(store)| + 1 && store[|old(store)|] == val
    {
      store := store + [val];
    }

    /** Appends one cell per value, in order. */
    method ExtendStoreVals(vals: seq<Value>)
      modifies this
      ensures Snapshot() == old(Snapshot()).(store := EnvStore.ExtendStoreVals(old(store), vals))
    {
      var i := 0;
      while i < |vals|
        invariant 0 <= i <= |vals|
        invariant gvars == old(gvars) && gaddrs == old(gaddrs)
        invariant EnvStore.ExtendStoreVals(store, vals[i..]) == EnvStore.ExtendStoreVals(old(store), vals)
      {
        assert vals[i..][0] == vals[i] && vals[i..][1..] == vals[i + 1..];
        ExtendStore(vals[i]);
        i := i + 1;
      }
      assert vals[i..] == [];
    }

    /** Overwrites a cell; an address outside the store changes nothing. */
    method SetStore(address: int, val: Value)
      modifies this
      ensures Snapshot() == old(Snapshot()).(store := EnvStore.SetStore(old(store), address, val))
    {
      if address >= 0 && address < |store| {
        store := store[address := val];
      }
    }

    method GlobalEnvAddBinding(v: string, address: int)
      modifies this
      ensures Snapshot() == EnvStore.GlobalEnvAddBinding(old(Snapshot()), v, address)
      ensures old(Valid()) ==> Valid()
    {
      gvars := gvars + [v];
      gaddrs := gaddrs + [address];
    }

    // -------------------------------------------------------------------
    // Evaluator

    method ApplicativeEval(e: CExp, env: Env, fuel: nat) returns (r: Result<Value>)
      modifies this
      decreases fuel
      ensures (r, Snapshot()) == Semantics.Eval(e, env, old(Snapshot()), prim, fuel)
    {
      if fuel == 0 {
        return Fail(OutOfFuel);
      }
      match e
      case NumExp(n) => r := Ok(NumV(n));
      case BoolExp(b) => r := Ok(BoolV(b));
      case StrExp(s) => r := Ok(StrV(s));
      case PrimOp(op) => r := Ok(PrimV(op));
      case VarRef(v) => r := Semantics.EvalVarRef(env, v, Snapshot());
      case LitExp(d) => r := Ok(d);
      case IfExp(test, thn, alt) => r := EvalIf(test, thn, alt, env, fuel - 1);
      case ProcExp(params, body) => r := Ok(Semantics.EvalProc(params, body, env));
      case LetExp(bindings, body) => r := EvalLet(bindings, body, env, fuel - 1);
      case AppExp(rator, rands) =>
        var proc := ApplicativeEval(rator, env, fuel - 1);
        if proc.Fail? && proc.err.Aborts() {
          return Fail(proc.err);
        }
        var args := EvalRands(rands, env, fuel - 1);
        if args.Fail? && args.err.Aborts() {
          r := Fail(args.err);
        } else if proc.Fail? {
          r := Fail(proc.err);
        } else if args.Fail? {
          r := Fail(args.err);
        } else {
          r := ApplyProcedure(proc.value, args.value, fuel - 1);
        }
      case SetExp(_, _) => r := Fail(NestedSet);
    }

    method EvalIf(test: CExp, thn: CExp, alt: CExp, env: Env, fuel: nat) returns (r: Result<Value>)
      modifies this
      decreases fuel
      ensures (r, Snapshot()) == Semantics.EvalIf(test, thn, alt, env, old(Snapshot()), prim, fuel)
    {
      if fuel == 0 {
        return Fail(OutOfFuel);
      }
      ghost var s0 := Snapshot();
      var t := ApplicativeEval(test, env, fuel - 1);
      ghost var s1 := Snapshot();
      if t.Fail? {
        r := Fail(t.err);
      } else {
        var branch := if Semantics.IsTrueValue(t.value) then thn else alt;
        r := ApplicativeEval(branch, env, fuel - 1);
        assert Semantics.EvalIf(test, thn, alt, env, s0, prim, fuel)
            == Semantics.Eval(branch, env, s1, prim, fuel - 1);
      }
    }

    method EvalRands(es: seq<CExp>, env: Env, fuel: nat) returns (r: Result<seq<Value>>)
      modifies this
      decreases fuel
      ensures (r, Snapshot()) == Semantics.EvalRands(es, env, old(Snapshot()), prim, fuel)
    {
      if fuel == 0 {
        return Fail(OutOfFuel);
      }
      if es == [] {
        return Ok([]);
      }
      var v := ApplicativeEval(es[0], env, fuel - 1);
      if v.Fail? {
        return Fail(v.err);
      }
      var vs := EvalRands(es[1..], env, fuel - 1);
      if vs.Fail? {
        r := Fail(vs.err);
      } else {
        r := Ok([v.value] + vs.value);
      }
    }

    method ApplyProcedure(proc: Value, args: seq<Value>, fuel: nat) returns (r: Result<Value>)
      modifies this
      decreases fuel
      ensures (r, Snapshot()) == Semantics.ApplyProcedure(proc, args, old(Snapshot()), prim, fuel)
    {
      if fuel == 0 {
        return Fail(OutOfFuel);
      }
      match proc
      case PrimV(op) => r := prim(op, args);
      case Closure(params, body, cenv) => r := ApplyClosure(params, body, cenv, args, fuel - 1);
      case UndefinedV => r := Fail(TypeError);
      case _ => r := Fail(BadProcedure(proc));
    }

    method ApplyClosure(params: seq<string>, body: seq<Exp>, cenv: Env, args: seq<Value>, fuel: nat) returns (r: Result<Value>)
      modifies this
      decreases fuel
      ensures (r, Snapshot()) == Semantics.ApplyClosure(params, body, cenv, args, old(Snapshot()), prim, fuel)
    {
      if fuel == 0 {
        return Fail(OutOfFuel);
      }
      var initLen := |store|;
      ExtendStoreVals(args);
      var finLen := |store|;
      var addresses := EnvStore.Range(initLen, finLen);
      var newEnv := EnvStore.MakeExtEnv(params, addresses, cenv);
      r := EvalSequence(body, newEnv, fuel - 1);
    }

    method EvalSequence(forms: seq<Exp>, env: Env, fuel: nat) returns (r: Result<Value>)
      modifies this
      decreases fuel
      ensures (r, Snapshot()) == Semantics.EvalSequence(forms, env, old(Snapshot()), prim, fuel)
    {
      if fuel == 0 {
        return Fail(OutOfFuel);
      }
      if forms == [] {
        return Fail(EmptyProgram);
      }
      r := EvalCExps(forms[0], forms[1..], env, fuel - 1);
    }

    method EvalCExps(first: Exp, rest: seq<Exp>, env: Env, fuel: nat) returns (r: Result<Value>)
      modifies this
      decreases fuel
      ensures (r, Snapshot()) == Semantics.EvalCExps(first, rest, env, old(Snapshot()), prim, fuel)
    {
      if fuel == 0 {
        return Fail(OutOfFuel);
      }
      match first
      case DefineExp(name, val) => r := EvalDefineExps(name, val, rest, fuel - 1);
      case CExpForm(c) =>
        if c.SetExp? {
          r := EvalSetExps(c.name, c.val, rest, env, fuel - 1);
        } else if rest == [] {
          r := ApplicativeEval(c, env, fuel - 1);
        } else {
          var v := ApplicativeEval(c, env, fuel - 1);
          if v.Fail? {
            r := Fail(v.err);
          } else {
            r := EvalSequence(rest, env, fuel - 1);
          }
        }
    }

    method EvalDefineExps(name: string, val: CExp, rest: seq<Exp>, fuel: nat) returns (r: Result<Value>)
      modifies this
      decreases fuel
      ensures (r, Snapshot()) == Semantics.EvalDefineExps(name, val, rest, old(Snapshot()), prim, fuel)
    {
      if fuel == 0 {
        return Fail(OutOfFuel);
      }
      var res := ApplicativeEval(val, GlobalEnv, fuel - 1);
      if res.Fail? && res.err.Aborts() {
        return Fail(res.err);
      }
      if res.Ok? {
        ExtendStore(res.value);
      }
      GlobalEnvAddBinding(name, |store| - 1);
      if res.Fail? {
        r := Fail(res.err);
      } else if rest == [] {
        r := Ok(UndefinedV);
      } else {
        r := EvalCExps(rest[0], rest[1..], GlobalEnv, fuel - 1);
      }
    }

    method EvalSetExps(name: string, val: CExp, rest: seq<Exp>, env: Env, fuel: nat) returns (r: Result<Value>)
      modifies this
      decreases fuel
      ensures (r, Snapshot()) == Semantics.EvalSetExps(name, val, rest, env, old(Snapshot()), prim, fuel)
    {
      if fuel == 0 {
        return Fail(OutOfFuel);
      }
      var address := EnvStore.ApplyEnv(env, name, Snapshot());
      var v := ApplicativeEval(val, env, fuel - 1);
      if v.Fail? && v.err.Aborts() {
        return Fail(v.err);
      }
      if address.Fail? {
        return Fail(address.err);
      }
      if v.Fail? {
        return Fail(v.err);
      }
      match address.value {
        case At(a) => SetStore(a, v.value);
        case Missing =>
      }
      if rest == [] {
        r := Ok(UndefinedV);
      } else {
        r := EvalCExps(rest[0], rest[1..], env, fuel - 1);
      }
    }

    method EvalLet(bindings: seq<Binding>, body: seq<Exp>, env: Env, fuel: nat) returns (r: Result<Value>)
      modifies this
      decreases fuel
      ensures (r, Snapshot()) == Semantics.EvalLet(bindings, body, env, old(Snapshot()), prim, fuel)
    {
      if fuel == 0 {
        return Fail(OutOfFuel);
      }
      var vals := EvalRands(Semantics.BindingVals(bindings), env, fuel - 1);
      var vars := Semantics.BindingVars(bindings);
      if vals.Fail? {
        return Fail(vals.err);
      }
      var initLen := |store|;
      ExtendStoreVals(vals.value);
      var finLen := |store|;
      var addresses := EnvStore.Range(initLen, finLen);
      var newEnv := EnvStore.MakeExtEnv(vars, addresses, env);
      r := EvalSequence(body, newEnv, fuel - 1);
    }

    /** Runs a program's forms in the global environment of this session. */
    method EvalProgram(forms: seq<Exp>, fuel: nat) returns (r: Result<Value>)
      modifies this
      ensures (r, Snapshot()) == Semantics.EvalProgram(forms, old(Snapshot()), prim, fuel)
      ensures Semantics.Grows(old(Snapshot()), Snapshot())
      ensures old(Valid()) ==> Valid()
    {
      r := EvalSequence(forms, GlobalEnv, fuel);
    }
  }
}
