/** The data of the L21 interpreter: expression trees as the parser hands
    them over, runtime values, environments, failures and the session state
    (the store of cells plus the global environment's two parallel lists). */
module Ast {

  /** Expressions that may appear in any expression position. */
  datatype CExp =
    | NumExp(n: int)
    | BoolExp(b: bool)
    | StrExp(s: string)
    | PrimOp(op: string)
    | VarRef(name: string)
    | LitExp(datum: Value)
    | IfExp(test: CExp, thn: CExp, alt: CExp)
    | ProcExp(params: seq<string>, body: seq<Exp>)
    | LetExp(bindings: seq<Binding>, body: seq<Exp>)
    | AppExp(rator: CExp, rands: seq<CExp>)
    | SetExp(name: string, val: CExp)

  datatype Binding = Binding(name: string, val: CExp)

  /** A form of a sequence: a top-level definition or an expression. */
  datatype Exp =
    | DefineExp(name: string, val: CExp)
    | CExpForm(c: CExp)

  /** Runtime values. Symbols, the empty list and pairs are the literal
      s-expression data a quoted literal carries; UndefinedV is the value
      a sequence ending in a definition or an assignment produces. */
  datatype Value =
    | NumV(n: int)
    | BoolV(b: bool)
    | StrV(s: string)
    | PrimV(op: string)
    | Closure(params: seq<string>, body: seq<Exp>, env: Env)
    | SymbolV(sym: string)
    | EmptyV
    | PairV(car: Value, cdr: Value)
    | UndefinedV

  /** The global environment is a single mutable table held by the session
      state, so the GlobalEnv variant carries nothing; an extension frame
      is immutable and links to the environment it extends. */
  datatype Env =
    | GlobalEnv
    | ExtEnv(vars: seq<string>, addresses: seq<int>, nextEnv: Env)

  /** What a lookup yields: an address, or the host's `undefined` when a
      frame has fewer addresses than names. */
  datatype Addr = At(n: int) | Missing

  datatype Failure =
    | UnboundVariable(name: string)
    | IllegalAddress(address: int)
    | BadProcedure(proc: Value)
    | EmptyProgram
    | NestedSet
    | PrimitiveFailure(msg: string)
    | TypeError
    | OutOfFuel
  {
    /** A host exception rather than a failure value: it unwinds every
        enclosing evaluation, including the steps a failure value would not
        stop. TypeError is what the host raises when a cell is read through
        a missing address; OutOfFuel stands for the host's recursion limit. */
    predicate Aborts() {
      TypeError? || OutOfFuel?
    }
  }

  datatype Result<T> = Ok(value: T) | Fail(err: Failure)

  /** The process-wide mutable part of an interpreter session. */
  datatype State = State(store: seq<Value>, gvars: seq<string>, gaddrs: seq<int>)

  /** The primitive library: applied to an operator name and the evaluated
      arguments. It is a parameter of the evaluator, so every property of
      the model holds whatever the primitives do. */
  type Prim = (string, seq<Value>) -> Result<Value>
}
