/** The store of value cells and the environments that map names to
    addresses, as pure functions over the session state. The session class
    in module Session performs the mutating ones in place; these functions
    are their specifications. */
module EnvStore {
  import opened Ast

  // ---------------------------------------------------------------------
  // Store

  /** Appends one cell holding `val`; its address is the old length. */
  function ExtendStore(store: seq<Value>, val: Value): seq<Value> {
    store + [val]
  }

  /** Appends one cell per value, in order, one ExtendStore at a time. */
  function ExtendStoreVals(store: seq<Value>, vals: seq<Value>): (r: seq<Value>)
    decreases |vals|
    ensures |r| == |store| + |vals|
    ensures r[..|store|] == store
  {
    if vals == [] then store
    else ExtendStoreVals(ExtendStore(store, vals[0]), vals[1..])
  }

  /** Reads a cell; fails on an address outside the store. */
  function ApplyStore(store: seq<Value>, address: int): Result<Value> {
    if address < 0 || address >= |store| then Fail(IllegalAddress(address))
    else Ok(store[address])
  }

  /** Overwrites a cell; an address outside the store is silently ignored. */
  function SetStore(store: seq<Value>, address: int, val: Value): seq<Value> {
    if address >= 0 && address < |store| then store[address := val] else store
  }

  /** The integers lo, lo+1, ..., hi-1 (empty when hi <= lo). */
  function Range(lo: int, hi: int): (r: seq<int>)
    decreases hi - lo
    ensures |r| == if lo <= hi then hi - lo else 0
    ensures forall i :: 0 <= i < |r| ==> r[i] == lo + i
  {
    if lo >= hi then [] else [lo] + Range(lo + 1, hi)
  }

  // ---------------------------------------------------------------------
  // Environments

  /** Position of the first occurrence of `x` in `xs`, or -1. */
  function IndexOf(xs: seq<string>, x: string): (i: int)
    ensures -1 <= i < |xs|
    ensures i == -1 <==> x !in xs
    ensures 0 <= i ==> xs[i] == x && forall j :: 0 <= j < i ==> xs[j] != x
  {
    if xs == [] then -1
    else if xs[0] == x then 0
    else
      var k := IndexOf(xs[1..], x);
      if k == -1 then -1 else k + 1
  }

  /** `addresses[i]`, or the host's `undefined` past the end of the list. */
  function AddressAt(addresses: seq<int>, i: int): Addr {
    if 0 <= i < |addresses| then At(addresses[i]) else Missing
  }

  function MakeExtEnv(vs: seq<string>, addresses: seq<int>, env: Env): Env {
    ExtEnv(vs, addresses, env)
  }

  /** Looks `v` up in the global table: the first entry with that name wins. */
  function ApplyGlobalEnv(st: State, v: string): Result<Addr> {
    var i := IndexOf(st.gvars, v);
    if i > -1 then Ok(AddressAt(st.gaddrs, i))
    else Fail(UnboundVariable(v))
  }

  /** Walks the chain of frames outward, ending at the global table. */
  function ApplyEnv(env: Env, v: string, st: State): Result<Addr>
    decreases env, 1
  {
    match env
    case GlobalEnv => ApplyGlobalEnv(st, v)
    case ExtEnv(vars, addresses, next) => ApplyExtEnv(vars, addresses, next, v, st)
  }

  function ApplyExtEnv(vars: seq<string>, addresses: seq<int>, next: Env, v: string, st: State): Result<Addr>
    decreases ExtEnv(vars, addresses, next), 0
  {
    if v in vars then Ok(AddressAt(addresses, IndexOf(vars, v)))
    else ApplyEnv(next, v, st)
  }

  /** Appends a name and an address to the ends of the global lists. */
  function GlobalEnvAddBinding(st: State, v: string, address: int): State {
    st.(gvars := st.gvars + [v], gaddrs := st.gaddrs + [address])
  }

  // ---------------------------------------------------------------------
  // Properties of the store

  lemma ExtendStoreAppends(store: seq<Value>, val: Value)
    ensures var s' := ExtendStore(store, val);
      |s'| == |store| + 1 &&
      ApplyStore(s', |store|) == Ok(val) &&
      forall a :: a != |store| ==> ApplyStore(s', a) == ApplyStore(store, a)
  {
  }

  /** Appending one value at a time, as the store does, is appending the
      whole sequence. */
  lemma {:induction false} ExtendStoreValsIsConcat(store: seq<Value>, vals: seq<Value>)
    ensures ExtendStoreVals(store, vals) == store + vals
    decreases |vals|
  {
    if vals != [] {
      ExtendStoreValsIsConcat(ExtendStore(store, vals[0]), vals[1..]);
      assert ExtendStore(store, vals[0]) + vals[1..] == store + vals;
    }
  }

  /** After ExtendStoreVals, value i sits at address (old length + i) and
      every older cell reads as before. */
  lemma ExtendStoreValsLayout(store: seq<Value>, vals: seq<Value>)
    ensures |ExtendStoreVals(store, vals)| == |store| + |vals|
    ensures forall i :: 0 <= i < |vals| ==> ApplyStore(ExtendStoreVals(store, vals), |store| + i) == Ok(vals[i])
    ensures forall a :: a < |store| ==> ApplyStore(ExtendStoreVals(store, vals), a) == ApplyStore(store, a)
  {
    ExtendStoreValsIsConcat(store, vals);
  }

  lemma ApplyStoreFailsIffOutOfRange(store: seq<Value>, address: int)
    ensures ApplyStore(store, address).Fail? <==> address < 0 || address >= |store|
    ensures ApplyStore(store, address).Fail? ==> ApplyStore(store, address).err == IllegalAddress(address)
    ensures ApplyStore(store, address).Ok? ==> ApplyStore(store, address).value == store[address]
  {
  }

  lemma SetThenApply(store: seq<Value>, address: int, val: Value)
    requires 0 <= address < |store|
    ensures var s' := SetStore(store, address, val);
      |s'| == |store| &&
      ApplyStore(s', address) == Ok(val) &&
      forall a :: a != address ==> ApplyStore(s', a) == ApplyStore(store, a)
  {
  }

  lemma SetOutOfRangeIsNoop(store: seq<Value>, address: int, val: Value)
    requires address < 0 || address >= |store|
    ensures SetStore(store, address, val) == store
  {
  }

  // ---------------------------------------------------------------------
  // Properties of environments

  /** A frame that binds `v` answers with the address at the first
      occurrence of `v`; neither the outer chain nor the globals matter. */
  lemma ExtEnvFirstMatch(vars: seq<string>, addresses: seq<int>, next: Env, v: string, st: State)
    requires v in vars
    ensures var i := IndexOf(vars, v);
      0 <= i < |vars| && vars[i] == v &&
      (forall j :: 0 <= j < i ==> vars[j] != v) &&
      ApplyEnv(ExtEnv(vars, addresses, next), v, st) == Ok(AddressAt(addresses, i))
  {
  }

  /** Shadowing: an inner binding hides every outer one. */
  lemma ShadowingIgnoresOuter(vars: seq<string>, addresses: seq<int>, n1: Env, n2: Env, v: string, s1: State, s2: State)
    requires v in vars
    ensures ApplyEnv(ExtEnv(vars, addresses, n1), v, s1) == ApplyEnv(ExtEnv(vars, addresses, n2), v, s2)
  {
  }

  lemma ExtEnvMissDelegates(vars: seq<string>, addresses: seq<int>, next: Env, v: string, st: State)
    requires v !in vars
    ensures ApplyEnv(ExtEnv(vars, addresses, next), v, st) == ApplyEnv(next, v, st)
  {
  }

  /** The global table answers with the address of the earliest entry for
      the name, and fails on a name it does not hold. */
  lemma GlobalFirstMatch(st: State, v: string)
    requires |st.gvars| == |st.gaddrs|
    ensures v !in st.gvars ==> ApplyEnv(GlobalEnv, v, st) == Fail(UnboundVariable(v))
    ensures v in st.gvars ==>
      var i := IndexOf(st.gvars, v);
      0 <= i < |st.gvars| && st.gvars[i] == v &&
      (forall j :: 0 <= j < i ==> st.gvars[j] != v) &&
      ApplyEnv(GlobalEnv, v, st) == Ok(At(st.gaddrs[i]))
  {
  }

  lemma GlobalEnvAddBindingAppends(st: State, v: string, address: int)
    requires |st.gvars| == |st.gaddrs|
    ensures var st' := GlobalEnvAddBinding(st, v, address);
      |st'.gvars| == |st'.gaddrs| == |st.gvars| + 1 &&
      st'.gvars[..|st.gvars|] == st.gvars && st'.gaddrs[..|st.gaddrs|] == st.gaddrs &&
      st'.gvars[|st.gvars|] == v && st'.gaddrs[|st.gaddrs|] == address &&
      st'.store == st.store
  {
  }

  /** IndexOf is unaffected by entries added after the first occurrence. */
  lemma {:induction false} IndexOfExtended(xs: seq<string>, ys: seq<string>, x: string)
    requires x in xs
    ensures IndexOf(xs + ys, x) == IndexOf(xs, x)
  {
    if xs[0] != x {
      assert (xs + ys)[1..] == xs[1..] + ys;
      IndexOfExtended(xs[1..], ys, x);
    }
  }

  /** The global table only grows at its end (by definition or by a whole
      evaluation): every name that resolved keeps resolving to the same
      address, in any environment, whatever happens to the store. This is
      "earliest definition wins" for redefinitions. */
  lemma {:induction false} LookupStableUnderGrowth(env: Env, v: string, st: State, st': State)
    requires |st.gvars| == |st.gaddrs|
    requires st.gvars <= st'.gvars && st.gaddrs <= st'.gaddrs
    requires ApplyEnv(env, v, st).Ok?
    ensures ApplyEnv(env, v, st') == ApplyEnv(env, v, st)
  {
    match env
    case GlobalEnv =>
      var n := |st.gvars|;
      assert st'.gvars == st.gvars + st'.gvars[n..];
      IndexOfExtended(st.gvars, st'.gvars[n..], v);
      assert st'.gaddrs[..n] == st.gaddrs;
    case ExtEnv(vars, addresses, next) =>
      if v !in vars {
        LookupStableUnderGrowth(next, v, st, st');
      }
  }

  /** A definition of a name that was unbound makes it resolve, from the
      global environment, to the new address. */
  lemma AddBindingBindsFreshName(st: State, v: string, address: int)
    requires |st.gvars| == |st.gaddrs|
    requires v !in st.gvars
    ensures ApplyEnv(GlobalEnv, v, GlobalEnvAddBinding(st, v, address)) == Ok(At(address))
  {
    var st' := GlobalEnvAddBinding(st, v, address);
    var i := IndexOf(st'.gvars, v);
    assert st'.gvars[|st.gvars|] == v;
    assert st'.gvars[..|st.gvars|] == st.gvars;
  }
}
