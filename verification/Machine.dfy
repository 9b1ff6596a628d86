/**
  The meaning of replaying dispatch and fill commands, over a store of named byte regions.

  The name type `K` is a parameter. With the four region classes it is the specification of the
  C interpreter (StaticDirect); with allocation identifiers it is the reference machine in which
  every allocation has a buffer of its own (Refinement).
 */
module Machine {
  import opened Basics

  type Byte = x: int | 0 <= x < 256

  /**
    One workgroup of a compiled kernel: a decision tree over the bytes it reads through its
    bindings. `next` has one branch for each value of the byte read. A kernel has no other access
    to memory; reads outside a binding see 0 and writes outside are dropped, and a missing branch
    is a failure.
   */
  datatype Program =
    | Done(rc: int)
    | Read(binding: nat, index: nat, next: seq<Program>)
    | Write(binding: nat, index: nat, value: Byte, rest: Program)

  /** A window of one region. */
  datatype View<K> = View(key: K, offset: nat, length: nat)

  type Store<!K> = map<K, seq<Byte>>

  predicate ViewFits<K>(v: View<K>, store: Store<K>) {
    v.key in store && v.offset <= |store[v.key]| && v.length <= |store[v.key]| - v.offset
  }

  predicate ViewsFit<K>(views: seq<View<K>>, store: Store<K>) {
    forall i :: 0 <= i < |views| ==> ViewFits(views[i], store)
  }

  /** Same regions, of the same sizes. */
  predicate SameShape<K>(a: Store<K>, b: Store<K>) {
    a.Keys == b.Keys && forall k :: k in a ==> |a[k]| == |b[k]|
  }

  function ReadThrough<K>(views: seq<View<K>>, binding: nat, index: nat, store: Store<K>): Byte
    requires ViewsFit(views, store)
  {
    if binding < |views| && index < views[binding].length
    then store[views[binding].key][views[binding].offset + index]
    else 0
  }

  function Poke<K>(store: Store<K>, key: K, at: nat, value: Byte): (r: Store<K>)
    requires key in store && at < |store[key]|
    ensures SameShape(store, r)
  {
    var region: seq<Byte> := store[key][at := value];
    store[key := region]
  }

  function WriteThrough<K>(views: seq<View<K>>, binding: nat, index: nat, value: Byte, store: Store<K>): (r: Store<K>)
    requires ViewsFit(views, store)
    ensures SameShape(store, r)
  {
    if binding < |views| && index < views[binding].length
    then Poke(store, views[binding].key, views[binding].offset + index, value)
    else store
  }

  /** Runs one workgroup; aliasing between its bindings is whatever their windows say. */
  function Exec<K>(p: Program, views: seq<View<K>>, store: Store<K>): (r: (int, Store<K>))
    requires ViewsFit(views, store)
    ensures SameShape(store, r.1)
    decreases p
  {
    match p
    case Done(rc) => (rc, store)
    case Read(b, i, next) =>
      var v := ReadThrough(views, b, i, store);
      if v < |next| then Exec(next[v], views, store) else (-1, store)
    case Write(b, i, v, rest) => Exec(rest, views, WriteThrough(views, b, i, v, store))
  }

  /** Workgroups one after the other, up to the first that fails. */
  function ExecAll<K>(programs: seq<Program>, views: seq<View<K>>, store: Store<K>): (r: (int, Store<K>))
    requires ViewsFit(views, store)
    ensures SameShape(store, r.1)
  {
    if programs == [] then (0, store)
    else
      var (rc, st) := ExecAll(programs[..|programs| - 1], views, store);
      if rc != 0 then (rc, st) else Exec(programs[|programs| - 1], views, st)
  }

  // ---------- kernels ----------

  datatype DispatchState = DispatchState(
    countX: nat, countY: nat, countZ: nat, constants: seq<nat>, bindingLengths: seq<nat>)

  datatype WorkgroupId = WorkgroupId(x: nat, y: nat, z: nat)

  type Kernel = (DispatchState, WorkgroupId) -> Program

  datatype Attributes = Attributes(constantCount: nat, bindingCount: nat, localMemoryPages: nat)

  /** `exports.ptrs` with its null entries, and the optional attribute table. */
  datatype Library = Library(exports: seq<Option<Kernel>>, attributes: Option<seq<Attributes>>)

  ghost predicate ValidLibrary(library: Library) {
    library.attributes.Some? ==> |library.attributes.value| == |library.exports|
  }

  const U16: nat := 0x1_0000

  const MAX_BINDINGS: nat := 8

  datatype Grid = Grid(x: nat, y: nat, z: nat)

  function GridSize(g: Grid): nat {
    g.x * g.y * g.z
  }

  /** The `n`-th workgroup, x innermost; the z coordinate is stored in 16 bits. */
  function GroupAt(g: Grid, n: nat): WorkgroupId
    requires g.x > 0 && g.y > 0
  {
    WorkgroupId(n % g.x, n / g.x % g.y, n / g.x / g.y % U16)
  }

  // ---------- commands ----------

  datatype Status =
    OK | InvalidArgument | InvalidDescriptor | InvalidSlice | UnsupportedDispatch | DispatchFailed

  datatype Dispatch<K> = Dispatch(ordinal: nat, workgroups: Grid, constants: seq<nat>, bindings: seq<View<K>>)

  /** A malformed command has an unknown type, or should dispatch and names no dispatch. */
  datatype Work<K> = Launch(dispatch: Dispatch<K>) | Fill(target: View<K>, pattern: nat) | Malformed

  function Lengths<K>(views: seq<View<K>>): seq<nat> {
    seq(|views|, i requires 0 <= i < |views| => views[i].length)
  }

  function StateOf<K>(d: Dispatch<K>): DispatchState {
    DispatchState(d.workgroups.x, d.workgroups.y, d.workgroups.z % U16, d.constants, Lengths(d.bindings))
  }

  /** `validate_dispatch_attrs` */
  predicate SupportedDispatch<K>(library: Library, d: Dispatch<K>)
    requires ValidLibrary(library)
  {
    && d.ordinal < |library.exports|
    && library.exports[d.ordinal].Some?
    && (library.attributes.Some? ==>
          var attributes := library.attributes.value[d.ordinal];
          && attributes.constantCount == |d.constants|
          && attributes.bindingCount == |d.bindings|
          && attributes.localMemoryPages == 0)
  }

  /** The workgroup programs a dispatch launches, in launch order. */
  function Programs<K>(library: Library, d: Dispatch<K>): seq<Program>
    requires ValidLibrary(library) && SupportedDispatch(library, d)
  {
    seq(GridSize(d.workgroups), (n: nat) requires n < GridSize(d.workgroups) =>
      GridIsPositive(d.workgroups);
      library.exports[d.ordinal].value(StateOf(d), GroupAt(d.workgroups, n)))
  }

  lemma GridIsPositive(g: Grid)
    requires GridSize(g) > 0
    ensures g.x > 0 && g.y > 0 && g.z > 0
  {
  }

  function IssueDispatch<K>(library: Library, d: Dispatch<K>, store: Store<K>): (r: (Status, Store<K>))
    requires ValidLibrary(library)
    ensures SameShape(store, r.1)
  {
    if |d.bindings| > MAX_BINDINGS || !SupportedDispatch(library, d) then (UnsupportedDispatch, store)
    else if !ViewsFit(d.bindings, store) then (InvalidSlice, store)
    else
      var (rc, st) := ExecAll(Programs(library, d), d.bindings, store);
      (if rc != 0 then DispatchFailed else OK, st)
  }

  function FillView<K>(target: View<K>, value: Byte, store: Store<K>): (r: Store<K>)
    requires ViewFits(target, store)
    ensures SameShape(store, r)
  {
    var region := store[target.key];
    var filled: seq<Byte> :=
      region[..target.offset] + seq(target.length, i => value) + region[target.offset + target.length..];
    store[target.key := filled]
  }

  function Issue<K>(library: Library, work: Work<K>, store: Store<K>): (r: (Status, Store<K>))
    requires ValidLibrary(library)
    ensures SameShape(store, r.1)
  {
    match work
    case Launch(d) => IssueDispatch(library, d, store)
    case Fill(target, pattern) =>
      if ViewFits(target, store) then (OK, FillView(target, pattern % 256, store)) else (InvalidSlice, store)
    case Malformed => (InvalidDescriptor, store)
  }

  /** Commands in order, up to the first that does not return OK. */
  function Replay<K>(library: Library, works: seq<Work<K>>, store: Store<K>): (r: (Status, Store<K>))
    requires ValidLibrary(library)
    ensures SameShape(store, r.1)
  {
    if works == [] then (OK, store)
    else
      var (status, st) := Replay(library, works[..|works| - 1], store);
      if status != OK then (status, st) else Issue(library, works[|works| - 1], st)
  }

  lemma ReplayExtends<K>(library: Library, works: seq<Work<K>>, n: nat, store: Store<K>)
    requires ValidLibrary(library) && n < |works|
    ensures
      var before := Replay(library, works[..n], store);
      Replay(library, works[..n + 1], store) ==
      if before.0 != OK then before else Issue(library, works[n], before.1)
  {
    assert works[..n + 1][..n] == works[..n];
  }

  /** Once a command has failed, the outcome is final. */
  lemma {:induction false} FailureIsFinal<K>(library: Library, works: seq<Work<K>>, n: nat, store: Store<K>)
    requires ValidLibrary(library) && n <= |works|
    requires Replay(library, works[..n], store).0 != OK
    ensures Replay(library, works, store) == Replay(library, works[..n], store)
    decreases |works|
  {
    if n == |works| {
      assert works[..n] == works;
    } else {
      var m := |works| - 1;
      assert works[..m][..n] == works[..n];
      FailureIsFinal(library, works[..m], n, store);
    }
  }
}
