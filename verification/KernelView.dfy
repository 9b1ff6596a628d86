/**
  What a dispatch looks like from inside a kernel: the state it is started with, the bytes it reads and
  writes through its bindings, the order of the workgroups, and what its return code does. Stated for
  kernels that do one thing, so that each fact is about bytes and status alone.
 */
module KernelView {
  import opened Basics
  import opened Machine

  // ---------- the dispatch state ----------

  /** One number a kernel finds in its dispatch state. */
  datatype Field = CountX | CountY | CountZ | ConstantCount | BindingCount | Constant(index: nat) | Length(index: nat)

  predicate HasField<K>(f: Field, d: Dispatch<K>) {
    match f
    case Constant(i) => i < |d.constants|
    case Length(i) => i < |d.bindings|
    case _ => true
  }

  /** What the kernel finds. */
  function Shown(f: Field, state: DispatchState): nat {
    match f
    case CountX => state.countX
    case CountY => state.countY
    case CountZ => state.countZ
    case ConstantCount => |state.constants|
    case BindingCount => |state.bindingLengths|
    case Constant(i) => if i < |state.constants| then state.constants[i] else 0
    case Length(i) => if i < |state.bindingLengths| then state.bindingLengths[i] else 0
  }

  /** What the dispatch says. */
  function Said<K>(f: Field, d: Dispatch<K>): nat
    requires HasField(f, d)
  {
    match f
    case CountX => d.workgroups.x
    case CountY => d.workgroups.y
    case CountZ => d.workgroups.z % 0x1_0000
    case ConstantCount => |d.constants|
    case BindingCount => |d.bindings|
    case Constant(i) => d.constants[i]
    case Length(i) => d.bindings[i].length
  }

  /** A dispatch that is launched: supported, with windows that fit, and not empty. */
  ghost predicate Launches<K>(library: Library, d: Dispatch<K>, store: Store<K>) {
    && ValidLibrary(library) && SupportedDispatch(library, d) && |d.bindings| <= MAX_BINDINGS
    && ViewsFit(d.bindings, store)
    && d.workgroups.x > 0 && d.workgroups.y > 0 && d.workgroups.z > 0
  }

  /** A byte position inside a binding. */
  predicate InBinding<K>(d: Dispatch<K>, binding: nat, index: nat) {
    binding < |d.bindings| && index < d.bindings[binding].length
  }

  /** One byte of one window replaced. */
  function WithByte<K>(d: Dispatch<K>, binding: nat, index: nat, value: Byte, store: Store<K>): Store<K>
    requires ViewsFit(d.bindings, store) && InBinding(d, binding, index)
  {
    var v := d.bindings[binding];
    assert ViewFits(v, store);
    var region: seq<Byte> := store[v.key][v.offset + index := value];
    store[v.key := region]
  }

  lemma GridIsNotEmpty(g: Grid)
    requires g.x > 0 && g.y > 0 && g.z > 0
    ensures GridSize(g) > 0
  {
    assert g.x * g.y > 0;
  }

  // ---------- workgroups in order ----------

  /** Every workgroup writes a byte of its own choice at one position and returns a code of its own. */
  ghost predicate WritesOwnByte(
    library: Library, ordinal: nat, binding: nat, index: nat,
    value: (DispatchState, WorkgroupId) -> Byte, rc: WorkgroupId -> int)
    requires ordinal < |library.exports| && library.exports[ordinal].Some?
  {
    forall state, id {:trigger library.exports[ordinal].value(state, id)} ::
      library.exports[ordinal].value(state, id) == Write(binding, index, value(state, id), Done(rc(id)))
  }

  lemma OneWrite<K>(d: Dispatch<K>, binding: nat, index: nat, value: Byte, rc: int, store: Store<K>)
    requires ViewsFit(d.bindings, store) && InBinding(d, binding, index)
    ensures Exec(Write(binding, index, value, Done(rc)), d.bindings, store)
            == (rc, WithByte(d, binding, index, value, store))
  {
    assert ViewFits(d.bindings[binding], store);
  }

  lemma WriteAgain<K>(d: Dispatch<K>, binding: nat, index: nat, first: Byte, second: Byte, store: Store<K>)
    requires ViewsFit(d.bindings, store) && InBinding(d, binding, index)
    ensures ViewsFit(d.bindings, WithByte(d, binding, index, first, store))
    ensures WithByte(d, binding, index, second, WithByte(d, binding, index, first, store))
            == WithByte(d, binding, index, second, store)
  {
    var v := d.bindings[binding];
    assert ViewFits(v, store);
    var once := WithByte(d, binding, index, first, store);
    assert SameShape(store, once);
    assert once[v.key][v.offset + index := second] == store[v.key][v.offset + index := second];
  }

  lemma {:induction false} GroupsWrite<K>(
    library: Library, d: Dispatch<K>, store: Store<K>, binding: nat, index: nat,
    value: (DispatchState, WorkgroupId) -> Byte, rc: WorkgroupId -> int, n: nat)
    requires Launches(library, d, store) && InBinding(d, binding, index)
    requires WritesOwnByte(library, d.ordinal, binding, index, value, rc)
    requires 0 < n <= GridSize(d.workgroups)
    requires forall m: nat :: m < n - 1 ==> rc(GroupAt(d.workgroups, m)) == 0
    ensures
      var last := GroupAt(d.workgroups, n - 1);
      ExecAll(Programs(library, d)[..n], d.bindings, store)
      == (rc(last), WithByte(d, binding, index, value(StateOf(d), last), store))
  {
    var programs := Programs(library, d);
    var last := GroupAt(d.workgroups, n - 1);
    assert programs[..n][..n - 1] == programs[..n - 1];
    assert programs[n - 1] == Write(binding, index, value(StateOf(d), last), Done(rc(last)));
    OneWrite(d, binding, index, value(StateOf(d), last), rc(last), store);
    if n == 1 {
      assert programs[..0] == [];
    } else {
      var before := GroupAt(d.workgroups, n - 2);
      GroupsWrite(library, d, store, binding, index, value, rc, n - 1);
      WriteAgain(d, binding, index, value(StateOf(d), before), value(StateOf(d), last), store);
      OneWrite(d, binding, index, value(StateOf(d), last), rc(last),
               WithByte(d, binding, index, value(StateOf(d), before), store));
    }
  }

  /** The n-th workgroup is the first to fail: it has run, nothing after it has, and the dispatch fails. */
  lemma FirstFailureEndsDispatch<K>(
    library: Library, d: Dispatch<K>, store: Store<K>, binding: nat, index: nat,
    value: WorkgroupId -> Byte, rc: WorkgroupId -> int, n: nat)
    requires Launches(library, d, store) && InBinding(d, binding, index) && n < GridSize(d.workgroups)
    requires WritesOwnByte(library, d.ordinal, binding, index, (state, id) => value(id), rc)
    requires forall m: nat :: m < n ==> rc(GroupAt(d.workgroups, m)) == 0
    requires rc(GroupAt(d.workgroups, n)) != 0
    ensures IssueDispatch(library, d, store)
            == (DispatchFailed, WithByte(d, binding, index, value(GroupAt(d.workgroups, n)), store))
  {
    GroupsWrite(library, d, store, binding, index, (state, id) => value(id), rc, n + 1);
    FailedPrefixDecides(Programs(library, d), d.bindings, store, n + 1);
  }

  lemma {:induction false} FailedPrefixDecides<K>(
    programs: seq<Program>, views: seq<View<K>>, store: Store<K>, n: nat)
    requires ViewsFit(views, store) && n <= |programs| && ExecAll(programs[..n], views, store).0 != 0
    ensures ExecAll(programs, views, store) == ExecAll(programs[..n], views, store)
    decreases |programs|
  {
    if n == |programs| {
      assert programs[..n] == programs;
    } else {
      var m := |programs| - 1;
      assert programs[..m][..n] == programs[..n];
      FailedPrefixDecides(programs[..m], views, store, n);
    }
  }

  /** When none fails, all run, and the dispatch succeeds: the last workgroup's byte is left. */
  lemma LastGroupIsSeen<K>(
    library: Library, d: Dispatch<K>, store: Store<K>, binding: nat, index: nat,
    value: (DispatchState, WorkgroupId) -> Byte)
    requires Launches(library, d, store) && InBinding(d, binding, index)
    requires WritesOwnByte(library, d.ordinal, binding, index, value, id => 0)
    ensures
      var last := WorkgroupId(d.workgroups.x - 1, d.workgroups.y - 1, (d.workgroups.z - 1) % U16);
      IssueDispatch(library, d, store) == (OK, WithByte(d, binding, index, value(StateOf(d), last), store))
  {
    var g := d.workgroups;
    GridIsNotEmpty(g);
    GroupsWrite(library, d, store, binding, index, value, id => 0, GridSize(g));
    LastGroup(g);
    assert Programs(library, d)[..GridSize(g)] == Programs(library, d);
  }

  lemma LastGroup(g: Grid)
    requires g.x > 0 && g.y > 0 && g.z > 0 && GridSize(g) > 0
    ensures GroupAt(g, GridSize(g) - 1) == WorkgroupId(g.x - 1, g.y - 1, (g.z - 1) % U16)
  {
    var rows := g.y * g.z - 1;
    assert GridSize(g) - 1 == rows * g.x + (g.x - 1) by {
      assert g.x * g.y * g.z == g.x * (g.y * g.z);
      assert g.x * (g.y * g.z) == g.x * rows + g.x;
    }
    DivModUnique(rows, g.x, g.x - 1);
    assert rows == (g.z - 1) * g.y + (g.y - 1);
    DivModUnique(g.z - 1, g.y, g.y - 1);
  }

  /**
    A kernel that writes one number of its dispatch state, encoded by any function to bytes, leaves the
    number that the dispatch says.
   */
  lemma KernelSeesDispatch<K>(
    library: Library, d: Dispatch<K>, store: Store<K>, binding: nat, index: nat, f: Field, encode: nat -> Byte)
    requires Launches(library, d, store) && InBinding(d, binding, index) && HasField(f, d)
    requires WritesOwnByte(library, d.ordinal, binding, index, (state, id) => encode(Shown(f, state)), id => 0)
    ensures IssueDispatch(library, d, store) == (OK, WithByte(d, binding, index, encode(Said(f, d)), store))
  {
    var value := (state: DispatchState, id: WorkgroupId) => encode(Shown(f, state));
    LastGroupIsSeen(library, d, store, binding, index, value);
    var last := WorkgroupId(d.workgroups.x - 1, d.workgroups.y - 1, (d.workgroups.z - 1) % U16);
    StateShows(f, d);
    assert value(StateOf(d), last) == encode(Said(f, d));
  }

  lemma StateShows<K>(f: Field, d: Dispatch<K>)
    requires HasField(f, d)
    ensures Shown(f, StateOf(d)) == Said(f, d)
  {
  }

  // ---------- reading and writing ----------

  /** Every workgroup copies one byte of a binding to a position of a binding, and succeeds. */
  ghost predicate CopiesByte(library: Library, ordinal: nat, from: nat, i: nat, to: nat, j: nat)
    requires ordinal < |library.exports| && library.exports[ordinal].Some?
  {
    forall state, id {:trigger library.exports[ordinal].value(state, id)} ::
      IsCopy(library.exports[ordinal].value(state, id), from, i, to, j)
  }

  predicate IsCopy(p: Program, from: nat, i: nat, to: nat, j: nat) {
    && p.Read? && p.binding == from && p.index == i && |p.next| == 256
    && forall v :: 0 <= v < 256 ==> p.next[v] == Write(to, j, v, Done(0))
  }

  /** The byte at a position of a binding. */
  function ByteAt<K>(d: Dispatch<K>, binding: nat, index: nat, store: Store<K>): Byte
    requires ViewsFit(d.bindings, store) && InBinding(d, binding, index)
  {
    assert ViewFits(d.bindings[binding], store);
    store[d.bindings[binding].key][d.bindings[binding].offset + index]
  }

  lemma OneCopy<K>(d: Dispatch<K>, p: Program, from: nat, i: nat, to: nat, j: nat, store: Store<K>)
    requires ViewsFit(d.bindings, store) && InBinding(d, from, i) && InBinding(d, to, j) && IsCopy(p, from, i, to, j)
    ensures Exec(p, d.bindings, store) == (0, WithByte(d, to, j, ByteAt(d, from, i, store), store))
  {
    var v := ByteAt(d, from, i, store);
    assert ViewFits(d.bindings[from], store);
    assert ReadThrough(d.bindings, from, i, store) == v;
    assert p.next[v] == Write(to, j, v, Done(0));
    assert Exec(p, d.bindings, store) == Exec(p.next[v], d.bindings, store);
    OneWrite(d, to, j, v, 0, store);
  }

  lemma CopyAgain<K>(d: Dispatch<K>, from: nat, i: nat, to: nat, j: nat, store: Store<K>)
    requires ViewsFit(d.bindings, store) && InBinding(d, from, i) && InBinding(d, to, j)
    ensures
      var v := ByteAt(d, from, i, store);
      var copied := WithByte(d, to, j, v, store);
      ViewsFit(d.bindings, copied) && ByteAt(d, from, i, copied) == v && WithByte(d, to, j, v, copied) == copied
  {
    var v := ByteAt(d, from, i, store);
    WriteAgain(d, to, j, v, v, store);
    assert ViewFits(d.bindings[from], store) && ViewFits(d.bindings[to], store);
  }

  lemma {:induction false} GroupsCopy<K>(
    library: Library, d: Dispatch<K>, store: Store<K>, from: nat, i: nat, to: nat, j: nat, n: nat)
    requires Launches(library, d, store) && InBinding(d, from, i) && InBinding(d, to, j)
    requires CopiesByte(library, d.ordinal, from, i, to, j) && 0 < n <= GridSize(d.workgroups)
    ensures ExecAll(Programs(library, d)[..n], d.bindings, store)
            == (0, WithByte(d, to, j, ByteAt(d, from, i, store), store))
  {
    var programs := Programs(library, d);
    assert programs[..n][..n - 1] == programs[..n - 1];
    assert programs[n - 1] == library.exports[d.ordinal].value(StateOf(d), GroupAt(d.workgroups, n - 1));
    assert IsCopy(programs[n - 1], from, i, to, j);
    OneCopy(d, programs[n - 1], from, i, to, j, store);
    if n == 1 {
      assert programs[..0] == [];
    } else {
      GroupsCopy(library, d, store, from, i, to, j, n - 1);
      CopyAgain(d, from, i, to, j, store);
      OneCopy(d, programs[n - 1], from, i, to, j, WithByte(d, to, j, ByteAt(d, from, i, store), store));
    }
  }

  /** A kernel reads byte `i` of a binding and writes byte `j` of a binding, and no other byte changes. */
  lemma KernelMovesByte<K>(library: Library, d: Dispatch<K>, store: Store<K>, from: nat, i: nat, to: nat, j: nat)
    requires Launches(library, d, store) && InBinding(d, from, i) && InBinding(d, to, j)
    requires CopiesByte(library, d.ordinal, from, i, to, j)
    ensures IssueDispatch(library, d, store) == (OK, WithByte(d, to, j, ByteAt(d, from, i, store), store))
  {
    GridIsNotEmpty(d.workgroups);
    GroupsCopy(library, d, store, from, i, to, j, GridSize(d.workgroups));
    assert Programs(library, d)[..GridSize(d.workgroups)] == Programs(library, d);
  }

  // ---------- the other commands ----------

  /** A fill sets the bytes of its window to the low byte of its pattern and leaves all others. */
  lemma FillIsExact<K>(library: Library, target: View<K>, pattern: nat, store: Store<K>, key: K, b: nat)
    requires ValidLibrary(library) && ViewFits(target, store) && key in store && b < |store[key]|
    ensures
      var (status, after) := Issue(library, Work.Fill(target, pattern), store);
      && status == OK && key in after && |after[key]| == |store[key]|
      && after[key][b] == if key == target.key && target.offset <= b < target.offset + target.length
                          then pattern % 256 else store[key][b]
  {
  }
}
