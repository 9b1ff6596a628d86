/**
  One command on two stores: separate buffers, one per name, against a store into which the
  buffers are packed at fixed, mutually disjoint homes. Whatever the kernel does, and however its
  bindings alias, both stores stay in step and report the same status.
 */
module Simulation {
  import opened Machine
  import opened Schedule

  /** The home of a buffer is a window of a packed region. */
  type Homes = map<string, View<BufferClass>>

  ghost predicate Agrees(home: View<BufferClass>, packed: Store<BufferClass>, buffer: seq<Byte>) {
    && |buffer| == home.length
    && ViewFits(home, packed)
    && forall i :: 0 <= i < |buffer| ==> packed[home.key][home.offset + i] == buffer[i]
  }

  ghost predicate Linked(homes: Homes, packed: Store<BufferClass>, separate: Store<string>) {
    forall a :: a in homes ==> a in separate && Agrees(homes[a], packed, separate[a])
  }

  predicate Disjoint(a: View<BufferClass>, b: View<BufferClass>) {
    a.key != b.key || a.offset + a.length <= b.offset || b.offset + b.length <= a.offset
  }

  ghost predicate Apart(homes: Homes) {
    forall a, b :: a in homes && b in homes && a != b ==> Disjoint(homes[a], homes[b])
  }

  /** The window `v` of a buffer, seen in the packed store. */
  function Relocate(v: View<string>, home: View<BufferClass>): View<BufferClass> {
    View(home.key, home.offset + v.offset, v.length)
  }

  /** A window of a buffer that has a home. */
  predicate Settled(v: View<string>, homes: Homes) {
    v.key in homes && v.offset + v.length <= homes[v.key].length
  }

  predicate AllSettled(views: seq<View<string>>, homes: Homes) {
    forall i :: 0 <= i < |views| ==> Settled(views[i], homes)
  }

  function RelocateAll(views: seq<View<string>>, homes: Homes): (r: seq<View<BufferClass>>)
    requires AllSettled(views, homes)
  {
    seq(|views|, i requires 0 <= i < |views| => Relocate(views[i], homes[views[i].key]))
  }

  /** Buffers without a home are left alone. */
  ghost predicate OthersKept(homes: Homes, before: Store<string>, after: Store<string>) {
    forall a :: a in before && a !in homes ==> a in after && after[a] == before[a]
  }

  lemma SettledViewsFit(views: seq<View<string>>, homes: Homes, packed: Store<BufferClass>, separate: Store<string>)
    requires Linked(homes, packed, separate) && AllSettled(views, homes)
    ensures ViewsFit(views, separate) && ViewsFit(RelocateAll(views, homes), packed)
  {
  }

  lemma PokeStaysLinked(homes: Homes, packed: Store<BufferClass>, separate: Store<string>, a: string, i: nat, v: Byte)
    requires Linked(homes, packed, separate) && Apart(homes)
    requires a in homes && i < homes[a].length
    ensures Linked(homes, Poke(packed, homes[a].key, homes[a].offset + i, v), Poke(separate, a, i, v))
    ensures OthersKept(homes, separate, Poke(separate, a, i, v))
  {
    var packed', separate' := Poke(packed, homes[a].key, homes[a].offset + i, v), Poke(separate, a, i, v);
    forall b | b in homes
      ensures b in separate' && Agrees(homes[b], packed', separate'[b])
    {
      assert Agrees(homes[b], packed, separate[b]);
      if b != a {
        assert Disjoint(homes[a], homes[b]);
      }
    }
  }

  lemma ReadsAgree(
    views: seq<View<string>>, b: nat, i: nat, homes: Homes, packed: Store<BufferClass>, separate: Store<string>)
    requires Linked(homes, packed, separate) && AllSettled(views, homes)
    requires ViewsFit(views, separate) && ViewsFit(RelocateAll(views, homes), packed)
    ensures ReadThrough(RelocateAll(views, homes), b, i, packed) == ReadThrough(views, b, i, separate)
  {
    if b < |views| && i < views[b].length {
      assert Settled(views[b], homes);
      assert Agrees(homes[views[b].key], packed, separate[views[b].key]);
    }
  }

  lemma WriteStaysLinked(
    views: seq<View<string>>, b: nat, i: nat, v: Byte,
    homes: Homes, packed: Store<BufferClass>, separate: Store<string>)
    requires Linked(homes, packed, separate) && Apart(homes) && AllSettled(views, homes)
    requires ViewsFit(views, separate) && ViewsFit(RelocateAll(views, homes), packed)
    ensures Linked(homes, WriteThrough(RelocateAll(views, homes), b, i, v, packed),
                   WriteThrough(views, b, i, v, separate))
    ensures OthersKept(homes, separate, WriteThrough(views, b, i, v, separate))
  {
    if b < |views| && i < views[b].length {
      assert Settled(views[b], homes);
      var home := homes[views[b].key];
      assert RelocateAll(views, homes)[b] == Relocate(views[b], home);
      PokeStaysLinked(homes, packed, separate, views[b].key, views[b].offset + i, v);
      assert WriteThrough(RelocateAll(views, homes), b, i, v, packed)
             == Poke(packed, home.key, home.offset + (views[b].offset + i), v);
      assert WriteThrough(views, b, i, v, separate) == Poke(separate, views[b].key, views[b].offset + i, v);
    }
  }

  lemma {:induction false} ExecStaysLinked(
    p: Program, views: seq<View<string>>, homes: Homes, packed: Store<BufferClass>, separate: Store<string>)
    requires Linked(homes, packed, separate) && Apart(homes) && AllSettled(views, homes)
    ensures ViewsFit(views, separate) && ViewsFit(RelocateAll(views, homes), packed)
    ensures
      var (rc, packed') := Exec(p, RelocateAll(views, homes), packed);
      var (rc', separate') := Exec(p, views, separate);
      rc == rc' && Linked(homes, packed', separate') && OthersKept(homes, separate, separate')
    decreases p
  {
    SettledViewsFit(views, homes, packed, separate);
    match p
    case Done(_) =>
    case Read(b, i, next) =>
      var v := ReadThrough(views, b, i, separate);
      ReadsAgree(views, b, i, homes, packed, separate);
      if v < |next| {
        ExecStaysLinked(next[v], views, homes, packed, separate);
      }
    case Write(b, i, v, rest) =>
      WriteStaysLinked(views, b, i, v, homes, packed, separate);
      ExecStaysLinked(rest, views, homes, WriteThrough(RelocateAll(views, homes), b, i, v, packed),
                      WriteThrough(views, b, i, v, separate));
  }

  lemma {:induction false} ExecAllStaysLinked(
    programs: seq<Program>, views: seq<View<string>>, homes: Homes,
    packed: Store<BufferClass>, separate: Store<string>)
    requires Linked(homes, packed, separate) && Apart(homes) && AllSettled(views, homes)
    ensures ViewsFit(views, separate) && ViewsFit(RelocateAll(views, homes), packed)
    ensures
      var (rc, packed') := ExecAll(programs, RelocateAll(views, homes), packed);
      var (rc', separate') := ExecAll(programs, views, separate);
      rc == rc' && Linked(homes, packed', separate') && OthersKept(homes, separate, separate')
  {
    SettledViewsFit(views, homes, packed, separate);
    if programs != [] {
      var n := |programs| - 1;
      ExecAllStaysLinked(programs[..n], views, homes, packed, separate);
      var (rc, packed') := ExecAll(programs[..n], RelocateAll(views, homes), packed);
      var (rc', separate') := ExecAll(programs[..n], views, separate);
      ExecStaysLinked(programs[n], views, homes, packed', separate');
    }
  }

  predicate WorkSettled(work: Work<string>, homes: Homes) {
    match work
    case Launch(d) => AllSettled(d.bindings, homes)
    case Fill(target, _) => Settled(target, homes)
    case Malformed => true
  }

  function RelocateDispatch(d: Dispatch<string>, homes: Homes): Dispatch<BufferClass>
    requires AllSettled(d.bindings, homes)
  {
    Dispatch(d.ordinal, d.workgroups, d.constants, RelocateAll(d.bindings, homes))
  }

  function RelocateWork(work: Work<string>, homes: Homes): Work<BufferClass>
    requires WorkSettled(work, homes)
  {
    match work
    case Launch(d) => Launch(RelocateDispatch(d, homes))
    case Fill(target, pattern) => Work.Fill(Relocate(target, homes[target.key]), pattern)
    case Malformed => Malformed
  }

  /** A relocated dispatch launches the same programs: kernels see lengths, not addresses. */
  lemma RelocationKeepsPrograms(library: Library, d: Dispatch<string>, homes: Homes)
    requires ValidLibrary(library) && AllSettled(d.bindings, homes)
    ensures SupportedDispatch(library, d) == SupportedDispatch(library, RelocateDispatch(d, homes))
    ensures SupportedDispatch(library, d) ==> Programs(library, d) == Programs(library, RelocateDispatch(d, homes))
  {
    assert Lengths(d.bindings) == Lengths(RelocateAll(d.bindings, homes));
    assert StateOf(d) == StateOf(RelocateDispatch(d, homes));
  }

  lemma FillStaysLinked(
    target: View<string>, value: Byte, homes: Homes, packed: Store<BufferClass>, separate: Store<string>)
    requires Linked(homes, packed, separate) && Apart(homes) && Settled(target, homes)
    ensures ViewFits(target, separate) && ViewFits(Relocate(target, homes[target.key]), packed)
    ensures
      var packed' := FillView(Relocate(target, homes[target.key]), value, packed);
      var separate' := FillView(target, value, separate);
      Linked(homes, packed', separate') && OthersKept(homes, separate, separate')
  {
    SettledViewFits(target, homes, packed, separate);
    var packed' := FillView(Relocate(target, homes[target.key]), value, packed);
    var separate' := FillView(target, value, separate);
    forall b | b in homes
      ensures b in separate' && Agrees(homes[b], packed', separate'[b])
    {
      if b == target.key {
        FillOfItsOwn(target, value, homes[b], packed, separate);
      } else {
        assert Disjoint(homes[target.key], homes[b]);
        FillOfAnother(target, value, homes[target.key], homes[b], packed, separate[b]);
      }
    }
  }

  lemma SettledViewFits(v: View<string>, homes: Homes, packed: Store<BufferClass>, separate: Store<string>)
    requires Linked(homes, packed, separate) && Settled(v, homes)
    ensures ViewFits(v, separate) && ViewFits(Relocate(v, homes[v.key]), packed)
  {
    assert Agrees(homes[v.key], packed, separate[v.key]);
  }

  /** The filled buffer and its home. */
  lemma FillOfItsOwn(
    target: View<string>, value: Byte, home: View<BufferClass>, packed: Store<BufferClass>, separate: Store<string>)
    requires ViewFits(target, separate) && ViewFits(Relocate(target, home), packed)
    requires target.offset + target.length <= home.length && Agrees(home, packed, separate[target.key])
    ensures Agrees(home, FillView(Relocate(target, home), value, packed), FillView(target, value, separate)[target.key])
  {
    var filled := FillView(Relocate(target, home), value, packed)[home.key];
    var buffer := FillView(target, value, separate)[target.key];
    forall i | 0 <= i < |buffer|
      ensures filled[home.offset + i] == buffer[i]
    {
      assert packed[home.key][home.offset + i] == separate[target.key][i];
    }
  }

  /** A home apart from the one that is filled. */
  lemma FillOfAnother(
    target: View<string>, value: Byte, filledHome: View<BufferClass>, home: View<BufferClass>,
    packed: Store<BufferClass>, buffer: seq<Byte>)
    requires ViewFits(Relocate(target, filledHome), packed) && Agrees(home, packed, buffer)
    requires target.offset + target.length <= filledHome.length && Disjoint(filledHome, home)
    ensures Agrees(home, FillView(Relocate(target, filledHome), value, packed), buffer)
  {
  }

  /** One command: same status, still in step, buffers without a home untouched. */
  lemma IssueStaysLinked(
    library: Library, work: Work<string>, homes: Homes, packed: Store<BufferClass>, separate: Store<string>)
    requires ValidLibrary(library)
    requires Linked(homes, packed, separate) && Apart(homes) && WorkSettled(work, homes)
    ensures
      var (status, packed') := Issue(library, RelocateWork(work, homes), packed);
      var (status', separate') := Issue(library, work, separate);
      status == status' && status != InvalidSlice
      && Linked(homes, packed', separate') && OthersKept(homes, separate, separate')
  {
    match work
    case Launch(d) =>
      RelocationKeepsPrograms(library, d, homes);
      SettledViewsFit(d.bindings, homes, packed, separate);
      if SupportedDispatch(library, d) {
        ExecAllStaysLinked(Programs(library, d), d.bindings, homes, packed, separate);
      }
    case Fill(target, pattern) =>
      FillStaysLinked(target, pattern % 256, homes, packed, separate);
    case Malformed =>
  }
}
