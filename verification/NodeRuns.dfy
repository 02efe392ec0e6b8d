/** Whole runs of one storage node: what every sequence of saves and deletes keeps. */
module NodeRuns {
  import opened Common
  import opened FileTree
  import opened Storage

  datatype NodeOp =
    | Put(file: string, chunk: int, data: Bytes, write: Write)
    | Del(file: string)

  ghost predicate Healthy(op: NodeOp) {
    op.Put? ==> !Partial(op.data, op.write)
  }

  ghost predicate HealthyRun(ops: seq<NodeOp>) {
    forall i :: 0 <= i < |ops| ==> Healthy(ops[i])
  }

  ghost predicate DisciplinedOp(n: Node, op: NodeOp) {
    op.Put? ==> Disciplined(n, op.file, op.chunk, op.data, op.write)
  }

  ghost function Apply(n: Node, op: NodeOp): Node {
    match op
    case Put(f, c, data, w) => Save(n, f, c, data, w).0
    case Del(f) => Delete(n, f).0
  }

  /** The node after a run from the empty index and the empty disk. */
  ghost function After(ops: seq<NodeOp>): Node {
    if ops == [] then EMPTY_NODE else Apply(After(ops[..|ops| - 1]), ops[|ops| - 1])
  }

  ghost predicate Defined(n: Node, op: NodeOp) {
    op.Put? ==> Save(n, op.file, op.chunk, op.data, op.write).1 != Undefined
  }

  /** No save of the run pushes onto entry -1; beyond such a save the code has no behaviour to speak of. */
  ghost predicate DefinedRun(ops: seq<NodeOp>) {
    forall i :: 0 <= i < |ops| ==> Defined(After(ops[..i]), ops[i])
  }

  ghost predicate Orphans(n: Node, op: NodeOp) {
    op.Put? && LeavesOrphan(n, op.file, op.chunk, op.data, op.write)
  }

  /** No short write ever starts a file. */
  ghost predicate OrphanFree(ops: seq<NodeOp>) {
    forall i :: 0 <= i < |ops| ==> !Orphans(After(ops[..i]), ops[i])
  }

  lemma AfterOneMore(ops: seq<NodeOp>, op: NodeOp)
    ensures After(ops + [op]) == Apply(After(ops), op)
  {
    assert (ops + [op])[..|ops|] == ops;
  }

  lemma DefinedPrefix(ops: seq<NodeOp>, k: nat)
    requires k <= |ops|
    ensures DefinedRun(ops) ==> DefinedRun(ops[..k])
    ensures OrphanFree(ops) ==> OrphanFree(ops[..k])
  {
    assert forall i :: 0 <= i < k ==> ops[..k][..i] == ops[..i];
  }

  lemma DefinedOneMore(ops: seq<NodeOp>, op: NodeOp)
    ensures DefinedRun(ops + [op]) <==> DefinedRun(ops) && Defined(After(ops), op)
    ensures OrphanFree(ops + [op]) <==> OrphanFree(ops) && !Orphans(After(ops), op)
  {
    hide After, Defined, Orphans;
    var more := ops + [op];
    assert more[..|ops|] == ops && more[|ops|] == op;
    assert forall i :: 0 <= i < |ops| ==> more[..i] == ops[..i] && more[i] == ops[i];
    if DefinedRun(more) {
      forall i | 0 <= i < |ops| ensures Defined(After(ops[..i]), ops[i]) {
        assert Defined(After(more[..i]), more[i]);
      }
      assert Defined(After(more[..|ops|]), more[|ops|]);
    }
    if OrphanFree(more) {
      forall i | 0 <= i < |ops| ensures !Orphans(After(ops[..i]), ops[i]) {
        assert !Orphans(After(more[..i]), more[i]);
      }
      assert !Orphans(After(more[..|ops|]), more[|ops|]);
    }
  }

  lemma StepKeepsSound(n: Node, op: NodeOp)
    requires Sound(n) && Defined(n, op)
    ensures Sound(Apply(n, op))
  {
    match op
    case Put(f, c, data, w) => SaveKeepsSound(n, f, c, data, w);
    case Del(f) => DeleteEffect(n, f);
  }

  /** Every defined run, with any number of failing and short writes, ends in a sound node. */
  lemma {:induction false} DefinedRunsAreSound(ops: seq<NodeOp>)
    requires DefinedRun(ops)
    ensures Sound(After(ops))
  {
    hide Sound, Defined, Apply;
    if ops != [] {
      DefinedPrefix(ops, |ops| - 1);
      DefinedRunsAreSound(ops[..|ops| - 1]);
      assert Defined(After(ops[..|ops| - 1]), ops[|ops| - 1]);
      StepKeepsSound(After(ops[..|ops| - 1]), ops[|ops| - 1]);
    } else {
      EmptyIsConsistent();
    }
  }

  lemma StepKeepsConsistentIff(n: Node, op: NodeOp)
    requires Consistent(n)
    ensures Defined(n, op)
    ensures Consistent(Apply(n, op)) <==> !Orphans(n, op)
  {
    match op
    case Put(f, c, data, w) =>
      ConsistentIsDefined(n, f, c, data, w);
      SaveKeepsConsistentIff(n, f, c, data, w);
    case Del(f) => DeleteEffect(n, f);
  }

  lemma {:induction false} OrphanFreeIsConsistent(ops: seq<NodeOp>)
    requires OrphanFree(ops)
    ensures DefinedRun(ops) && Consistent(After(ops))
  {
    hide Consistent, Defined, Orphans, Apply;
    if ops != [] {
      var init, op := ops[..|ops| - 1], ops[|ops| - 1];
      assert ops == init + [op];
      DefinedPrefix(ops, |ops| - 1);
      OrphanFreeIsConsistent(init);
      assert !Orphans(After(init), op);
      StepKeepsConsistentIff(After(init), op);
      DefinedOneMore(init, op);
    } else {
      EmptyIsConsistent();
    }
  }

  lemma EmptyIsConsistent()
    ensures Sound(EMPTY_NODE) && Consistent(EMPTY_NODE)
  {
  }

  /** Index names and non-empty directories match at every moment of a run exactly when it starts no file short. */
  lemma ConsistentThroughoutIff(ops: seq<NodeOp>)
    ensures (forall k :: 0 <= k <= |ops| ==> Consistent(After(ops[..k]))) <==> OrphanFree(ops)
  {
    hide Consistent, Orphans, After;
    if OrphanFree(ops) {
      forall k | 0 <= k <= |ops| ensures Consistent(After(ops[..k])) {
        DefinedPrefix(ops, k);
        OrphanFreeIsConsistent(ops[..k]);
      }
    } else {
      var bad := set i | 0 <= i < |ops| && Orphans(After(ops[..i]), ops[i]);
      var some :| 0 <= some < |ops| && Orphans(After(ops[..some]), ops[some]);
      var k := Smallest(bad, some);
      forall i | 0 <= i < k ensures !Orphans(After(ops[..k][..i]), ops[..k][i]) {
        assert ops[..k][..i] == ops[..i] && i !in bad;
      }
      OrphanFreeIsConsistent(ops[..k]);
      StepKeepsConsistentIff(After(ops[..k]), ops[k]);
      assert ops[..k + 1] == ops[..k] + [ops[k]];
      AfterOneMore(ops[..k], ops[k]);
      assert !Consistent(After(ops[..k + 1]));
    }
  }

  /** In every run without half-written chunks the index names exactly the non-empty directories. */
  lemma HealthyRunsAreConsistent(ops: seq<NodeOp>)
    requires HealthyRun(ops)
    ensures OrphanFree(ops) && DefinedRun(ops) && Consistent(After(ops))
  {
    assert OrphanFree(ops);
    OrphanFreeIsConsistent(ops);
  }

  /** Whatever comes next is defined if and only if the index has an entry or no directory has a file. */
  lemma DefinedRunExtendsIff(ops: seq<NodeOp>)
    requires DefinedRun(ops)
    ensures (forall op :: DefinedRun(ops + [op])) <==>
      After(ops).index != [] || forall f :: !HasFiles(After(ops).tree, f)
  {
    hide After, HasFiles;
    var n := After(ops);
    EverySaveIsDefinedIff(n);
    forall op ensures DefinedRun(ops + [op]) <==> Defined(n, op) {
      DefinedOneMore(ops, op);
    }
    if forall op :: DefinedRun(ops + [op]) {
      forall f, c, data, w ensures Save(n, f, c, data, w).1 != Undefined {
        assert DefinedRun(ops + [Put(f, c, data, w)]);
      }
    }
  }

  /**
   A write of any kind at the end of a consistent run leaves every continuation defined if and only if it is
   not a short write of a missing chunk into a node whose index is empty, be the node fresh or emptied.
   */
  lemma ShortWriteIff(ops: seq<NodeOp>, f: string, c: int, data: Bytes, w: Write)
    requires OrphanFree(ops)
    ensures DefinedRun(ops + [Put(f, c, data, w)])
    ensures (forall op :: DefinedRun(ops + [Put(f, c, data, w)] + [op])) <==>
      !(Partial(data, w) && !OnDisk(After(ops).tree, f, c) && After(ops).index == [])
  {
    hide After, HasFiles, EverySaveIsDefined;
    var more := ops + [Put(f, c, data, w)];
    OrphanFreeIsConsistent(ops);
    NextSaveIsDefinedIff(After(ops), f, c, data, w);
    DefinedOneMore(ops, Put(f, c, data, w));
    AfterOneMore(ops, Put(f, c, data, w));
    DefinedRunExtendsIff(more);
    EverySaveIsDefinedIff(After(more));
  }

  /** The failing run: into an empty index a first chunk is cut short, then any other chunk of the file follows. */
  lemma ShortWriteMakesNextSaveUndefined(ops: seq<NodeOp>, f: string, c: int, d: int, x: Bytes, k: nat, y: Bytes)
    requires OrphanFree(ops) && After(ops).index == [] && c != d && k < |x| && y != []
    ensures !DefinedRun(ops + [Put(f, c, x, Wrote(k))] + [Put(f, d, y, Wrote(|y|))])
  {
    var n, short := After(ops), Put(f, c, x, Wrote(k));
    OrphanFreeIsConsistent(ops);
    NothingWithoutEntries(n, f);
    SoundParts(n);
    WriteTree(n.tree, f, c, x[..k]);
    AfterOneMore(ops, short);
    assert HasFiles(After(ops + [short]).tree, f) && !OnDisk(After(ops + [short]).tree, f, d);
    DefinedOneMore(ops + [short], Put(f, d, y, Wrote(|y|)));
  }

  lemma NothingWithoutEntries(n: Node, f: string)
    requires Consistent(n) && n.index == []
    ensures forall c :: !OnDisk(n.tree, f, c)
  {
    assert !Named(n.index, f);
    HasFilesMeansOnDisk(n.tree, f);
  }

  ghost predicate DisciplinedRun(ops: seq<NodeOp>) {
    forall k :: 0 <= k < |ops| ==> DisciplinedOp(After(ops[..k]), ops[k])
  }

  // Delete

  /** The position remove_from_struct finds, or the length of the index when the name is absent. */
  function FirstNamed(index: seq<FileMapping>, f: string): (i: nat)
    ensures i <= |index|
    ensures i < |index| ==> index[i].filename == f
  {
    if index == [] || index[0].filename == f then 0 else 1 + FirstNamed(index[1..], f)
  }

  lemma {:induction false} FirstNamedIsFirst(index: seq<FileMapping>, f: string)
    ensures forall j :: 0 <= j < FirstNamed(index, f) ==> index[j].filename != f
  {
    if index != [] && index[0].filename != f {
      FirstNamedIsFirst(index[1..], f);
      forall j | 0 <= j < FirstNamed(index, f) ensures index[j].filename != f {
        assert j > 0 ==> index[j] == index[1..][j - 1];
      }
    }
  }

  function Cut(index: seq<FileMapping>, i: nat): seq<FileMapping>
    requires i <= |index|
  {
    if i == |index| then index else index[..i] + index[i + 1..]
  }

  lemma CutTail(index: seq<FileMapping>, i: nat)
    requires index != [] && i <= |index| - 1
    ensures [index[0]] + Cut(index[1..], i) == Cut(index, i + 1)
  {
    var rest := index[1..];
    if i == |rest| {
      assert [index[0]] + rest == index;
    } else {
      assert [index[0]] + rest[..i] == index[..i + 1] && rest[i + 1..] == index[i + 2..];
    }
  }

  /** Removal is the index without the first entry of the name, or the whole index. */
  lemma {:induction false} RemoveEntryCutsOne(index: seq<FileMapping>, f: string)
    ensures RemoveEntry(index, f) == Cut(index, FirstNamed(index, f))
  {
    if index != [] && index[0].filename != f {
      hide RemoveEntry, FirstNamed, Cut;
      RemoveEntryCutsOne(index[1..], f);
      SkipFirst(index, f);
      CutTail(index, FirstNamed(index[1..], f));
    } else if index != [] {
      assert index[..0] + index[1..] == index[1..];
    }
  }

  lemma SkipFirst(index: seq<FileMapping>, f: string)
    requires index != [] && index[0].filename != f
    ensures RemoveEntry(index, f) == [index[0]] + RemoveEntry(index[1..], f)
    ensures FirstNamed(index, f) == FirstNamed(index[1..], f) + 1
  {
  }

  /** What a search that stops at the first hit has found is what removal cuts out. */
  lemma RemovedAt(index: seq<FileMapping>, f: string, i: nat)
    requires i <= |index| && (i < |index| ==> index[i].filename == f)
    requires forall j :: 0 <= j < i ==> index[j].filename != f
    ensures RemoveEntry(index, f) == Cut(index, i)
  {
    RemoveEntryCutsOne(index, f);
    FirstNamedIsFirst(index, f);
  }

  lemma CutKeepsUnique(index: seq<FileMapping>, i: nat)
    requires UniqueNames(index) && i < |index|
    ensures UniqueNames(index[..i] + index[i + 1..])
    ensures forall e :: e in index[..i] + index[i + 1..] ==> e.filename != index[i].filename
  {
    var r := index[..i] + index[i + 1..];
    assert forall j :: 0 <= j < |r| ==> r[j] == index[if j < i then j else j + 1];
  }

  lemma RemoveEntryEffect(index: seq<FileMapping>, f: string)
    requires UniqueNames(index)
    ensures UniqueNames(RemoveEntry(index, f))
    ensures forall e :: e in RemoveEntry(index, f) <==> e in index && e.filename != f
  {
    var i := FirstNamed(index, f);
    RemoveEntryCutsOne(index, f);
    FirstNamedIsFirst(index, f);
    if i < |index| {
      CutElements(index, i);
      CutKeepsUnique(index, i);
    } else {
      NamesDiffer(index, f);
    }
  }

  lemma NamesDiffer(index: seq<FileMapping>, f: string)
    requires forall j :: 0 <= j < |index| ==> index[j].filename != f
    ensures forall e :: e in index ==> e.filename != f
  {
  }

  /** Delete is exact: f is gone from disk and index, every other file keeps its chunks, bytes and order. */
  lemma DeleteEffect(n: Node, f: string)
    requires Sound(n)
    ensures var (m, ok) := Delete(n, f);
      && Sound(m)
      && (Consistent(n) ==> Consistent(m))
      && (ok <==> [f] in n.tree)
      && !Named(m.index, f)
      && (forall c :: !OnDisk(m.tree, f, c))
      && (forall g, c :: g != f ==>
            && (Indexed(m.index, g, c) <==> Indexed(n.index, g, c))
            && (OnDisk(m.tree, g, c) <==> OnDisk(n.tree, g, c))
            && Lookup(m, g, c) == Lookup(n, g, c))
      && m.index == Cut(n.index, FirstNamed(n.index, f))
  {
    hide Consistent, Sound, Flat, UniqueNames, HasFiles, Named, Indexed, FirstNamed, RemoveEntry;
    RemoveEntryCutsOne(n.index, f);
    SoundParts(n);
    if IsDir(n.tree, [f]) {
      EntryIsRemoved(n.index, f);
      SubtreeIsRemoved(n.tree, f);
      DeleteKeepsSound(n, f);
    } else {
      NothingToDelete(n, f);
    }
    assert [f] in n.tree <==> IsDir(n.tree, [f]) by {
      FlatTopLevel(n.tree, f);
    }
  }

  lemma FlatTopLevel(t: Tree, f: string)
    requires Flat(t)
    ensures [f] in t <==> IsDir(t, [f])
  {
  }

  lemma EntryIsRemoved(index: seq<FileMapping>, f: string)
    requires UniqueNames(index)
    ensures !Named(RemoveEntry(index, f), f)
    ensures forall g :: g != f ==> (Named(RemoveEntry(index, f), g) <==> Named(index, g))
    ensures forall g, c :: g != f ==> (Indexed(RemoveEntry(index, f), g, c) <==> Indexed(index, g, c))
  {
    hide RemoveEntry, UniqueNames;
    RemoveEntryEffect(index, f);
  }

  lemma SubtreeIsRemoved(t: Tree, f: string)
    ensures forall c :: !OnDisk(Without(t, [f]), f, c)
    ensures forall g, c :: g != f ==>
      var p := ChunkPath(g, c);
      (p in Without(t, [f]) <==> p in t) && (p in t ==> Without(t, [f])[p] == t[p])
  {
    forall p: Path ensures [f] <= p <==> p != [] && p[0] == f {}
  }

  lemma DeleteKeepsSound(n: Node, f: string)
    requires Sound(n) && IsDir(n.tree, [f])
    ensures Sound(Delete(n, f).0)
    ensures Consistent(n) ==> Consistent(Delete(n, f).0)
  {
    var m := Delete(n, f).0;
    RemoveEntryEffect(n.index, f);
    EntryIsRemoved(n.index, f);
    WithoutStaysFlat(n.tree, f);
    hide Flat, UniqueNames, Named, RemoveEntry, Indexed;
    forall g
      ensures HasFiles(m.tree, g) <==> g != f && HasFiles(n.tree, g)
      ensures Named(m.index, g) <==> g != f && Named(n.index, g)
    {
      if g != f {
        OtherFilesStay(n.tree, f, g);
      } else {
        assert forall p :: p in m.tree ==> !([f] <= p);
      }
    }
  }

  lemma WithoutStaysFlat(t: Tree, f: string)
    requires Flat(t)
    ensures Flat(Without(t, [f]))
  {
    var u := Without(t, [f]);
    forall p | p in u && |p| == 2 ensures [p[0]] in u {
      assert [f] <= p <==> p[0] == f;
    }
  }

  lemma NothingToDelete(n: Node, f: string)
    requires Sound(n) && !IsDir(n.tree, [f])
    ensures !Named(n.index, f) && RemoveEntry(n.index, f) == n.index
    ensures forall c :: !OnDisk(n.tree, f, c)
  {
    forall c ensures !OnDisk(n.tree, f, c) {
      assert ChunkPath(f, c)[0] == f;
    }
    HasFilesMeansOnDisk(n.tree, f);
    NotNamed(n.index, f);
    AbsentEntryStays(n.index, f);
  }

  lemma OtherFilesStay(t: Tree, f: string, g: string)
    requires g != f
    ensures HasFiles(Without(t, [f]), g) <==> HasFiles(t, g)
  {
    if HasFiles(t, g) {
      var p :| p in t && |p| == 2 && p[0] == g && t[p].Regular?;
      assert p in Without(t, [f]);
    }
  }

  lemma {:induction false} AbsentEntryStays(index: seq<FileMapping>, f: string)
    requires forall i :: 0 <= i < |index| ==> index[i].filename != f
    ensures RemoveEntry(index, f) == index
  {
    if index != [] {
      AbsentEntryStays(index[1..], f);
    }
  }

  // Whole runs

  lemma DisciplinedIsNoOrphan(n: Node, op: NodeOp)
    requires Flat(n.tree) && DisciplinedOp(n, op)
    ensures !Orphans(n, op)
  {
    if op.Put? {
      HasFilesMeansOnDisk(n.tree, op.file);
    }
  }

  lemma StepKeepsAgreementIff(n: Node, op: NodeOp)
    requires Consistent(n) && Agrees(n) && DistinctChunks(n.index)
    ensures Agrees(Apply(n, op)) <==> DisciplinedOp(n, op)
    ensures DisciplinedOp(n, op) ==> Consistent(Apply(n, op)) && DistinctChunks(Apply(n, op).index)
  {
    StepKeepsConsistentIff(n, op);
    SoundParts(n);
    if DisciplinedOp(n, op) {
      DisciplinedIsNoOrphan(n, op);
    }
    hide Consistent, Sound;
    match op
    case Put(f, c, data, w) =>
      SaveKeepsAgreementIff(n, f, c, data, w);
      if DisciplinedOp(n, op) {
        SaveKeepsDistinct(n, f, c, data, w);
      }
    case Del(f) =>
      DeleteKeepsAgreement(n, f);
  }

  lemma DeleteKeepsAgreement(n: Node, f: string)
    requires Sound(n) && Agrees(n) && DistinctChunks(n.index)
    ensures Agrees(Delete(n, f).0) && DistinctChunks(Delete(n, f).0.index)
  {
    DeleteEffect(n, f);
    if [f] in n.tree {
      RemoveEntryEffect(n.index, f);
    }
  }

  /** Every disciplined run from empty ends with index and disk in agreement and no chunk listed twice. */
  lemma {:induction false} DisciplinedRunsAgree(ops: seq<NodeOp>)
    requires DisciplinedRun(ops)
    ensures Agrees(After(ops)) && DistinctChunks(After(ops).index) && Consistent(After(ops))
  {
    if ops != [] {
      var k := |ops| - 1;
      var init := ops[..k];
      forall i | 0 <= i < k ensures DisciplinedOp(After(init[..i]), init[i]) {
        assert init[..i] == ops[..i];
      }
      DisciplinedRunsAgree(init);
      assert DisciplinedOp(After(ops[..k]), ops[k]);
      StepKeepsAgreementIff(After(init), ops[k]);
    }
  }

  /** Index and disk agree at every moment of a run, whatever its writes do, exactly when the run is disciplined. */
  lemma AgreeThroughoutIff(ops: seq<NodeOp>)
    ensures (forall k :: 0 <= k <= |ops| ==> Agrees(After(ops[..k]))) <==> DisciplinedRun(ops)
  {
    hide Agrees, DisciplinedOp, Consistent, DistinctChunks, After;
    if DisciplinedRun(ops) {
      forall k | 0 <= k <= |ops| ensures Agrees(After(ops[..k])) {
        PrefixIsDisciplined(ops, k);
        DisciplinedRunsAgree(ops[..k]);
      }
    } else {
      var bad := set i | 0 <= i < |ops| && !DisciplinedOp(After(ops[..i]), ops[i]);
      var some :| 0 <= some < |ops| && !DisciplinedOp(After(ops[..some]), ops[some]);
      var k := Smallest(bad, some);
      forall i | 0 <= i < k ensures DisciplinedOp(After(ops[..k][..i]), ops[..k][i]) {
        assert ops[..k][..i] == ops[..i] && i !in bad;
      }
      DisciplinedRunsAgree(ops[..k]);
      StepKeepsAgreementIff(After(ops[..k]), ops[k]);
      assert ops[..k + 1] == ops[..k] + [ops[k]];
      AfterOneMore(ops[..k], ops[k]);
      assert !Agrees(After(ops[..k + 1]));
    }
  }

  lemma PrefixIsDisciplined(ops: seq<NodeOp>, k: nat)
    requires DisciplinedRun(ops) && k <= |ops|
    ensures DisciplinedRun(ops[..k])
  {
    assert forall i :: 0 <= i < k ==> ops[..k][..i] == ops[..i];
  }

  lemma SaveKeepsDistinct(n: Node, f: string, c: int, data: Bytes, w: Write)
    requires Agrees(n) && DistinctChunks(n.index) && Disciplined(n, f, c, data, w)
    ensures DistinctChunks(Save(n, f, c, data, w).0.index)
  {
    var m := Save(n, f, c, data, w).0;
    if m.index != n.index {
      assert !Indexed(n.index, f, c);
      forall e | e in m.index ensures NoDuplicates(e.chunkIds) {
        var i :| 0 <= i < |m.index| && m.index[i] == e;
        if i < |n.index| {
          assert n.index[i] in n.index;
        }
      }
    }
  }

  function Full(f: string, c: int, data: Bytes): NodeOp {
    Put(f, c, data, Wrote(|data|))
  }

  /** After f and g took turns once, f's second chunk is on disk and filed under g. */
  ghost predicate OneTurnMisfiled(n: Node, f: string, g: string) {
    && n.index == [FileMapping(f, [0])] + [FileMapping(g, [0, 1])]
    && forall h, d :: OnDisk(n.tree, h, d) <==> (h == f && (d == 0 || d == 1)) || (h == g && d == 0)
  }

  /** Any two files uploaded turn by turn: the last chunk of f is filed under g and can no longer be read. */
  lemma InterleavedUploadMisfiled(ops: seq<NodeOp>, f: string, g: string, x: Bytes, y: Bytes, z: Bytes)
    requires f != g && x != [] && y != [] && z != []
    requires ops == [Full(f, 0, x), Full(g, 0, y), Full(f, 1, z)]
    ensures HealthyRun(ops) && OneTurnMisfiled(After(ops), f, g)
    ensures OnDisk(After(ops).tree, f, 1) && Lookup(After(ops), f, 1) == None
    ensures Indexed(After(ops).index, g, 1) && !OnDisk(After(ops).tree, g, 1)
  {
    TwoFilesStarted(ops[..2], f, g, x, y);
    HealthyRunsAreConsistent(ops[..2]);
    ThirdUploadMisfiled(After(ops[..2]), f, g, z);
    assert Healthy(ops[2]) && After(ops) == Apply(After(ops[..2]), ops[2]);
  }

  lemma ThirdUploadMisfiled(n: Node, f: string, g: string, z: Bytes)
    requires f != g && z != [] && Consistent(n) && HasFiles(n.tree, f)
    requires n.index == [FileMapping(f, [0])] + [FileMapping(g, [0])]
    requires forall h, d :: OnDisk(n.tree, h, d) <==> d == 0 && (h == f || h == g)
    ensures var m := Apply(n, Full(f, 1, z));
      && OneTurnMisfiled(m, f, g)
      && OnDisk(m.tree, f, 1) && Lookup(m, f, 1) == None && Indexed(m.index, g, 1) && !OnDisk(m.tree, g, 1)
  {
    WriteTree(n.tree, f, 1, z);
    LastInsert([FileMapping(f, [0])], FileMapping(g, [0]), f, 1);
    assert [0] + [1] == [0, 1];
    OnlyZeroOf(Insert(n.index, f, 1, true), f, g);
  }

  /** With g's turn to follow, g's own second chunk hides the misfiled id: all that g lists is there. */
  lemma NextTurnHidesIt(ops: seq<NodeOp>, f: string, g: string, x: Bytes, y: Bytes, z: Bytes, u: Bytes)
    requires f != g && x != [] && y != [] && z != [] && u != []
    requires ops == [Full(f, 0, x), Full(g, 0, y), Full(f, 1, z)] + [Full(g, 1, u)]
    ensures HealthyRun(ops)
    ensures After(ops).index == [FileMapping(f, [0])] + [FileMapping(g, [0, 1, 1])]
    ensures forall h, d :: OnDisk(After(ops).tree, h, d) <==> (h == f || h == g) && (d == 0 || d == 1)
  {
    var three := [Full(f, 0, x), Full(g, 0, y), Full(f, 1, z)];
    assert forall i :: 0 <= i < |ops| ==> Healthy(ops[i]);
    InterleavedUploadMisfiled(three, f, g, x, y, z);
    HealthyRunsAreConsistent(three);
    AfterOneMore(three, Full(g, 1, u));
    hide After, Healthy, OneTurnMisfiled;
    FourthUpload(After(three), f, g, u);
  }

  lemma FourthUpload(n: Node, f: string, g: string, u: Bytes)
    requires f != g && u != [] && Consistent(n) && OneTurnMisfiled(n, f, g)
    ensures var m := Apply(n, Full(g, 1, u));
      && m.index == [FileMapping(f, [0])] + [FileMapping(g, [0, 1, 1])]
      && forall h, d :: OnDisk(m.tree, h, d) <==> (h == f || h == g) && (d == 0 || d == 1)
  {
    SoundParts(n);
    hide Consistent, Sound;
    HasFilesMeansOnDisk(n.tree, g);
    assert OnDisk(n.tree, g, 0);
    WriteTree(n.tree, g, 1, u);
    LastInsert([FileMapping(f, [0])], FileMapping(g, [0, 1]), g, 1);
    assert [0, 1] + [1] == [0, 1, 1];
  }

  /**
   What a short write and a misfiled id can do together: f's chunk 1 is cut to k bytes, then g's chunk 1 is
   filed under f, and the index-guarded lookup serves the cut chunk as f's.
   */
  lemma CutChunkIsServed(ops: seq<NodeOp>, f: string, g: string, x: Bytes, y: Bytes, z: Bytes, u: Bytes, k: nat)
    requires f != g && x != [] && y != [] && k < |z| && u != []
    requires ops == [Full(g, 0, y), Full(f, 0, x)] + [Put(f, 1, z, Wrote(k))] + [Full(g, 1, u)]
    ensures DefinedRun(ops) && Lookup(After(ops), f, 1) == Some(z[..k])
  {
    var two, short, last := [Full(g, 0, y), Full(f, 0, x)], Put(f, 1, z, Wrote(k)), Full(g, 1, u);
    TwoFilesStarted(two, g, f, y, x);
    HealthyRunsAreConsistent(two);
    var n := After(two);
    AfterOneMore(two, short);
    AfterOneMore(two + [short], last);
    DefinedOneMore(two, short);
    DefinedOneMore(two + [short], last);
    hide After, DefinedRun;
    SoundParts(n);
    CutThenMisfiled(n, f, g, z, u, k);
  }

  lemma CutThenMisfiled(n: Node, f: string, g: string, z: Bytes, u: Bytes, k: nat)
    requires f != g && k < |z| && u != [] && Flat(n.tree) && HasFiles(n.tree, g)
    requires n.index == [FileMapping(g, [0])] + [FileMapping(f, [0])]
    requires forall h, d :: OnDisk(n.tree, h, d) <==> d == 0 && (h == f || h == g)
    ensures var short, last := Put(f, 1, z, Wrote(k)), Full(g, 1, u);
      var m := Apply(Apply(n, short), last);
      Defined(n, short) && Defined(Apply(n, short), last) && Lookup(m, f, 1) == Some(z[..k])
  {
    var m := Apply(n, Put(f, 1, z, Wrote(k)));
    WriteTree(n.tree, f, 1, z[..k]);
    assert ChunkPath(g, 1) != ChunkPath(f, 1) && m.index == n.index;
    LastInsert([FileMapping(g, [0])], FileMapping(f, [0]), g, 1);
    assert [0] + [1] == [0, 1];
    OnlyZeroOf(Insert(n.index, g, 1, true), g, f);
  }

  lemma OnlyZeroOf(index: seq<FileMapping>, f: string, g: string)
    requires f != g && index == [FileMapping(f, [0])] + [FileMapping(g, [0, 1])]
    ensures Indexed(index, g, 1) && !Indexed(index, f, 1)
  {
    assert index[1] in index;
  }

  lemma TwoFilesStarted(two: seq<NodeOp>, f: string, g: string, x: Bytes, y: Bytes)
    requires f != g && x != [] && y != [] && two == [Full(f, 0, x), Full(g, 0, y)]
    ensures HealthyRun(two)
    ensures After(two).index == [FileMapping(f, [0])] + [FileMapping(g, [0])]
    ensures forall h, d :: OnDisk(After(two).tree, h, d) <==> d == 0 && (h == f || h == g)
    ensures HasFiles(After(two).tree, f)
  {
    var one := two[..1];
    FileStarted(one, f, x);
    PutLast(two);
    NewInsert([FileMapping(f, [0])], g, 0);
  }

  lemma FileStarted(one: seq<NodeOp>, f: string, x: Bytes)
    requires x != [] && one == [Full(f, 0, x)]
    ensures HealthyRun(one)
    ensures After(one).index == [FileMapping(f, [0])]
    ensures forall h, d :: OnDisk(After(one).tree, h, d) <==> d == 0 && h == f
    ensures forall h :: HasFiles(After(one).tree, h) <==> h == f
  {
    assert one[..0] == [];
    PutLast(one);
    FirstInsert(f, 0);
  }

  lemma FirstInsert(f: string, c: int)
    ensures Insert([], f, c, false) == [FileMapping(f, [c])]
  {
    assert [] + [c] == [c];
  }

  lemma NewInsert(index: seq<FileMapping>, f: string, c: int)
    ensures Insert(index, f, c, false) == index + [FileMapping(f, [c])]
  {
    var base := index + [FileMapping(f, [])];
    assert base[|base| - 1] == FileMapping(f, []);
    assert [] + [c] == [c];
  }

  lemma LastInsert(index: seq<FileMapping>, last: FileMapping, f: string, c: int)
    ensures Insert(index + [last], f, c, true) == index + [FileMapping(last.filename, last.chunkIds + [c])]
  {
    var base := index + [last];
    assert base[|base| - 1] == last;
  }

  /** What a run's last operation does when it writes a new chunk. */
  lemma PutLast(ops: seq<NodeOp>)
    requires HealthyRun(ops) && ops != []
    ensures var (k, n, m) := (|ops| - 1, After(ops[..|ops| - 1]), After(ops));
      ops[k].Put? && ops[k].data != [] && ops[k].write == Wrote(|ops[k].data|)
      && !OnDisk(n.tree, ops[k].file, ops[k].chunk) ==>
        var (f, c) := (ops[k].file, ops[k].chunk);
        && (HasFiles(n.tree, f) ==> n.index != [])
        && m.index == Insert(n.index, f, c, HasFiles(n.tree, f))
        && (forall g, d :: OnDisk(m.tree, g, d) <==> OnDisk(n.tree, g, d) || (g == f && d == c))
        && (forall g :: HasFiles(m.tree, g) <==> HasFiles(n.tree, g) || g == f)
  {
    var (k, n) := (|ops| - 1, After(ops[..|ops| - 1]));
    HealthyRunsAreConsistent(ops[..k]);
    if ops[k].Put? {
      SoundParts(n);
      ConsistentIsDefined(n, ops[k].file, ops[k].chunk, ops[k].data, ops[k].write);
      WriteTree(n.tree, ops[k].file, ops[k].chunk, ops[k].data);
    }
  }

  // Uploading a chunk again

  datatype Attempt = Attempt(body: Bytes, write: Write)

  /** The node after the same chunk was posted once for each attempt. */
  ghost function SaveAll(n: Node, f: string, c: int, attempts: seq<Attempt>): Node
    decreases |attempts|
  {
    if attempts == [] then n
    else SaveAll(Save(n, f, c, attempts[0].body, attempts[0].write).0, f, c, attempts[1..])
  }

  /**
   At least once is exactly once: the first attempt that gets a non-empty body into an opened file decides the
   node for good. Every repetition changes nothing, reports success, and leaves what that attempt wrote,
   all of it or only a part.
   */
  lemma {:induction false} RepeatsChangeNothing(n: Node, f: string, c: int, attempts: seq<Attempt>)
    requires attempts != [] && attempts[0].body != [] && (OnDisk(n.tree, f, c) || attempts[0].write.Wrote?)
    ensures var m := Save(n, f, c, attempts[0].body, attempts[0].write).0;
      && SaveAll(n, f, c, attempts) == m && OnDisk(m.tree, f, c)
      && forall body, w :: body != [] ==> Save(m, f, c, body, w) == (m, Stored)
  {
    PresentChunkStays(Save(n, f, c, attempts[0].body, attempts[0].write).0, f, c, attempts[1..]);
  }

  /** A retry loop stops after a short write with success, and the chunk on disk stays cut. */
  lemma RetryAfterShortWrite(n: Node, f: string, c: int, data: Bytes, k: nat)
    requires !OnDisk(n.tree, f, c) && k < |data|
    ensures var m := SaveAll(n, f, c, [Attempt(data, Wrote(k)), Attempt(data, Wrote(|data|))]);
      && Save(m, f, c, data, Wrote(|data|)).1 == Stored
      && OnDisk(m.tree, f, c) && m.tree[ChunkPath(f, c)] == Regular(data[..k]) && m.index == n.index
  {
    RepeatsChangeNothing(n, f, c, [Attempt(data, Wrote(k)), Attempt(data, Wrote(|data|))]);
  }

  lemma {:induction false} PresentChunkStays(m: Node, f: string, c: int, attempts: seq<Attempt>)
    requires OnDisk(m.tree, f, c)
    ensures SaveAll(m, f, c, attempts) == m
    decreases |attempts|
  {
    if attempts != [] {
      PresentChunkStays(m, f, c, attempts[1..]);
    }
  }

  /** First writer wins: what a chunk holds stays until its file is deleted, whatever else runs or fails to write. */
  lemma {:induction false} ContentImmutable(ops: seq<NodeOp>, k: nat, f: string, c: int)
    requires DefinedRun(ops)
    requires k <= |ops| && OnDisk(After(ops[..k]).tree, f, c)
    requires forall i :: k <= i < |ops| ==> ops[i] != Del(f)
    ensures OnDisk(After(ops).tree, f, c)
    ensures After(ops).tree[ChunkPath(f, c)] == After(ops[..k]).tree[ChunkPath(f, c)]
    decreases |ops|
  {
    hide Apply, DefinedRun, OnDisk;
    if k == |ops| {
      assert ops[..k] == ops;
    } else {
      var last := |ops| - 1;
      var init := ops[..last];
      DefinedPrefix(ops, last);
      assert init[..k] == ops[..k];
      ContentImmutable(init, k, f, c);
      StepKeepsContent(After(init), ops[last], f, c);
    }
  }

  lemma StepKeepsContent(n: Node, op: NodeOp, f: string, c: int)
    requires OnDisk(n.tree, f, c) && op != Del(f)
    ensures OnDisk(Apply(n, op).tree, f, c)
    ensures Apply(n, op).tree[ChunkPath(f, c)] == n.tree[ChunkPath(f, c)]
  {
    match op
    case Put(g, d, data, w) =>
      assert ChunkPath(g, d) == ChunkPath(f, c) ==> g == f && d == c;
    case Del(g) =>
      assert !([g] <= ChunkPath(f, c));
  }
}
