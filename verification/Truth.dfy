/** Which bytes nodes hold and serve over whole runs, and the steps that can make a node serve a wrong chunk. */
module Truth {
  import opened Common
  import opened FileTree
  import opened Storage
  import NodeRuns
  import opened Chunks
  import opened Cluster

  /** Every upload in the run carries the true slice of the one content its name stands for. */
  ghost predicate SingleContent(es: seq<Event>, truth: map<string, Bytes>) {
    forall i :: 0 <= i < |es| && es[i].Post? ==>
      var e := es[i];
      && e.file in truth && 0 <= e.chunk < ChunkCount(|truth[e.file]|)
      && e.data == Slice(truth[e.file], e.chunk)
  }

  predicate TrueChunk(t: Tree, f: string, c: int, truth: map<string, Bytes>) {
    && OnDisk(t, f, c) && f in truth && 0 <= c < ChunkCount(|truth[f]|)
    && t[ChunkPath(f, c)] == Regular(Slice(truth[f], c))
  }

  /** Every chunk on the node's disk is a true slice, perhaps cut short by a failed write. */
  ghost predicate CutDisk(n: Node, truth: map<string, Bytes>) {
    forall f, c :: OnDisk(n.tree, f, c) ==>
      && f in truth && 0 <= c < ChunkCount(|truth[f]|)
      && n.tree[ChunkPath(f, c)].Regular? && n.tree[ChunkPath(f, c)].data <= Slice(truth[f], c)
  }

  ghost predicate CutDisks(s: System, truth: map<string, Bytes>) {
    forall id :: id in s.nodes ==> CutDisk(s.nodes[id], truth)
  }

  /** What a save leaves at other chunks' paths, and at its own. */
  lemma SaveTouchesOne(n: Node, f: string, c: int, data: Bytes, w: Write, g: string, d: int)
    ensures var m := Save(n, f, c, data, w).0;
      && (g != f || d != c || OnDisk(n.tree, f, c) ==>
            && (OnDisk(m.tree, g, d) <==> OnDisk(n.tree, g, d))
            && (OnDisk(n.tree, g, d) ==> m.tree[ChunkPath(g, d)] == n.tree[ChunkPath(g, d)]))
      && (!OnDisk(n.tree, f, c) ==>
            && (OnDisk(m.tree, f, c) <==> data != [] && w.Wrote?)
            && (OnDisk(m.tree, f, c) ==>
                  m.tree[ChunkPath(f, c)] == Regular(if w.count < |data| then data[..w.count] else data)))
  {
    assert ChunkPath(g, d) == ChunkPath(f, c) ==> g == f && d == c;
    assert |ChunkPath(g, d)| == 2 && |ChunkPath(f, c)| == 2;
  }

  lemma SaveKeepsCutDisk(n: Node, f: string, c: int, data: Bytes, w: Write, truth: map<string, Bytes>)
    requires CutDisk(n, truth)
    requires f in truth && 0 <= c < ChunkCount(|truth[f]|) && data == Slice(truth[f], c)
    ensures CutDisk(Save(n, f, c, data, w).0, truth)
  {
    hide Save, Slice;
    var m := Save(n, f, c, data, w).0;
    forall g, d | OnDisk(m.tree, g, d)
      ensures g in truth && 0 <= d < ChunkCount(|truth[g]|)
      ensures m.tree[ChunkPath(g, d)].Regular? && m.tree[ChunkPath(g, d)].data <= Slice(truth[g], d)
    {
      SaveTouchesOne(n, f, c, data, w, g, d);
    }
  }

  /** In every run, whatever its writes do, each chunk on every disk is its true slice or the start of it. */
  lemma {:induction false} RunsKeepCutDisks(es: seq<Event>, truth: map<string, Bytes>)
    requires SingleContent(es, truth)
    ensures CutDisks(After(es), truth)
  {
    if es != [] {
      var k := |es| - 1;
      assert SingleContent(es[..k], truth);
      RunsKeepCutDisks(es[..k], truth);
      StepKeepsCutDisks(After(es[..k]), es[k], truth);
    }
  }

  ghost predicate TruePost(e: Event, truth: map<string, Bytes>) {
    e.Post? ==>
      && e.file in truth && 0 <= e.chunk < ChunkCount(|truth[e.file]|)
      && e.data == Slice(truth[e.file], e.chunk)
  }

  lemma StepKeepsCutDisks(s: System, e: Event, truth: map<string, Bytes>)
    requires CutDisks(s, truth) && TruePost(e, truth)
    ensures CutDisks(Step(s, e), truth)
  {
    hide Save, Slice;
    if Enabled(s, e) && e.Post? {
      SaveKeepsCutDisk(s.nodes[e.id], e.file, e.chunk, e.data, e.write, truth);
    }
  }

  // Which steps can make a node serve a wrong chunk

  /** Whatever the index-guarded lookup serves is a true slice. */
  ghost predicate TrueReads(n: Node, truth: map<string, Bytes>) {
    forall f, c :: Lookup(n, f, c).Some? ==>
      f in truth && 0 <= c < ChunkCount(|truth[f]|) && Lookup(n, f, c) == Some(Slice(truth[f], c))
  }

  /**
   A save spoils the node if it is complete and files its id under a name whose own chunk is cut short, or if
   it is itself cut short and its id is already filed under its name.
   */
  predicate Spoils(n: Node, f: string, c: int, data: Bytes, w: Write, truth: map<string, Bytes>) {
    && data != [] && !OnDisk(n.tree, f, c) && w.Wrote?
    && (if w.count < |data| then Indexed(n.index, f, c) else ExposesCut(n, f, c, truth))
  }

  /** The name under which a complete save of the chunk is filed has a chunk of that id which is not true. */
  predicate ExposesCut(n: Node, f: string, c: int, truth: map<string, Bytes>) {
    var had := HasFiles(n.tree, f);
    (had ==> n.index != [])
    && OnDisk(n.tree, Receiver(n.index, f, had), c) && !TrueChunk(n.tree, Receiver(n.index, f, had), c, truth)
  }

  lemma LookupIs(n: Node, f: string, c: int)
    ensures Lookup(n, f, c) ==
      if Indexed(n.index, f, c) && OnDisk(n.tree, f, c) && n.tree[ChunkPath(f, c)].Regular?
      then Some(n.tree[ChunkPath(f, c)].data) else None
  {
  }

  /** Exactly the spoiling saves end the truth of what a node serves. */
  lemma SaveKeepsTrueReadsIff(n: Node, f: string, c: int, data: Bytes, w: Write, truth: map<string, Bytes>)
    requires Flat(n.tree) && TrueReads(n, truth) && Save(n, f, c, data, w).1 != Undefined
    requires f in truth && 0 <= c < ChunkCount(|truth[f]|) && data == Slice(truth[f], c)
    ensures TrueReads(Save(n, f, c, data, w).0, truth) <==> !Spoils(n, f, c, data, w, truth)
  {
    if data != [] && !OnDisk(n.tree, f, c) && w.Wrote? {
      if w.count < |data| {
        CutSaveKeepsTrueReadsIff(n, f, c, data, w.count, truth);
      } else {
        FullSaveKeepsTrueReadsIff(n, f, c, data, w, truth);
      }
    } else {
      hide Slice;
      var m := Save(n, f, c, data, w).0;
      assert m.index == n.index;
      forall g, d ensures Lookup(m, g, d) == Lookup(n, g, d) {
        SaveTouchesOne(n, f, c, data, w, g, d);
      }
    }
  }

  lemma CutSaveKeepsTrueReadsIff(n: Node, f: string, c: int, data: Bytes, k: nat, truth: map<string, Bytes>)
    requires TrueReads(n, truth) && !OnDisk(n.tree, f, c) && k < |data|
    requires f in truth && 0 <= c < ChunkCount(|truth[f]|) && data == Slice(truth[f], c)
    ensures TrueReads(Save(n, f, c, data, Wrote(k)).0, truth) <==> !Indexed(n.index, f, c)
  {
    var m := Save(n, f, c, data, Wrote(k)).0;
    assert m.index == n.index;
    hide Save, Slice, Indexed;
    SaveTouchesOne(n, f, c, data, Wrote(k), f, c);
    LookupIs(m, f, c);
    assert |data[..k]| < |data|;
    forall g, d | g != f || d != c ensures Lookup(m, g, d) == Lookup(n, g, d) {
      SaveTouchesOne(n, f, c, data, Wrote(k), g, d);
    }
    if !Indexed(n.index, f, c) {
      assert Lookup(m, f, c) == None;
    }
  }

  lemma FullSaveKeepsTrueReadsIff(n: Node, f: string, c: int, data: Bytes, w: Write, truth: map<string, Bytes>)
    requires Flat(n.tree) && TrueReads(n, truth) && data != [] && !OnDisk(n.tree, f, c)
    requires w.Wrote? && w.count >= |data| && Save(n, f, c, data, w).1 != Undefined
    requires f in truth && 0 <= c < ChunkCount(|truth[f]|) && data == Slice(truth[f], c)
    ensures TrueReads(Save(n, f, c, data, w).0, truth) <==> !Spoils(n, f, c, data, w, truth)
  {
    var m, to := Save(n, f, c, data, w).0, Receiver(n.index, f, HasFiles(n.tree, f));
    InsertEffect(n.index, f, c, HasFiles(n.tree, f));
    FullSaveLookups(n, m, f, c, data, to);
    hide Slice, Save, Indexed, HasFiles, Lookup;
    LookupIs(m, to, c);
    LookupIs(n, to, c);
    SaveTouchesOne(n, f, c, data, w, to, c);
  }

  /** Off the new index pair a complete save changes no answer, except that its own chunk may now be found. */
  lemma FullSaveLookups(n: Node, m: Node, f: string, c: int, data: Bytes, to: string)
    requires m.tree == WithChunk(n.tree, f, c, data) && !OnDisk(n.tree, f, c)
    requires forall g, d :: Indexed(m.index, g, d) <==> Indexed(n.index, g, d) || (g == to && d == c)
    ensures OnDisk(m.tree, f, c) && m.tree[ChunkPath(f, c)] == Regular(data)
    ensures forall g, d :: g != to || d != c ==>
      Lookup(m, g, d) == Lookup(n, g, d) || (g == f && d == c && Lookup(m, g, d) == Some(data))
  {
    forall g, d | g != to || d != c
      ensures Lookup(m, g, d) == Lookup(n, g, d) || (g == f && d == c && Lookup(m, g, d) == Some(data))
    {
      hide Indexed;
      LookupIs(m, g, d);
      LookupIs(n, g, d);
      assert ChunkPath(g, d) == ChunkPath(f, c) ==> g == f && d == c;
    }
  }

  ghost predicate SpoilingStep(s: System, e: Event, truth: map<string, Bytes>) {
    e.Post? && Enabled(s, e) && Spoils(s.nodes[e.id], e.file, e.chunk, e.data, e.write, truth)
  }

  ghost predicate NothingSpoiled(es: seq<Event>, truth: map<string, Bytes>) {
    forall i :: 0 <= i < |es| ==> !SpoilingStep(After(es[..i]), es[i], truth)
  }

  ghost predicate TrueSystem(s: System, truth: map<string, Bytes>) {
    forall id :: id in s.nodes ==> TrueReads(s.nodes[id], truth)
  }

  lemma StepKeepsTrueSystemIff(s: System, e: Event, truth: map<string, Bytes>)
    requires NodesOk(s.nodes) && TrueSystem(s, truth) && TruePost(e, truth)
    ensures TrueSystem(Step(s, e), truth) <==> !SpoilingStep(s, e, truth)
  {
    hide Save, Slice, Spoils, TrueReads, Sound;
    if Enabled(s, e) {
      match e
      case Post(id, f, c, data, w) =>
        SoundParts(s.nodes[id]);
        SaveKeepsTrueReadsIff(s.nodes[id], f, c, data, w, truth);
        assert Step(s, e).nodes[id] == Save(s.nodes[id], f, c, data, w).0;
      case Erase(id, f) => DeleteKeepsTrueReads(s.nodes[id], f, truth);
      case Start(id, ip) => assert TrueReads(EMPTY_NODE, truth) by { EmptyIsTrue(truth); }
      case _ =>
    }
  }

  lemma EmptyIsTrue(truth: map<string, Bytes>)
    ensures TrueReads(EMPTY_NODE, truth)
  {
  }

  lemma DeleteKeepsTrueReads(n: Node, f: string, truth: map<string, Bytes>)
    requires Sound(n) && TrueReads(n, truth)
    ensures TrueReads(Delete(n, f).0, truth)
  {
    NodeRuns.DeleteEffect(n, f);
    hide Sound, Delete, Slice;
    var m := Delete(n, f).0;
    forall c ensures Lookup(m, f, c) == None {
      LookupIs(m, f, c);
    }
  }

  lemma {:induction false} UnspoiledRunsAreTrue(es: seq<Event>, truth: map<string, Bytes>)
    requires SingleContent(es, truth) && NothingSpoiled(es, truth)
    ensures TrueSystem(After(es), truth)
  {
    hide SpoilingStep, TrueReads, Invariant, Step;
    if es != [] {
      var k := |es| - 1;
      PrefixOfUnspoiled(es, k, truth);
      UnspoiledRunsAreTrue(es[..k], truth);
      ReachableNodes(es[..k]);
      assert !SpoilingStep(After(es[..k]), es[k], truth);
      StepKeepsTrueSystemIff(After(es[..k]), es[k], truth);
    }
  }

  lemma ReachableNodes(es: seq<Event>)
    ensures NodesOk(After(es).nodes)
  {
    ReachableInvariant(es);
  }

  lemma PrefixOfUnspoiled(es: seq<Event>, k: nat, truth: map<string, Bytes>)
    requires SingleContent(es, truth) && k <= |es|
    ensures SingleContent(es[..k], truth)
    ensures NothingSpoiled(es, truth) ==> NothingSpoiled(es[..k], truth)
  {
    assert forall i :: 0 <= i < k ==> es[..k][..i] == es[..i] && es[..k][i] == es[i];
  }

  /** At every moment every node serves only true slices if and only if no step of the run was a spoiling one. */
  lemma TrueThroughoutIff(es: seq<Event>, truth: map<string, Bytes>)
    requires SingleContent(es, truth)
    ensures (forall k :: 0 <= k <= |es| ==> TrueSystem(After(es[..k]), truth)) <==> NothingSpoiled(es, truth)
  {
    hide SpoilingStep, TrueSystem, Invariant, RunFrom;
    if NothingSpoiled(es, truth) {
      forall k | 0 <= k <= |es| ensures TrueSystem(After(es[..k]), truth) {
        PrefixOfUnspoiled(es, k, truth);
        UnspoiledRunsAreTrue(es[..k], truth);
      }
    } else {
      var k := FirstSpoiling(es, truth);
      PrefixOfUnspoiled(es, k, truth);
      UnspoiledRunsAreTrue(es[..k], truth);
      ReachableNodes(es[..k]);
      StepKeepsTrueSystemIff(After(es[..k]), es[k], truth);
      OneMoreStep(es, k);
      assert !TrueSystem(After(es[..k + 1]), truth);
    }
  }

  lemma OneMoreStep(es: seq<Event>, k: nat)
    requires k < |es|
    ensures After(es[..k + 1]) == Step(After(es[..k]), es[k])
  {
    assert es[..k + 1][..k] == es[..k];
  }

  lemma FirstSpoiling(es: seq<Event>, truth: map<string, Bytes>) returns (k: nat)
    requires !NothingSpoiled(es, truth)
    ensures k < |es| && SpoilingStep(After(es[..k]), es[k], truth) && NothingSpoiled(es[..k], truth)
  {
    hide SpoilingStep, RunFrom;
    var bad := set i | 0 <= i < |es| && SpoilingStep(After(es[..i]), es[i], truth);
    var some :| 0 <= some < |es| && SpoilingStep(After(es[..some]), es[some], truth);
    k := Smallest(bad, some);
    forall i | 0 <= i < k ensures !SpoilingStep(After(es[..k][..i]), es[..k][i], truth) {
      assert es[..k][..i] == es[..i] && i !in bad;
    }
  }

  // Two kinds of runs that never spoil

  ghost predicate NoShortWrites(es: seq<Event>) {
    forall i :: 0 <= i < |es| && es[i].Post? ==> !Partial(es[i].data, es[i].write)
  }

  /** All bytes on the node's disk are whole true slices. */
  ghost predicate TrueDisk(n: Node, truth: map<string, Bytes>) {
    forall f, c :: OnDisk(n.tree, f, c) ==> TrueChunk(n.tree, f, c, truth)
  }

  ghost predicate TrueDisks(s: System, truth: map<string, Bytes>) {
    forall id :: id in s.nodes ==> TrueDisk(s.nodes[id], truth)
  }

  lemma SaveKeepsTrueDisk(n: Node, f: string, c: int, data: Bytes, w: Write, truth: map<string, Bytes>)
    requires TrueDisk(n, truth) && !Partial(data, w)
    requires f in truth && 0 <= c < ChunkCount(|truth[f]|) && data == Slice(truth[f], c)
    ensures TrueDisk(Save(n, f, c, data, w).0, truth)
  {
    hide Save, Slice;
    var m := Save(n, f, c, data, w).0;
    forall g, d | OnDisk(m.tree, g, d) ensures TrueChunk(m.tree, g, d, truth) {
      SaveTouchesOne(n, f, c, data, w, g, d);
    }
  }

  lemma EmptyDiskIsTrue(truth: map<string, Bytes>)
    ensures TrueDisk(EMPTY_NODE, truth)
  {
  }

  lemma DeleteKeepsTrueDisk(n: Node, f: string, truth: map<string, Bytes>)
    requires TrueDisk(n, truth)
    ensures TrueDisk(Delete(n, f).0, truth)
  {
    var m := Delete(n, f).0;
    forall g, d | OnDisk(m.tree, g, d) ensures TrueChunk(m.tree, g, d, truth) {
      assert OnDisk(n.tree, g, d) && m.tree[ChunkPath(g, d)] == n.tree[ChunkPath(g, d)];
    }
  }

  lemma StepKeepsTrueDisks(s: System, e: Event, truth: map<string, Bytes>)
    requires TrueDisks(s, truth) && TruePost(e, truth) && (e.Post? ==> !Partial(e.data, e.write))
    ensures TrueDisks(Step(s, e), truth)
  {
    EmptyDiskIsTrue(truth);
    if Enabled(s, e) && e.Erase? {
      DeleteKeepsTrueDisk(s.nodes[e.id], e.file, truth);
    }
    hide Save, Delete, Slice, TrueDisk;
    if Enabled(s, e) && e.Post? {
      SaveKeepsTrueDisk(s.nodes[e.id], e.file, e.chunk, e.data, e.write, truth);
    }
  }

  /** Without short writes each chunk on every disk is the true slice of its file. */
  lemma {:induction false} RunsKeepTrueDisks(es: seq<Event>, truth: map<string, Bytes>)
    requires SingleContent(es, truth) && NoShortWrites(es)
    ensures TrueDisks(After(es), truth) && NothingSpoiled(es, truth)
  {
    hide Step, TrueDisk, SpoilingStep, Slice, NothingSpoiled, NoShortWrites;
    if es == [] {
      NothingHappened(truth);
    } else {
      var k := |es| - 1;
      var init, e := es[..k], es[k];
      PrefixHasNoShortWrites(es, k);
      PrefixOfUnspoiled(es, k, truth);
      RunsKeepTrueDisks(init, truth);
      assert TruePost(e, truth);
      StepKeepsTrueDisks(After(init), e, truth);
      TrueDisksAreNotSpoiled(After(init), e, truth);
      OneMoreUnspoiled(es, truth);
    }
  }

  lemma NothingHappened(truth: map<string, Bytes>)
    ensures NothingSpoiled([], truth)
  {
  }

  lemma OneMoreUnspoiled(es: seq<Event>, truth: map<string, Bytes>)
    requires es != []
    requires NothingSpoiled(es[..|es| - 1], truth) && !SpoilingStep(After(es[..|es| - 1]), es[|es| - 1], truth)
    ensures NothingSpoiled(es, truth)
  {
    hide SpoilingStep, RunFrom;
    var init := es[..|es| - 1];
    forall i | 0 <= i < |es| ensures !SpoilingStep(After(es[..i]), es[i], truth) {
      if i < |init| {
        assert init[..i] == es[..i] && init[i] == es[i];
        assert !SpoilingStep(After(init[..i]), init[i], truth);
      }
    }
  }

  lemma PrefixHasNoShortWrites(es: seq<Event>, k: nat)
    requires NoShortWrites(es) && k <= |es|
    ensures NoShortWrites(es[..k])
    ensures k < |es| && es[k].Post? ==> !Partial(es[k].data, es[k].write)
  {
  }

  lemma TrueDisksAreNotSpoiled(s: System, e: Event, truth: map<string, Bytes>)
    requires TrueDisks(s, truth) && (e.Post? ==> !Partial(e.data, e.write))
    ensures !SpoilingStep(s, e, truth)
  {
    hide TrueDisk, Spoils;
    if SpoilingStep(s, e, truth) {
      TrueDiskIsNotSpoiled(s.nodes[e.id], e.file, e.chunk, e.data, e.write, truth);
    }
  }

  lemma TrueDiskIsNotSpoiled(n: Node, f: string, c: int, data: Bytes, w: Write, truth: map<string, Bytes>)
    requires TrueDisk(n, truth) && !Partial(data, w)
    ensures !Spoils(n, f, c, data, w, truth)
  {
  }

  /** A save that would write the whole new chunk files it under its own name. */
  predicate CompleteIsDisciplined(n: Node, f: string, c: int, data: Bytes, w: Write) {
    data != [] && !OnDisk(n.tree, f, c) && w.Wrote? && w.count >= |data| && n.index != [] && HasFiles(n.tree, f) ==>
      n.index[|n.index| - 1].filename == f
  }

  ghost predicate IndexIsOnDisk(n: Node) {
    forall f, c :: Indexed(n.index, f, c) ==> OnDisk(n.tree, f, c)
  }

  lemma DisciplinedKeepsIndexOnDisk(n: Node, f: string, c: int, data: Bytes, w: Write, truth: map<string, Bytes>)
    requires Flat(n.tree) && IndexIsOnDisk(n) && Save(n, f, c, data, w).1 != Undefined
    requires CompleteIsDisciplined(n, f, c, data, w)
    ensures IndexIsOnDisk(Save(n, f, c, data, w).0) && !Spoils(n, f, c, data, w, truth)
  {
    var m, had := Save(n, f, c, data, w).0, HasFiles(n.tree, f);
    hide Indexed;
    if data != [] && !OnDisk(n.tree, f, c) && w.Wrote? && w.count >= |data| {
      InsertEffect(n.index, f, c, had);
      WriteTree(n.tree, f, c, data);
    } else {
      forall g, d | Indexed(m.index, g, d) ensures OnDisk(m.tree, g, d) {
        SaveTouchesOne(n, f, c, data, w, g, d);
      }
    }
  }

  lemma DeleteKeepsIndexOnDisk(n: Node, f: string)
    requires Sound(n) && IndexIsOnDisk(n)
    ensures IndexIsOnDisk(Delete(n, f).0)
  {
    NodeRuns.DeleteEffect(n, f);
    var m := Delete(n, f).0;
    forall c ensures !Indexed(m.index, f, c) {
      assert !Named(m.index, f);
    }
  }

  ghost predicate IndexesAreOnDisk(s: System) {
    forall id :: id in s.nodes ==> IndexIsOnDisk(s.nodes[id])
  }

  ghost predicate DisciplinedStep(s: System, e: Event) {
    e.Post? && Enabled(s, e) ==> CompleteIsDisciplined(s.nodes[e.id], e.file, e.chunk, e.data, e.write)
  }

  ghost predicate CompleteSavesAreDisciplined(es: seq<Event>) {
    forall i :: 0 <= i < |es| ==> DisciplinedStep(After(es[..i]), es[i])
  }

  lemma DisciplinedStepSpoilsNothing(s: System, e: Event, truth: map<string, Bytes>)
    requires NodesOk(s.nodes) && IndexesAreOnDisk(s) && DisciplinedStep(s, e)
    ensures IndexesAreOnDisk(Step(s, e)) && !SpoilingStep(s, e, truth)
  {
    hide Save, Delete, Spoils, IndexIsOnDisk, CompleteIsDisciplined, Sound;
    if Enabled(s, e) {
      match e
      case Post(id, f, c, data, w) =>
        SoundParts(s.nodes[id]);
        DisciplinedKeepsIndexOnDisk(s.nodes[id], f, c, data, w, truth);
      case Erase(id, f) => DeleteKeepsIndexOnDisk(s.nodes[id], f);
      case Start(id, ip) => EmptyIndexIsOnDisk();
      case _ =>
    }
  }

  /** With failing writes, too, nothing is spoiled as long as every complete save is disciplined. */
  lemma {:induction false} DisciplinedRunsNeverSpoil(es: seq<Event>, truth: map<string, Bytes>)
    requires CompleteSavesAreDisciplined(es)
    ensures NothingSpoiled(es, truth) && IndexesAreOnDisk(After(es))
  {
    hide DisciplinedStep, SpoilingStep, IndexIsOnDisk, Step, NodesOk, NothingSpoiled, CompleteSavesAreDisciplined;
    if es == [] {
      NothingHappened(truth);
    } else {
      var k := |es| - 1;
      var init := es[..k];
      PrefixOfDisciplined(es, k);
      DisciplinedRunsNeverSpoil(init, truth);
      ReachableNodes(init);
      DisciplinedStepSpoilsNothing(After(init), es[k], truth);
      OneMoreUnspoiled(es, truth);
    }
  }

  lemma PrefixOfDisciplined(es: seq<Event>, k: nat)
    requires CompleteSavesAreDisciplined(es) && k < |es|
    ensures CompleteSavesAreDisciplined(es[..k]) && DisciplinedStep(After(es[..k]), es[k])
  {
    hide DisciplinedStep, RunFrom;
    forall i | 0 <= i < k ensures DisciplinedStep(After(es[..k][..i]), es[..k][i]) {
      assert es[..k][..i] == es[..i] && es[..k][i] == es[i];
    }
  }

  lemma EmptyIndexIsOnDisk()
    ensures IndexIsOnDisk(EMPTY_NODE)
  {
  }
}
