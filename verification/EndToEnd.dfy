/** Theorems that span client, nodes, connections and master. */
module EndToEnd {
  import opened Common
  import opened FileTree
  import opened Storage
  import opened Registry
  import opened Chunks
  import opened Cluster
  import opened Placement
  import Upload
  import opened Download
  import opened Reports
  import opened SettledReads
  import opened Truth

  // Read safety

  /**
   The replies of a readFile whose requests are answered at arbitrary moments of a run: the list at
   `listed`, the locations at `located`, and the i-th fetch by node `servers(i)` at moment `times(i)`.
   */
  ghost predicate AnsweredDuring(r: Replies, es: seq<Event>, f: string,
                                 listed: nat, located: nat, times: nat -> nat, servers: nat -> Id)
  {
    && Sane(r) && listed <= |es| && located <= |es|
    && (r.list.Some? ==> r.list.value == ChunksForFile(After(es[..listed]).master.conns, f))
    && (forall ids :: r.locate(ids).Some? ==>
          r.locate(ids).value == MultipleLocations(After(es[..located]).master.conns, f, ids))
    && (Begins(r) ==> forall i: nat :: i < |r.list.value| && Part(r, i).Some? ==>
          && times(i) <= |es| && servers(i) in After(es[..times(i)]).nodes
          && Part(r, i) == Lookup(After(es[..times(i)]).nodes[servers(i)], f, r.list.value[i]))
  }

  /**
   Whatever interleaving of uploads, retries, deletes, reports, joins and disconnects surrounds it, and whatever
   the disk writes do as long as none of them spoils a node, a successful readFile returns true slices of the
   file over a strictly increasing, non-empty list of ids: stale views may omit chunks but never reorder, repeat
   or corrupt them.
   */
  lemma ReadSafety(es: seq<Event>, truth: map<string, Bytes>, f: string, r: Replies,
                   listed: nat, located: nat, times: nat -> nat, servers: nat -> Id)
    requires SingleContent(es, truth) && NothingSpoiled(es, truth)
    requires AnsweredDuring(r, es, f, listed, located, times, servers) && Succeeds(r)
    ensures var ids := r.list.value;
      && ids != [] && StrictlyIncreasing(ids)
      && f in truth
      && (forall i :: 0 <= i < |ids| ==> 0 <= ids[i] < ChunkCount(|truth[f]|))
      && Concat(Parts(r, |ids|)) == Concat(Slices(truth[f], ids))
  {
    hide NothingSpoiled, SingleContent, TrueReads, ChunksForFile, Locations, Lookup, Slice, RunFrom;
    var ids := r.list.value;
    ChunksForFileMeaning(After(es[..listed]).master.conns, f);
    assert |r.locate(ids).value| == |ids|;
    forall i: nat | i < |ids|
      ensures f in truth && 0 <= ids[i] < ChunkCount(|truth[f]|) && Part(r, i) == Some(Slice(truth[f], ids[i]))
    {
      var s := After(es[..times(i)]);
      PrefixOfUnspoiled(es, times(i), truth);
      UnspoiledRunsAreTrue(es[..times(i)], truth);
      assert TrueReads(s.nodes[servers(i)], truth) && Part(r, i) == Lookup(s.nodes[servers(i)], f, ids[i]);
      TrueLookup(s.nodes[servers(i)], f, ids[i], truth);
    }
    assert f in truth by {
      assert Part(r, 0).Some?;
    }
    assert Parts(r, |ids|) == Slices(truth[f], ids);
  }

  lemma TrueLookup(n: Node, f: string, c: int, truth: map<string, Bytes>)
    requires TrueReads(n, truth) && Lookup(n, f, c).Some?
    ensures f in truth && 0 <= c < ChunkCount(|truth[f]|) && Lookup(n, f, c) == Some(Slice(truth[f], c))
  {
  }

  // Round trip

  /** What an upload keeps on every node is enough to read from it honestly. */
  lemma UploadingIsHonest(s: System, f: string, content: Bytes)
    requires Uploading(s, f, content)
    ensures CutFile(s, f, content) && Honest(s, f, content)
    ensures forall c :: Placed(s, f, c) <==> Listed(s, f, c)
  {
    forall id, c | id in s.nodes
      ensures Indexed(s.nodes[id].index, f, c) <==> OnDisk(s.nodes[id].tree, f, c)
      ensures OnDisk(s.nodes[id].tree, f, c) ==>
        0 <= c < ChunkCount(|content|) && s.nodes[id].tree[ChunkPath(f, c)] == Regular(Slice(content, c))
    {
      assert HoldsSlices(s.nodes[id], f, content);
    }
    forall c ensures Placed(s, f, c) <==> Listed(s, f, c) {
      if Placed(s, f, c) {
        var id :| Registered(s, id) && id in s.nodes && OnDisk(s.nodes[id].tree, f, c);
        assert Indexed(s.nodes[id].index, f, c);
      }
    }
  }

  /**
   Reading from a settled cluster during or after an upload: success means that some chunk is placed, and
   the whole file comes back if and only if it is non-empty and every chunk is placed.
   */
  lemma SettledReadIsExact(s: System, f: string, content: Bytes, r: Replies)
    requires Uploading(s, f, content) && Settled(s) && AnsweredAt(r, s, f)
    ensures Succeeds(r) <==> exists c :: Placed(s, f, c)
    ensures Succeeds(r) && Concat(Parts(r, |r.list.value|)) == content <==>
      content != [] && AllPlaced(s, f, ChunkCount(|content|))
  {
    hide Uploading, Placed, Listed, Begins, Part, Parts, CutFile, Honest, ChunksForFile, Locations;
    UploadingIsReadable(s, f, content);
    UploadingIsHonest(s, f, content);
    HonestRead(s, f, content, r);
  }

  lemma UploadingIsReadable(s: System, f: string, content: Bytes)
    requires Uploading(s, f, content) && Settled(s)
    ensures Readable(s)
  {
  }

  lemma OnlyTrueIdsPlaced(s: System, f: string, content: Bytes)
    requires Uploading(s, f, content)
    ensures forall c :: Placed(s, f, c) ==> 0 <= c < ChunkCount(|content|)
  {
    forall c | Placed(s, f, c) ensures 0 <= c < ChunkCount(|content|) {
      var id :| Registered(s, id) && id in s.nodes && OnDisk(s.nodes[id].tree, f, c);
      assert HoldsSlices(s.nodes[id], f, content);
    }
  }

  /** An uploaded empty file has no chunk anywhere, so no read of it succeeds. */
  lemma EmptyFileIsUnreadable(s: System, f: string, r: Replies)
    requires Uploading(s, f, []) && Settled(s) && AnsweredAt(r, s, f)
    ensures !Succeeds(r)
  {
    hide Uploading, Placed, Begins, ChunksForFile, Locations;
    SettledReadIsExact(s, f, [], r);
    OnlyTrueIdsPlaced(s, f, []);
  }

  /**
   End to end: after insertFile has stored every chunk of a file, any quiet traffic in which every open
   connection reports and drains its queue leads to a cluster where readFile succeeds if and only if the
   file is non-empty, and returns exactly the file.
   */
  lemma RoundTrip(s: System, es: seq<Event>, f: string, content: Bytes, r: Replies)
    requires Uploading(s, f, content) && AllPlaced(s, f, ChunkCount(|content|))
    requires ReportsDrain(s, es) && AnsweredAt(r, RunFrom(s, es), f)
    ensures Succeeds(r) <==> content != []
    ensures Succeeds(r) ==> Concat(Parts(r, |r.list.value|)) == content
  {
    hide Uploading, AllPlaced, Begins, Parts, Grows, Undisturbed, Settled, ChunksForFile, Locations;
    var t := RunFrom(s, es);
    AfterReports(s, es, f, content);
    SettledReadIsExact(t, f, content, r);
    AllPlacedStays(s, t, f, ChunkCount(|content|));
    if content == [] {
      EmptyFileIsUnreadable(t, f, r);
    }
  }

  lemma AfterReports(s: System, es: seq<Event>, f: string, content: Bytes)
    requires Uploading(s, f, content) && ReportsDrain(s, es)
    ensures var t := RunFrom(s, es);
      Uploading(t, f, content) && Settled(t) && Undisturbed(s, t) && Grows(s, t, f)
  {
    DrainedReportsSettle(s, es);
    UndisturbedGrows(s, RunFrom(s, es), f, content);
  }

  lemma NothingPlacedStays(s: System, t: System, f: string, placement: seq<set<Addr>>)
    requires PlacedExactly(s, f, placement) && Upload.NothingPlaced(placement) && t.nodes == s.nodes
    ensures forall c :: !Placed(t, f, c)
  {
    forall c ensures !Placed(t, f, c) {
      assert HeldAt(s, f, c, if 0 <= c < |placement| then placement[c] else {});
    }
  }

  /** What is stored nowhere cannot be read, whoever joins later. */
  lemma NothingPlacedIsUnreadable(s: System, es: seq<Event>, f: string, content: Bytes,
                                  placement: seq<set<Addr>>, r: Replies)
    requires Uploading(s, f, content) && PlacedExactly(s, f, placement) && Upload.NothingPlaced(placement)
    requires ReportsDrain(s, es) && AnsweredAt(r, RunFrom(s, es), f)
    ensures !Succeeds(r)
  {
    hide Uploading, Begins, Parts, Part, Placed, PlacedExactly, ReportsDrain, ChunksForFile, Locations, Grows, Settled;
    hide Upload.NothingPlaced;
    var t := RunFrom(s, es);
    AfterReports(s, es, f, content);
    SettledReadIsExact(t, f, content, r);
    NothingPlacedStays(s, t, f, placement);
  }

  ghost predicate ReadAfterReports(s: System, es: seq<Event>, f: string, r: Replies) {
    ReportsDrain(s, es) && AnsweredAt(r, RunFrom(s, es), f)
  }

  /** No join that the client cannot see decides whether its chunks find a member. */
  ghost predicate MembersAreKnown(world: Upload.World, s: System, replication: nat) {
    world.Alone() || replication == 0 || s.master.conns != []
  }

  /**
   insertFile, then everybody's reports, then readFile. A lone client gets true and the very bytes that went
   in if and only if the file is non-empty, the replication factor is at least 1 and a member was registered;
   with other quiet traffic the same holds whenever a member was registered at the start.
   */
  method InsertThenRead(world: Upload.World, content: Bytes, f: string, replication: nat,
                        es: seq<Event>, r: Replies) returns (inserted: bool, ok: bool, output: Bytes)
    requires world.OthersAreQuiet() && Invariant(world.sys) && DistinctAddresses(world.sys)
    requires forall id :: id in world.sys.nodes ==> !HasFiles(world.sys.nodes[id].tree, f)
    requires Sane(r)
    modifies world
    ensures inserted
    ensures ReadAfterReports(world.sys, es, f, r) && MembersAreKnown(world, old(world.sys), replication) ==>
      && (ok <==> content != [] && replication >= 1 && old(world.sys).master.conns != [])
      && (ok ==> output == content)
  {
    ghost var placement;
    inserted, placement := Upload.InsertFile(world, content, f, replication);
    ok, output := ReadFile(r);
    ReadAfterInsert(world, old(world.sys), world.sys, content, f, replication, placement, es, r);
  }

  lemma ReadAfterInsert(world: Upload.World, start: System, s: System, content: Bytes, f: string, replication: nat,
                        placement: seq<set<Addr>>, es: seq<Event>, r: Replies)
    requires Linked(start) && DistinctAddresses(start) && Uploading(s, f, content) && Sane(r)
    requires |placement| == ChunkCount(|content|) && PlacedExactly(s, f, placement)
    requires Upload.AllFairlyPlaced(world, start.master, replication, placement)
    ensures ReadAfterReports(s, es, f, r) && MembersAreKnown(world, start, replication) ==>
      && (Succeeds(r) <==> content != [] && replication >= 1 && start.master.conns != [])
      && (Succeeds(r) ==> Concat(Parts(r, |r.list.value|)) == content)
  {
    hide Uploading, PlacedExactly, ReportsDrain, AnsweredAt, Begins, Part, Parts, DistinctAddresses;
    if ReadAfterReports(s, es, f, r) && MembersAreKnown(world, start, replication) {
      forall c | 0 <= c < |placement|
        ensures placement[c] != {} <==> replication >= 1 && start.master.conns != []
      {
        assert Upload.FairlyPlaced(world, start.master, replication, c, placement[c]);
        if world.Alone() {
          Upload.LoneClientCopies(start, replication, c);
        }
      }
      if replication >= 1 && start.master.conns != [] {
        UploadingRegistry(s, f, content);
        PlacedIff(s, f, placement);
        RoundTrip(s, es, f, content, r);
      } else {
        NothingPlacedIsUnreadable(s, es, f, content, placement, r);
      }
    }
  }

  lemma UploadingRegistry(s: System, f: string, content: Bytes)
    requires Uploading(s, f, content)
    ensures RegistryOk(s)
  {
  }

  /**
   After any run in which every name stands for one content, disciplined or not, whatever its writes did: once
   the cluster is settled, reading f yields its content for every replica choice if and only if the content is
   non-empty, every id is indexed under f at a registered node, and every id indexed there is on that node's
   disk in full.
   */
  lemma ReachableReadsBackIff(es: seq<Event>, truth: map<string, Bytes>, f: string)
    requires SingleContent(es, truth) && f in truth && Readable(After(es))
    ensures AlwaysReadsBack(After(es), f, truth[f]) <==>
      truth[f] != [] && Complete(After(es), f, ChunkCount(|truth[f]|)) && Honest(After(es), f, truth[f])
  {
    hide Readable, AlwaysReadsBack, Complete, Honest;
    ReachableCutFile(es, truth, f);
    ReadsBackIff(After(es), f, truth[f]);
  }

  /** Every reachable cluster meets the condition under which reads are characterised. */
  lemma ReachableCutFile(es: seq<Event>, truth: map<string, Bytes>, f: string)
    requires SingleContent(es, truth) && f in truth
    ensures CutFile(After(es), f, truth[f])
  {
    hide Slice, RunFrom;
    RunsKeepCutDisks(es, truth);
    forall id, c | id in After(es).nodes && OnDisk(After(es).nodes[id].tree, f, c)
      ensures var t := After(es).nodes[id].tree;
        0 <= c < ChunkCount(|truth[f]|) && t[ChunkPath(f, c)].Regular? && t[ChunkPath(f, c)].data <= Slice(truth[f], c)
    {
      assert CutDisk(After(es).nodes[id], truth);
    }
  }
}
