/** Where the chunks of one file are while it is uploaded, on one node and in the cluster. */
module Placement {
  import opened Common
  import opened FileTree
  import opened Storage
  import opened Registry
  import opened Chunks
  import opened Cluster

  // One node during an upload

  /** All the node has of the file are true slices, and its index lists exactly those. */
  ghost predicate HoldsSlices(n: Node, f: string, content: Bytes) {
    forall c ::
      && (OnDisk(n.tree, f, c) ==>
            0 <= c < ChunkCount(|content|) && n.tree[ChunkPath(f, c)] == Regular(Slice(content, c)))
      && (Indexed(n.index, f, c) <==> OnDisk(n.tree, f, c))
  }

  /** If the file has chunks here, it is the last index entry: the next append lands in it. */
  ghost predicate UploadedLast(n: Node, f: string) {
    HasFiles(n.tree, f) ==> n.index != [] && n.index[|n.index| - 1].filename == f
  }

  /** Nothing about any other file changed. */
  ghost predicate SameOtherFiles(n: Node, m: Node, f: string) {
    forall g, c :: g != f ==>
      && (Indexed(m.index, g, c) <==> Indexed(n.index, g, c))
      && (OnDisk(m.tree, g, c) <==> OnDisk(n.tree, g, c))
      && Lookup(m, g, c) == Lookup(n, g, c)
  }

  lemma FreshHoldsSlices(n: Node, f: string, content: Bytes)
    requires Sound(n) && !HasFiles(n.tree, f)
    ensures HoldsSlices(n, f, content)
  {
    HasFilesMeansOnDisk(n.tree, f);
    assert !Named(n.index, f);
  }

  ghost predicate SavedSlice(n: Node, m: Node, f: string, c: int, content: Bytes) {
    && HoldsSlices(m, f, content) && UploadedLast(m, f) && SameOtherFiles(n, m, f)
    && (forall d :: OnDisk(m.tree, f, d) <==> OnDisk(n.tree, f, d) || d == c)
    && (Agrees(n) ==> Agrees(m))
  }

  /** A save during a one-after-another upload succeeds and is filed under its own name. */
  lemma SliceIsSaved(n: Node, f: string, c: nat, content: Bytes)
    requires Sound(n) && HoldsSlices(n, f, content) && UploadedLast(n, f) && c < ChunkCount(|content|)
    ensures var data := Slice(content, c);
      var (m, outcome) := Save(n, f, c, data, Wrote(|data|));
      outcome == Stored && SavedSlice(n, m, f, c, content)
  {
    if !OnDisk(n.tree, f, c) {
      NewSliceIsSaved(n, f, c, content);
    }
  }

  /** What a save of one new chunk of f does to index and disk. */
  ghost predicate AddsChunk(n: Node, m: Node, f: string, c: int, data: Bytes) {
    && m.index != [] && m.index[|m.index| - 1].filename == f
    && ChunkPath(f, c) in m.tree && m.tree[ChunkPath(f, c)] == Regular(data)
    && (forall g, d ::
          && (OnDisk(m.tree, g, d) <==> OnDisk(n.tree, g, d) || (g == f && d == c))
          && (Indexed(m.index, g, d) <==> Indexed(n.index, g, d) || (g == f && d == c)))
    && (forall g, d :: OnDisk(n.tree, g, d) && (g != f || d != c) ==>
          ChunkPath(g, d) in m.tree && m.tree[ChunkPath(g, d)] == n.tree[ChunkPath(g, d)])
  }

  lemma NewSliceIsSaved(n: Node, f: string, c: nat, content: Bytes)
    requires Sound(n) && HoldsSlices(n, f, content) && UploadedLast(n, f) && c < ChunkCount(|content|)
    requires !OnDisk(n.tree, f, c)
    ensures var data := Slice(content, c);
      SavedSlice(n, Save(n, f, c, data, Wrote(|data|)).0, f, c, content)
  {
    var data := Slice(content, c);
    SaveAddsChunk(n, f, c, data);
    AddedSlice(n, Save(n, f, c, data, Wrote(|data|)).0, f, c, content);
  }

  lemma SaveAddsChunk(n: Node, f: string, c: int, data: Bytes)
    requires Flat(n.tree) && !OnDisk(n.tree, f, c) && data != [] && UploadedLast(n, f)
    ensures AddsChunk(n, Save(n, f, c, data, Wrote(|data|)).0, f, c, data)
  {
    WriteTree(n.tree, f, c, data);
    InsertEffect(n.index, f, c, HasFiles(n.tree, f));
  }

  lemma AddedSlice(n: Node, m: Node, f: string, c: nat, content: Bytes)
    requires HoldsSlices(n, f, content) && c < ChunkCount(|content|) && !OnDisk(n.tree, f, c)
    requires AddsChunk(n, m, f, c, Slice(content, c))
    ensures SavedSlice(n, m, f, c, content)
  {
    assert OnDisk(m.tree, f, c);
    forall d
      ensures OnDisk(m.tree, f, d) ==>
        0 <= d < ChunkCount(|content|) && m.tree[ChunkPath(f, d)] == Regular(Slice(content, d))
      ensures Indexed(m.index, f, d) <==> OnDisk(m.tree, f, d)
    {
      assert Indexed(n.index, f, d) <==> OnDisk(n.tree, f, d);
    }
    forall g, d | g != f ensures Lookup(m, g, d) == Lookup(n, g, d) {
      assert OnDisk(m.tree, g, d) <==> OnDisk(n.tree, g, d);
      assert Indexed(m.index, g, d) <==> Indexed(n.index, g, d);
    }
  }

  // The cluster during an upload

  predicate Registered(s: System, id: Id) {
    View(s.master, id).Some?
  }

  /** The address belongs to a registered, running process. */
  ghost predicate Serves(s: System, a: Addr) {
    exists id :: Registered(s, id) && id in s.channels && id in s.ips && s.ips[id] == a
  }

  /** An address reaches one running process. */
  ghost predicate DistinctAddresses(s: System)
    requires Linked(s)
  {
    forall i, j :: i in s.channels && j in s.channels && s.ips[i] == s.ips[j] ==> i == j
  }

  ghost predicate Uploading(s: System, f: string, content: Bytes) {
    && Invariant(s)
    && DistinctAddresses(s)
    && (forall id :: id in s.nodes ==> HoldsSlices(s.nodes[id], f, content) && UploadedLast(s.nodes[id], f))
  }

  ghost predicate Placed(s: System, f: string, c: int) {
    exists id :: Registered(s, id) && id in s.nodes && OnDisk(s.nodes[id].tree, f, c)
  }

  /** Same processes and addresses; members stay; chunks of f only appear; other files stay as they were. */
  ghost predicate Grows(s: System, t: System, f: string) {
    && t.nodes.Keys == s.nodes.Keys && t.ips == s.ips && t.channels.Keys == s.channels.Keys
    && (forall id :: Registered(s, id) ==> Registered(t, id))
    && (s.master.conns != [] ==> t.master.conns != [])
    && (forall id :: id in s.nodes ==>
          && SameOtherFiles(s.nodes[id], t.nodes[id], f)
          && (forall c :: OnDisk(s.nodes[id].tree, f, c) ==> OnDisk(t.nodes[id].tree, f, c))
          && (Agrees(s.nodes[id]) ==> Agrees(t.nodes[id])))
  }

  /** The addresses of the registered nodes that hold a chunk. */
  ghost function Holders(s: System, f: string, c: int): set<Addr> {
    set id | id in s.nodes && id in s.ips && Registered(s, id) && OnDisk(s.nodes[id].tree, f, c) :: s.ips[id]
  }

  lemma HoldersGrow(s: System, t: System, f: string, c: int)
    requires Grows(s, t, f)
    ensures Holders(s, f, c) <= Holders(t, f, c)
  {
    forall a | a in Holders(s, f, c) ensures a in Holders(t, f, c) {
      var id :| id in s.nodes && id in s.ips && Registered(s, id) && OnDisk(s.nodes[id].tree, f, c) && s.ips[id] == a;
      assert id in t.nodes && OnDisk(t.nodes[id].tree, f, c);
    }
  }

  /** From s to t only chunk c of f can have appeared, and only at running processes with these addresses. */
  ghost predicate OnlyAdds(s: System, t: System, f: string, c: int, addrs: set<Addr>) {
    && (addrs == {} ==> t.nodes == s.nodes)
    && (forall id, d :: id in s.nodes && id in t.nodes && OnDisk(t.nodes[id].tree, f, d) ==>
          OnDisk(s.nodes[id].tree, f, d) || (d == c && id in s.channels && id in s.ips && s.ips[id] in addrs))
  }

  lemma OnlyAddsTransitive(s: System, t: System, u: System, f: string, c: int, a: set<Addr>, b: set<Addr>)
    requires OnlyAdds(s, t, f, c, a) && OnlyAdds(t, u, f, c, b)
    requires t.nodes.Keys == s.nodes.Keys && t.ips == s.ips && t.channels.Keys == s.channels.Keys
    ensures OnlyAdds(s, u, f, c, a + b)
  {
    assert forall id :: id in s.channels <==> id in t.channels.Keys;
    assert a + b == {} ==> a == {} && b == {};
    forall id, d | id in s.nodes && id in u.nodes && OnDisk(u.nodes[id].tree, f, d)
      ensures OnDisk(s.nodes[id].tree, f, d) || (d == c && id in s.channels && id in s.ips && s.ips[id] in a + b)
    {
      assert id in t.nodes.Keys;
      assert OnDisk(t.nodes[id].tree, f, d) || (d == c && id in t.channels && id in t.ips && t.ips[id] in b);
    }
  }

  /** A process has the chunk on disk exactly when it is running at one of these addresses. */
  ghost predicate HeldAt(s: System, f: string, c: int, addrs: set<Addr>) {
    forall id :: id in s.nodes ==>
      (OnDisk(s.nodes[id].tree, f, c) <==> id in s.channels && id in s.ips && s.ips[id] in addrs)
  }

  /** Chunk c is exactly at the running processes with an address in placement[c], all of them registered. */
  ghost predicate PlacedExactly(s: System, f: string, placement: seq<set<Addr>>) {
    && (forall c :: 0 <= c < |placement| ==> HeldAt(s, f, c, placement[c]) && placement[c] <= Holders(s, f, c))
    && (forall c :: c < 0 || |placement| <= c ==> HeldAt(s, f, c, {}))
  }

  /** Storing one chunk leaves every other chunk of the file where it was. */
  lemma OtherChunksStay(s: System, t: System, f: string, c: int, addrs: set<Addr>, d: int, held: set<Addr>)
    requires Grows(s, t, f) && OnlyAdds(s, t, f, c, addrs) && d != c && HeldAt(s, f, d, held)
    ensures HeldAt(t, f, d, held)
  {
    forall id | id in t.nodes
      ensures OnDisk(t.nodes[id].tree, f, d) <==> id in t.channels && id in t.ips && t.ips[id] in held
    {
      assert id in s.nodes.Keys && (id in s.channels <==> id in t.channels.Keys);
      assert OnDisk(s.nodes[id].tree, f, d) <==> OnDisk(t.nodes[id].tree, f, d);
    }
  }

  /** A chunk nobody had is afterwards exactly where it was stored. */
  lemma NewChunkIsHeld(s: System, t: System, f: string, c: int, addrs: set<Addr>)
    requires Grows(s, t, f) && OnlyAdds(s, t, f, c, addrs) && HeldAt(s, f, c, {})
    requires Linked(t) && DistinctAddresses(t) && addrs <= Holders(t, f, c)
    ensures HeldAt(t, f, c, addrs)
  {
    forall id | id in t.nodes
      ensures OnDisk(t.nodes[id].tree, f, c) <==> id in t.channels && id in t.ips && t.ips[id] in addrs
    {
      assert id in s.nodes.Keys && (id in s.channels <==> id in t.channels.Keys);
      if id in t.channels && t.ips[id] in addrs {
        assert t.ips[id] in Holders(t, f, c);
        var x :| x in t.nodes && x in t.ips && Registered(t, x) && OnDisk(t.nodes[x].tree, f, c)
          && t.ips[x] == t.ips[id];
        assert t.master.conns[Find(t.master.conns, x)].id == x;
      }
    }
  }

  lemma PlacementGrows(s: System, t: System, f: string, placement: seq<set<Addr>>, addrs: set<Addr>)
    requires Linked(t) && DistinctAddresses(t)
    requires Grows(s, t, f) && OnlyAdds(s, t, f, |placement|, addrs) && addrs <= Holders(t, f, |placement|)
    requires PlacedExactly(s, f, placement)
    ensures PlacedExactly(t, f, placement + [addrs])
  {
    hide Grows, OnlyAdds, HeldAt, Holders, Linked, DistinctAddresses;
    var k, more := |placement|, placement + [addrs];
    forall c | 0 <= c < |more| ensures HeldAt(t, f, c, more[c]) && more[c] <= Holders(t, f, c) {
      if c < k {
        OtherChunksStay(s, t, f, k, addrs, c, placement[c]);
        HoldersGrow(s, t, f, c);
      } else {
        NewChunkIsHeld(s, t, f, k, addrs);
      }
    }
    forall c | c < 0 || |more| <= c ensures HeldAt(t, f, c, {}) {
      OtherChunksStay(s, t, f, k, addrs, c, {});
    }
  }

  /** Every chunk is on a registered node exactly when it was placed somewhere. */
  lemma PlacedIff(s: System, f: string, placement: seq<set<Addr>>)
    requires RegistryOk(s) && PlacedExactly(s, f, placement)
    ensures forall c :: 0 <= c < |placement| ==> Holders(s, f, c) == placement[c]
    ensures AllPlaced(s, f, |placement|) <==> forall c :: 0 <= c < |placement| ==> placement[c] != {}
  {
    forall c | 0 <= c < |placement|
      ensures Holders(s, f, c) == placement[c] && (Placed(s, f, c) <==> placement[c] != {})
    {
      assert HeldAt(s, f, c, placement[c]);
      if placement[c] != {} {
        var a :| a in placement[c];
        assert a in Holders(s, f, c);
      }
      if Placed(s, f, c) {
        var id :| Registered(s, id) && id in s.nodes && OnDisk(s.nodes[id].tree, f, c);
        assert s.ips[id] in placement[c];
      }
    }
  }

  /** Chunks 0 to k - 1 are each on some registered node. */
  ghost predicate AllPlaced(s: System, f: string, k: nat) {
    forall c :: 0 <= c < k ==> Placed(s, f, c)
  }

  lemma AllPlacedStays(s: System, t: System, f: string, k: nat)
    requires Grows(s, t, f) && AllPlaced(s, f, k)
    ensures AllPlaced(t, f, k)
  {
    forall c | 0 <= c < k ensures Placed(t, f, c) {
      PlacedStays(s, t, f, c);
    }
  }

  lemma PlacedStays(s: System, t: System, f: string, c: int)
    requires Grows(s, t, f) && Placed(s, f, c)
    ensures Placed(t, f, c)
  {
    var id :| Registered(s, id) && id in s.nodes && OnDisk(s.nodes[id].tree, f, c);
    assert OnDisk(t.nodes[id].tree, f, c);
  }

  lemma GrowsTransitive(s: System, t: System, u: System, f: string)
    requires Grows(s, t, f) && Grows(t, u, f)
    ensures Grows(s, u, f)
  {
    forall id | id in s.nodes
      ensures SameOtherFiles(s.nodes[id], u.nodes[id], f)
      ensures forall c :: OnDisk(s.nodes[id].tree, f, c) ==> OnDisk(u.nodes[id].tree, f, c)
      ensures Agrees(s.nodes[id]) ==> Agrees(u.nodes[id])
    {
      assert id in t.nodes;
      forall g, c | g != f
        ensures Indexed(u.nodes[id].index, g, c) <==> Indexed(s.nodes[id].index, g, c)
        ensures OnDisk(u.nodes[id].tree, g, c) <==> OnDisk(s.nodes[id].tree, g, c)
        ensures Lookup(u.nodes[id], g, c) == Lookup(s.nodes[id], g, c)
      {
        assert Indexed(t.nodes[id].index, g, c) <==> Indexed(s.nodes[id].index, g, c);
      }
    }
  }

  /** Traffic that may run between the client's requests: reports, their delivery, other write requests. */
  predicate Quiet(e: Event) {
    e.Report? || e.Deliver? || e.Pick?
  }

  predicate AllQuiet(es: seq<Event>) {
    forall i :: 0 <= i < |es| ==> Quiet(es[i])
  }

  /** Quiet traffic leaves nodes, addresses and membership alone. */
  ghost predicate Undisturbed(s: System, t: System) {
    && t.nodes == s.nodes && t.ips == s.ips && t.channels.Keys == s.channels.Keys
    && (forall id :: Registered(s, id) ==> Registered(t, id))
    && (s.master.conns != [] ==> t.master.conns != [])
  }

  lemma UndisturbedTransitive(s: System, t: System, u: System)
    requires Undisturbed(s, t) && Undisturbed(t, u)
    ensures Undisturbed(s, u)
    ensures s.master.conns != [] ==> t.master.conns != []
  {
  }

  lemma {:induction false} QuietRun(s: System, es: seq<Event>)
    requires Linked(s) && AllQuiet(es)
    ensures Undisturbed(s, RunFrom(s, es)) && Linked(RunFrom(s, es))
  {
    if es != [] {
      var k := |es| - 1;
      QuietRun(s, es[..k]);
      QuietStep(RunFrom(s, es[..k]), es[k]);
    }
  }

  lemma ReceiveKeepsSome(m: Master, id: Id, ip: Addr, msg: Message)
    ensures m.conns != [] ==> Receive(m, id, ip, msg).conns != []
  {
  }

  lemma QuietDelivery(s: System, id: Id)
    requires Linked(s) && Enabled(s, Deliver(id))
    ensures Undisturbed(s, Step(s, Deliver(id)))
  {
    hide Linked, Receive, View;
    ReceiveKeepsSome(s.master, id, s.ips[id], s.channels[id][0]);
    forall x | Registered(s, x) ensures Registered(Step(s, Deliver(id)), x) {
      DeliverView(s, id, x);
    }
  }

  lemma QuietStep(s: System, e: Event)
    requires Linked(s) && Quiet(e)
    ensures Undisturbed(s, Step(s, e)) && Linked(Step(s, e))
  {
    hide Linked, Receive, Increment, View;
    if Enabled(s, e) {
      match e
      case Report(id) => ReportKeepsLinked(s, id);
      case Deliver(id) =>
        DeliverKeepsLinked(s, id);
        QuietDelivery(s, id);
      case Pick =>
        PickKeepsLinked(s);
        PickKeepsViews(s.master);
    }
  }

  lemma PickKeepsViews(m: Master)
    ensures Increment(m).0.conns == m.conns
    ensures forall x :: View(Increment(m).0, x) == View(m, x)
  {
  }

  lemma UndisturbedGrows(s: System, t: System, f: string, content: Bytes)
    requires Uploading(s, f, content) && Undisturbed(s, t) && Linked(t)
    ensures Uploading(t, f, content) && Grows(s, t, f)
  {
  }

  lemma ServesStays(s: System, t: System, a: Addr, f: string)
    requires Serves(s, a) && (Undisturbed(s, t) || Grows(s, t, f))
    ensures Serves(t, a)
  {
    var id :| Registered(s, id) && id in s.channels && id in s.ips && s.ips[id] == a;
    assert id in t.channels.Keys;
  }

  lemma PostGrows(s: System, id: Id, f: string, c: nat, content: Bytes)
    requires Uploading(s, f, content) && c < ChunkCount(|content|) && id in s.channels && id in s.nodes && id in s.ips
    ensures var t := Step(s, FullPost(id, f, c, Slice(content, c)));
      && Uploading(t, f, content) && Grows(s, t, f) && OnlyAdds(s, t, f, c, {s.ips[id]})
      && OnDisk(t.nodes[id].tree, f, c) && t.master == s.master
  {
    hide Sound, HoldsSlices, UploadedLast, Save, SavedSlice, Grows, OnlyAdds, Linked;
    var n, data := s.nodes[id], Slice(content, c);
    SliceIsSaved(n, f, c, content);
    SaveKeepsSound(n, f, c, data, Wrote(|data|));
    NodeReplaced(s, id, Save(n, f, c, data, Wrote(|data|)).0, f, c, content);
  }

  lemma NodeReplaced(s: System, id: Id, m: Node, f: string, c: int, content: Bytes)
    requires Uploading(s, f, content) && id in s.channels && id in s.nodes && id in s.ips
    requires Sound(m) && SavedSlice(s.nodes[id], m, f, c, content)
    ensures var t := s.(nodes := s.nodes[id := m]);
      && Uploading(t, f, content) && Grows(s, t, f) && OnlyAdds(s, t, f, c, {s.ips[id]})
      && OnDisk(t.nodes[id].tree, f, c)
  {
    hide Sound, HoldsSlices, UploadedLast, Grows, OnlyAdds, QueuesOk;
    NodeReplacedGrows(s, id, m, f, c, content);
    NodeReplacedAdds(s, id, m, f, c, content);
    NodeStepKeepsInvariant(s, id, m);
    var t := s.(nodes := s.nodes[id := m]);
    forall x | x in t.nodes ensures HoldsSlices(t.nodes[x], f, content) && UploadedLast(t.nodes[x], f) {
      assert x != id ==> t.nodes[x] == s.nodes[x];
    }
  }

  lemma NodeReplacedAdds(s: System, id: Id, m: Node, f: string, c: int, content: Bytes)
    requires id in s.channels && id in s.nodes && id in s.ips && SavedSlice(s.nodes[id], m, f, c, content)
    ensures OnlyAdds(s, s.(nodes := s.nodes[id := m]), f, c, {s.ips[id]})
  {
    var t := s.(nodes := s.nodes[id := m]);
    forall x, d | x in s.nodes && x in t.nodes && OnDisk(t.nodes[x].tree, f, d)
      ensures OnDisk(s.nodes[x].tree, f, d) || (d == c && x == id)
    {
      assert x != id ==> t.nodes[x] == s.nodes[x];
    }
  }

  lemma NodeReplacedGrows(s: System, id: Id, m: Node, f: string, c: int, content: Bytes)
    requires id in s.nodes && SavedSlice(s.nodes[id], m, f, c, content)
    ensures Grows(s, s.(nodes := s.nodes[id := m]), f)
  {
    var t := s.(nodes := s.nodes[id := m]);
    forall x | x in s.nodes
      ensures SameOtherFiles(s.nodes[x], t.nodes[x], f)
      ensures forall d :: OnDisk(s.nodes[x].tree, f, d) ==> OnDisk(t.nodes[x].tree, f, d)
      ensures Agrees(s.nodes[x]) ==> Agrees(t.nodes[x])
    {
      if x != id {
        assert t.nodes[x] == s.nodes[x];
      }
    }
  }
}
