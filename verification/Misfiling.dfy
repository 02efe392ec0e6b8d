/** One node alone in a cluster, and what misfiled chunks there mean for readFile. */
module Misfiling {
  import opened Common
  import opened FileTree
  import opened Storage
  import NodeRuns
  import opened Registry
  import opened Chunks
  import opened Cluster
  import opened Placement
  import opened Reports
  import opened SettledReads
  import opened Truth

  // A node's run, lifted to a cluster

  function EventOf(id: Id, op: NodeRuns.NodeOp): Event {
    match op
    case Put(f, c, data, w) => Post(id, f, c, data, w)
    case Del(f) => Erase(id, f)
  }

  function Requests(id: Id, ops: seq<NodeRuns.NodeOp>): seq<Event> {
    seq(|ops|, i requires 0 <= i < |ops| => EventOf(id, ops[i]))
  }

  /** Start one node, send it the requests, and let its join and one report arrive. */
  function LoneRun(id: Id, ip: Addr, ops: seq<NodeRuns.NodeOp>): seq<Event> {
    [Start(id, ip)] + Requests(id, ops) + [Report(id), Deliver(id), Deliver(id)]
  }

  ghost predicate Lone(s: System, id: Id, n: Node) {
    Readable(s) && Registered(s, id) && s.nodes == map[id := n]
  }

  lemma RequestStep(s: System, id: Id, n: Node, op: NodeRuns.NodeOp)
    requires s.nodes == map[id := n] && NodeRuns.Defined(n, op)
    ensures Step(s, EventOf(id, op)) == s.(nodes := map[id := NodeRuns.Apply(n, op)])
  {
    hide Save, Delete;
    assert s.nodes[id := NodeRuns.Apply(n, op)] == map[id := NodeRuns.Apply(n, op)];
  }

  lemma {:induction false} RequestsRun(s: System, id: Id, ops: seq<NodeRuns.NodeOp>)
    requires NodeRuns.DefinedRun(ops) && s.nodes == map[id := EMPTY_NODE]
    ensures RunFrom(s, Requests(id, ops)) == s.(nodes := map[id := NodeRuns.After(ops)])
  {
    if ops == [] {
      assert s.(nodes := map[id := EMPTY_NODE]) == s;
    } else {
      hide Step, NodeRuns.DefinedRun, NodeRuns.Defined, NodeRuns.Apply;
      var es, init, op := Requests(id, ops), ops[..|ops| - 1], ops[|ops| - 1];
      assert ops == init + [op] && es[..|es| - 1] == Requests(id, init) && es[|es| - 1] == EventOf(id, op);
      NodeRuns.DefinedOneMore(init, op);
      RequestsRun(s, id, init);
      RequestStep(s.(nodes := map[id := NodeRuns.After(init)]), id, NodeRuns.After(init), op);
    }
  }

  lemma ReportArrives(s: System, id: Id, ip: Addr, n: Node)
    requires s == System(map[id := n], map[id := ip], map[id := [Join]], NEW_MASTER)
    ensures RunFrom(s, [Report(id), Deliver(id), Deliver(id)])
         == System(map[id := n], map[id := ip], map[id := []], Master([Connection(id, ip, n.index)], 0))
  {
    var a := s.(channels := map[id := [Join, Health(n.index)]]);
    var b := a.(channels := map[id := [Health(n.index)]], master := Master([Connection(id, ip, [])], 0));
    var c := b.(channels := map[id := []], master := Master([Connection(id, ip, n.index)], 0));
    assert Step(s, Report(id)) == a by {
      assert [Join] + [Health(n.index)] == [Join, Health(n.index)];
      assert s.channels[id := [Join, Health(n.index)]] == a.channels;
    }
    assert Step(a, Deliver(id)) == b by {
      assert a.channels[id := [Health(n.index)]] == b.channels;
      assert [] + [Connection(id, ip, [])] == [Connection(id, ip, [])];
    }
    assert Step(b, Deliver(id)) == c by {
      assert b.channels[id := []] == c.channels && Find(b.master.conns, id) == 0;
      assert b.master.conns[0 := Connection(id, ip, n.index)] == [Connection(id, ip, n.index)];
    }
    ThreeSteps(s, Report(id), Deliver(id), Deliver(id));
  }

  lemma ThreeSteps(s: System, e: Event, f: Event, g: Event)
    ensures RunFrom(s, [e, f, g]) == Step(Step(Step(s, e), f), g)
  {
    hide Step;
    assert [e, f, g][..2] == [e, f] && [e, f][..1] == [e] && [e][..0] == [];
    assert RunFrom(s, [e]) == Step(s, e);
    assert RunFrom(s, [e, f]) == Step(RunFrom(s, [e]), f);
  }

  lemma StartAlone(id: Id, ip: Addr)
    ensures After([Start(id, ip)])
         == System(map[id := EMPTY_NODE], map[id := ip], map[id := [Join]], NEW_MASTER)
  {
    RunOne(NO_SYSTEM, Start(id, ip));
  }

  /** Every defined run of a node is the history of the only member of some settled cluster. */
  lemma LoneRunSettles(id: Id, ip: Addr, ops: seq<NodeRuns.NodeOp>)
    requires NodeRuns.DefinedRun(ops)
    ensures Lone(After(LoneRun(id, ip, ops)), id, NodeRuns.After(ops))
  {
    var n := NodeRuns.After(ops);
    StartAlone(id, ip);
    RequestsRun(After([Start(id, ip)]), id, ops);
    RunsCompose(NO_SYSTEM, [Start(id, ip)], Requests(id, ops));
    var s := System(map[id := n], map[id := ip], map[id := [Join]], NEW_MASTER);
    assert After([Start(id, ip)] + Requests(id, ops)) == s;
    RunsCompose(NO_SYSTEM, [Start(id, ip)] + Requests(id, ops), [Report(id), Deliver(id), Deliver(id)]);
    ReportArrives(s, id, ip, n);
    ReachableInvariant(LoneRun(id, ip, ops));
    hide RunFrom, Sound, QueuesOk;
    LoneIsReadable(After(LoneRun(id, ip, ops)), id, ip, n);
  }

  lemma LoneIsReadable(s: System, id: Id, ip: Addr, n: Node)
    requires s == System(map[id := n], map[id := ip], map[id := []], Master([Connection(id, ip, n.index)], 0))
    requires Invariant(s)
    ensures Lone(s, id, n)
  {
    hide Sound, QueuesOk;
    assert Find(s.master.conns, id) == 0;
  }

  /** Only this node's index and disk decide. */
  lemma LoneMeans(s: System, id: Id, n: Node, f: string, content: Bytes)
    requires Lone(s, id, n)
    ensures forall c :: Listed(s, f, c) <==> Indexed(n.index, f, c)
    ensures Present(s, f) <==> forall c :: Indexed(n.index, f, c) ==> OnDisk(n.tree, f, c)
    ensures Honest(s, f, content) <==> forall c :: Indexed(n.index, f, c) ==> Whole(n, f, c, content)
    ensures forall c :: Obtainable(s, f, c, content) <==> Indexed(n.index, f, c) && Whole(n, f, c, content)
  {
    hide Readable, View, Indexed, Whole;
    forall x ensures x in s.nodes <==> x == id {}
    forall c ensures Listed(s, f, c) <==> Indexed(n.index, f, c) {
      assert s.nodes[id] == n;
    }
  }

  // Two files uploaded turn by turn

  function Turn(f: string, c: nat, content: Bytes): NodeRuns.NodeOp
    requires c < ChunkCount(|content|)
  {
    NodeRuns.Full(f, c, Slice(content, c))
  }

  lemma FullTurnsAreTrue(id: Id, ip: Addr, ops: seq<NodeRuns.NodeOp>, truth: map<string, Bytes>)
    requires forall i :: 0 <= i < |ops| ==>
      && ops[i].Put? && ops[i].file in truth && 0 <= ops[i].chunk < ChunkCount(|truth[ops[i].file]|)
      && ops[i].data == Slice(truth[ops[i].file], ops[i].chunk) && !Partial(ops[i].data, ops[i].write)
    ensures SingleContent(LoneRun(id, ip, ops), truth) && NoShortWrites(LoneRun(id, ip, ops))
  {
    var es := LoneRun(id, ip, ops);
    forall i | 0 <= i < |es| && es[i].Post?
      ensures TruePost(es[i], truth) && !Partial(es[i].data, es[i].write)
    {
      assert es[i] == EventOf(id, ops[i - 1]);
    }
  }

  /** A settled node whose disk is true has every chunk of f that it has in full. */
  lemma OnDiskIsWhole(n: Node, f: string, c: int, truth: map<string, Bytes>)
    requires TrueDisk(n, truth) && f in truth && OnDisk(n.tree, f, c)
    ensures Whole(n, f, c, truth[f])
  {
    assert TrueChunk(n.tree, f, c, truth);
  }

  lemma LoneTruth(id: Id, ip: Addr, ops: seq<NodeRuns.NodeOp>, truth: map<string, Bytes>, f: string)
    requires NodeRuns.DefinedRun(ops) && f in truth
    requires SingleContent(LoneRun(id, ip, ops), truth) && NoShortWrites(LoneRun(id, ip, ops))
    ensures var s := After(LoneRun(id, ip, ops));
      && CutFile(s, f, truth[f])
      && forall c :: OnDisk(NodeRuns.After(ops).tree, f, c) ==> Whole(NodeRuns.After(ops), f, c, truth[f])
  {
    var s := After(LoneRun(id, ip, ops));
    LoneRunSettles(id, ip, ops);
    RunsKeepTrueDisks(LoneRun(id, ip, ops), truth);
    assert s.nodes[id] == NodeRuns.After(ops);
    hide RunFrom, Slice, Lone;
    forall x, c | x in s.nodes && OnDisk(s.nodes[x].tree, f, c) ensures Whole(s.nodes[x], f, c, truth[f]) {
      OnDiskIsWhole(s.nodes[x], f, c, truth);
    }
    WholeIsCut(s, f, truth[f]);
  }

  lemma WholeIsCut(s: System, f: string, content: Bytes)
    requires forall x, c :: x in s.nodes && OnDisk(s.nodes[x].tree, f, c) ==> Whole(s.nodes[x], f, c, content)
    ensures CutFile(s, f, content)
  {
    hide Slice;
    forall x, c | x in s.nodes && OnDisk(s.nodes[x].tree, f, c)
      ensures var t := s.nodes[x].tree;
        0 <= c < ChunkCount(|content|) && t[ChunkPath(f, c)].Regular? && t[ChunkPath(f, c)].data <= Slice(content, c)
    {
      assert Whole(s.nodes[x], f, c, content);
    }
  }

  /** A lone node that lists only f's first chunk, and has it: every read of f succeeds and comes back short. */
  lemma OnlyFirstListed(s: System, id: Id, n: Node, f: string, x: Bytes)
    requires Lone(s, id, n) && CutFile(s, f, x) && ChunkCount(|x|) >= 2
    requires (forall c :: Indexed(n.index, f, c) <==> c == 0) && OnDisk(n.tree, f, 0)
    ensures AlwaysCutShort(s, f, x)
  {
    hide Readable, AlwaysCutShort, CutFile, Whole, Indexed, Present, Obtainable, Listed, Lone;
    LoneMeans(s, id, n, f, x);
    LoneParts(s, id, n);
    AlwaysCutShortIff(s, f, x);
    assert Listed(s, f, 0) && !Obtainable(s, f, 1, x);
  }

  lemma LoneParts(s: System, id: Id, n: Node)
    requires Lone(s, id, n)
    ensures Readable(s) && Registered(s, id) && s.nodes == map[id := n]
  {
  }

  /** After one turn each, whatever else the cluster is: f comes back short and g can fail. */
  lemma OneTurnReads(s: System, id: Id, n: Node, f: string, g: string, x: Bytes)
    requires Lone(s, id, n) && f != g && ChunkCount(|x|) >= 2
    requires NodeRuns.OneTurnMisfiled(n, f, g) && CutFile(s, f, x)
    ensures AlwaysCutShort(s, f, x) && !AlwaysSucceeds(s, g)
  {
    hide Readable, AlwaysCutShort, AlwaysSucceeds, CutFile, Whole, Indexed, Present, Obtainable, Listed, Lone;
    IndexOfTwo(n.index, f, g, [0], [0, 1]);
    OnlyFirstListed(s, id, n, f, x);
    LoneMeans(s, id, n, g, x);
    LoneParts(s, id, n);
    AlwaysSucceedsIff(s, g);
    assert Indexed(n.index, g, 1) && !OnDisk(n.tree, g, 1);
  }

  function OneTurn(f: string, g: string, x: Bytes, y: Bytes): seq<NodeRuns.NodeOp>
    requires ChunkCount(|x|) >= 2 && ChunkCount(|y|) >= 1
  {
    [Turn(f, 0, x), Turn(g, 0, y), Turn(f, 1, x)]
  }

  /**
   The failing input end to end: one node, and two clients that upload f and g turn by turn. As soon as f's
   second chunk is stored, before g's, every readFile of f returns true without it, and some readFile of g fails.
   */
  lemma OneTurnLosesAChunk(id: Id, ip: Addr, f: string, g: string, x: Bytes, y: Bytes)
    requires f != g && ChunkCount(|x|) >= 2 && ChunkCount(|y|) >= 1
    ensures var es := LoneRun(id, ip, OneTurn(f, g, x, y));
      && SingleContent(es, map[f := x, g := y]) && Readable(After(es))
      && AlwaysCutShort(After(es), f, x) && !AlwaysSucceeds(After(es), g)
  {
    var ops, truth := OneTurn(f, g, x, y), map[f := x, g := y];
    FullTurnsAreTrue(id, ip, ops, truth);
    NodeRuns.InterleavedUploadMisfiled(ops, f, g, Slice(x, 0), Slice(y, 0), Slice(x, 1));
    NodeRuns.HealthyRunsAreConsistent(ops);
    hide RunFrom, NodeRuns.After, Slice, Readable, AlwaysCutShort, AlwaysSucceeds, SingleContent, NoShortWrites;
    hide NodeRuns.OneTurnMisfiled, CutFile, LoneRun, OneTurn;
    LoneRunSettles(id, ip, ops);
    LoneTruth(id, ip, ops, truth, f);
    OneTurnReads(After(LoneRun(id, ip, ops)), id, NodeRuns.After(ops), f, g, x);
  }

  lemma IndexOfTwo(index: seq<FileMapping>, f: string, g: string, xs: seq<int>, ys: seq<int>)
    requires f != g && index == [FileMapping(f, xs)] + [FileMapping(g, ys)]
    ensures forall c :: Indexed(index, f, c) <==> c in xs
    ensures forall c :: Indexed(index, g, c) <==> c in ys
  {
    assert index[0] in index && index[1] in index;
    assert forall e :: e in index <==> e == index[0] || e == index[1];
  }

  lemma TwoTurnReads(s: System, id: Id, n: Node, f: string, g: string, x: Bytes, y: Bytes)
    requires Lone(s, id, n) && f != g && ChunkCount(|x|) >= 2 && ChunkCount(|y|) >= 2
    requires n.index == [FileMapping(f, [0])] + [FileMapping(g, [0, 1, 1])]
    requires forall h, d :: OnDisk(n.tree, h, d) <==> (h == f || h == g) && (d == 0 || d == 1)
    requires CutFile(s, f, x) && CutFile(s, g, y)
    requires forall c :: OnDisk(n.tree, g, c) ==> Whole(n, g, c, y)
    ensures AlwaysCutShort(s, f, x) && AlwaysSucceeds(s, g)
    ensures AlwaysReadsBack(s, g, y) <==> ChunkCount(|y|) == 2
  {
    hide Readable, AlwaysCutShort, AlwaysSucceeds, AlwaysReadsBack, CutFile, Whole, Indexed, Present, Listed, Lone;
    hide Obtainable, Honest;
    IndexOfTwo(n.index, f, g, [0], [0, 1, 1]);
    OnlyFirstListed(s, id, n, f, x);
    LoneMeans(s, id, n, g, y);
    LoneParts(s, id, n);
    AlwaysSucceedsIff(s, g);
    assert Listed(s, g, 0);
    ReadsBackIff(s, g, y);
    if ChunkCount(|y|) > 2 {
      assert !Listed(s, g, 2);
    }
  }

  function TwoTurns(f: string, g: string, x: Bytes, y: Bytes): seq<NodeRuns.NodeOp>
    requires ChunkCount(|x|) >= 2 && ChunkCount(|y|) >= 2
  {
    OneTurn(f, g, x, y) + [Turn(g, 1, y)]
  }

  /**
   One turn later the loss no longer shows on g's side: g's own second chunk is there for the misfiled id. Every
   readFile of f still returns true without its second chunk, and every readFile of a two-chunk g is exact.
   */
  lemma TwoTurnsHideTheLoss(id: Id, ip: Addr, f: string, g: string, x: Bytes, y: Bytes)
    requires f != g && ChunkCount(|x|) >= 2 && ChunkCount(|y|) >= 2
    ensures var es := LoneRun(id, ip, TwoTurns(f, g, x, y));
      && SingleContent(es, map[f := x, g := y]) && Readable(After(es))
      && AlwaysCutShort(After(es), f, x) && AlwaysSucceeds(After(es), g)
      && (AlwaysReadsBack(After(es), g, y) <==> ChunkCount(|y|) == 2)
  {
    var ops, truth := TwoTurns(f, g, x, y), map[f := x, g := y];
    FullTurnsAreTrue(id, ip, ops, truth);
    NodeRuns.NextTurnHidesIt(ops, f, g, Slice(x, 0), Slice(y, 0), Slice(x, 1), Slice(y, 1));
    NodeRuns.HealthyRunsAreConsistent(ops);
    hide RunFrom, NodeRuns.After, Slice, Readable, AlwaysCutShort, AlwaysSucceeds, SingleContent, NoShortWrites;
    hide CutFile, LoneRun, TwoTurns, AlwaysReadsBack, Whole;
    LoneRunSettles(id, ip, ops);
    LoneTruth(id, ip, ops, truth, f);
    LoneTruth(id, ip, ops, truth, g);
    TwoTurnReads(After(LoneRun(id, ip, ops)), id, NodeRuns.After(ops), f, g, x, y);
  }
}
