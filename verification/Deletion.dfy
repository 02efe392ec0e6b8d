/** Deleting a file at every node that holds it, and what the master shows once they have reported. */
module Deletion {
  import opened Common
  import opened Storage
  import NodeRuns
  import opened Registry
  import RoundRobin
  import opened Cluster
  import opened Placement
  import opened Reports

  /** Delete requests for f in any number and order, with reports, deliveries and cursor steps in between. */
  ghost predicate Cleanup(es: seq<Event>, f: string) {
    forall i :: 0 <= i < |es| ==> Quiet(es[i]) || (es[i].Erase? && es[i].file == f)
  }

  /** From n to m the node has lost exactly f if it was asked to, and nothing otherwise. */
  ghost predicate Cleaned(n: Node, m: Node, f: string, erased: bool) {
    && m.index == (if erased then RemoveEntry(n.index, f) else n.index)
    && (erased ==> forall c :: !OnDisk(m.tree, f, c))
    && (forall g, c :: g != f ==> Lookup(m, g, c) == Lookup(n, g, c))
  }

  ghost predicate AllRegistered(s: System) {
    forall id :: id in s.channels ==> Registered(s, id)
  }

  lemma DeleteCleans(n: Node, f: string)
    requires Sound(n)
    ensures Cleaned(n, Delete(n, f).0, f, true)
  {
    NodeRuns.DeleteEffect(n, f);
    NodeRuns.RemoveEntryCutsOne(n.index, f);
  }

  lemma {:induction false} RemovingTwice(index: seq<FileMapping>, f: string)
    requires UniqueNames(index)
    ensures RemoveEntry(RemoveEntry(index, f), f) == RemoveEntry(index, f)
  {
    NodeRuns.RemoveEntryEffect(index, f);
    NodeRuns.AbsentEntryStays(RemoveEntry(index, f), f);
  }

  lemma CleanedChains(n: Node, m: Node, o: Node, f: string, first: bool, second: bool)
    requires Sound(n) && Cleaned(n, m, f, first) && Cleaned(m, o, f, second)
    requires !second ==> o == m
    ensures Cleaned(n, o, f, first || second)
  {
    RemovingTwice(n.index, f);
  }

  /** Same processes, open connections and registry members. */
  ghost predicate SamePlaces(s: System, t: System) {
    && t.nodes.Keys == s.nodes.Keys && t.channels.Keys == s.channels.Keys
    && RoundRobin.SameMembers(s.master, t.master)
  }

  lemma DeliveryKeepsMembers(s: System, id: Id)
    requires Linked(s) && AllRegistered(s) && Enabled(s, Deliver(id))
    ensures SamePlaces(s, Step(s, Deliver(id)))
  {
    hide Find;
    DeliverView(s, id, id);
    RoundRobin.UpdateKeepsMembership(s.master, id, s.channels[id][0].files);
  }

  lemma DeliveryKeepsRegistered(s: System, id: Id)
    requires Linked(s) && AllRegistered(s) && Enabled(s, Deliver(id))
    ensures AllRegistered(Step(s, Deliver(id)))
  {
    hide Find, Linked;
    forall x | x in Step(s, Deliver(id)).channels ensures Registered(Step(s, Deliver(id)), x) {
      DeliverView(s, id, x);
    }
  }

  lemma CleanupStep(s: System, e: Event, f: string)
    requires Invariant(s) && AllRegistered(s) && Cleanup([e], f)
    ensures var t := Step(s, e);
      && Invariant(t) && AllRegistered(t) && SamePlaces(s, t)
      && forall id :: id in s.nodes ==>
           && Cleaned(s.nodes[id], t.nodes[id], f, e == Erase(id, f))
           && (e != Erase(id, f) ==> t.nodes[id] == s.nodes[id])
  {
    hide Invariant, Sound, Find, Cleaned;
    StepKeepsInvariant(s, e);
    assert [e][0] == e;
    InvariantParts(s);
    if Enabled(s, e) && e.Deliver? {
      DeliveryKeepsMembers(s, e.id);
      DeliveryKeepsRegistered(s, e.id);
    }
    forall id | id in s.nodes ensures Cleaned(s.nodes[id], Step(s, e).nodes[id], f, e == Erase(id, f)) {
      if e == Erase(id, f) {
        DeleteCleans(s.nodes[id], f);
      } else {
        UnchangedIsCleaned(s.nodes[id], f);
      }
    }
  }

  lemma InvariantParts(s: System)
    requires Invariant(s)
    ensures Linked(s) && forall id :: id in s.nodes ==> Sound(s.nodes[id])
  {
  }

  lemma UnchangedIsCleaned(n: Node, f: string)
    ensures Cleaned(n, n, f, false)
  {
  }

  /** A whole clean-up: exactly the nodes that got a delete request have lost exactly that file. */
  lemma {:induction false} CleanupRun(s: System, es: seq<Event>, f: string)
    requires Invariant(s) && AllRegistered(s) && Cleanup(es, f)
    ensures var t := RunFrom(s, es);
      && Invariant(t) && AllRegistered(t) && SamePlaces(s, t)
      && forall id :: id in s.nodes ==> Cleaned(s.nodes[id], t.nodes[id], f, Erase(id, f) in es)
  {
    hide Invariant, Sound, Registered, Cleaned, Step;
    if es == [] {
      forall id | id in s.nodes ensures Cleaned(s.nodes[id], s.nodes[id], f, false) {
        UnchangedIsCleaned(s.nodes[id], f);
      }
    } else {
      var k := |es| - 1;
      var init, e := es[..k], es[k];
      assert es == init + [e];
      CleanupRun(s, init, f);
      var m := RunFrom(s, init);
      CleanupStep(m, e, f);
      InvariantParts(s);
      forall id | id in s.nodes ensures Cleaned(s.nodes[id], RunFrom(s, es).nodes[id], f, Erase(id, f) in es) {
        assert id in m.nodes.Keys;
        CleanedChains(s.nodes[id], m.nodes[id], Step(m, e).nodes[id], f, Erase(id, f) in init, e == Erase(id, f));
      }
    }
  }

  /** All queues are empty, so every open connection has registered. */
  ghost predicate Drained(s: System) {
    forall id :: id in s.channels ==> s.channels[id] == []
  }

  lemma DrainedIsRegistered(s: System)
    requires Linked(s) && Drained(s)
    ensures AllRegistered(s)
  {
    forall id | id in s.channels ensures Registered(s, id) {
      assert QueueOk(View(s.master, id), s.channels[id]);
    }
  }

  /** Every view has lost its entry for f and nothing else. */
  ghost predicate EntryRemoved(u: seq<Connection>, v: seq<Connection>, f: string) {
    && |v| == |u|
    && forall i :: 0 <= i < |u| ==>
         v[i].ip == u[i].ip && UniqueNames(u[i].files) && v[i].files == RemoveEntry(u[i].files, f)
  }

  /**
   Delete reaches the master: starting from a settled and drained cluster, once every open node that holds f
   has handled a delete request, in any order and with any quiet traffic in between, and every connection has
   then reported and drained, f has no location and no chunk list, and every other file keeps all its answers.
   */
  lemma DeleteReachesMaster(s: System, deletes: seq<Event>, reports: seq<Event>, f: string)
    requires Invariant(s) && Settled(s) && Drained(s) && Cleanup(deletes, f)
    requires forall id :: id in s.channels && id in s.nodes && HasFiles(s.nodes[id].tree, f) ==> Erase(id, f) in deletes
    requires ReportsDrain(RunFrom(s, deletes), reports)
    ensures var u, v := s.master.conns, RunFrom(RunFrom(s, deletes), reports).master.conns;
      && (forall c :: Locations(v, f, c) == []) && ChunksForFile(v, f) == []
      && (forall g, c :: g != f ==> Locations(v, g, c) == Locations(u, g, c))
      && (forall g :: g != f ==> ChunksForFile(v, g) == ChunksForFile(u, g))
  {
    var u, v := s.master.conns, RunFrom(RunFrom(s, deletes), reports).master.conns;
    ViewsLoseEntry(s, deletes, reports, f);
    hide Invariant, Settled, Drained, Cleanup, ReportsDrain, HasFiles, RunFrom, UniqueNames;
    forall i | 0 <= i < |u| ensures v[i].ip == u[i].ip && LosesOnly(u[i].files, v[i].files, f) {
      RemovedEntryLosesOnly(u[i].files, f);
    }
    AnswersAfterLoss(u, v, f);
  }

  lemma ViewsLoseEntry(s: System, deletes: seq<Event>, reports: seq<Event>, f: string)
    requires Invariant(s) && Settled(s) && Drained(s) && Cleanup(deletes, f)
    requires forall id :: id in s.channels && id in s.nodes && HasFiles(s.nodes[id].tree, f) ==> Erase(id, f) in deletes
    requires ReportsDrain(RunFrom(s, deletes), reports)
    ensures EntryRemoved(s.master.conns, RunFrom(RunFrom(s, deletes), reports).master.conns, f)
  {
    hide Invariant, Linked, Settled, Cleaned, HasFiles, RunFrom, SamePlaces;
    var m := RunFrom(s, deletes);
    var t := RunFrom(m, reports);
    InvariantParts(s);
    DrainedIsRegistered(s);
    CleanupRun(s, deletes, f);
    CleanupRun(m, reports, f);
    InvariantParts(m);
    DrainedReportsSettle(m, reports);
    assert forall id :: Erase(id, f) !in reports;
    SettledViews(s, m, t, deletes, f);
  }

  lemma SettledViews(s: System, m: System, t: System, deletes: seq<Event>, f: string)
    requires Invariant(s) && Settled(s) && Settled(t) && SamePlaces(s, m) && SamePlaces(m, t)
    requires forall id :: id in s.channels && id in s.nodes && HasFiles(s.nodes[id].tree, f) ==> Erase(id, f) in deletes
    requires forall id :: id in s.nodes ==> Cleaned(s.nodes[id], m.nodes[id], f, Erase(id, f) in deletes)
    requires forall id :: id in m.nodes ==> Cleaned(m.nodes[id], t.nodes[id], f, false)
    ensures EntryRemoved(s.master.conns, t.master.conns, f)
  {
    hide Sound, HasFiles, QueuesOk, View, Lookup, OnDisk;
    forall i | 0 <= i < |s.master.conns|
      ensures t.master.conns[i].ip == s.master.conns[i].ip && UniqueNames(s.master.conns[i].files)
      ensures t.master.conns[i].files == RemoveEntry(s.master.conns[i].files, f)
    {
      var id := s.master.conns[i].id;
      assert m.master.conns[i].id == id && t.master.conns[i].id == id;
      assert id in s.nodes && id in m.nodes.Keys;
      UnnamedUnlessHeld(s.nodes[id], f);
    }
  }

  /** In a consistent node only a file with chunks has an entry to remove. */
  lemma UnnamedUnlessHeld(n: Node, f: string)
    requires Sound(n)
    ensures UniqueNames(n.index)
    ensures !HasFiles(n.tree, f) ==> RemoveEntry(n.index, f) == n.index
  {
    if !HasFiles(n.tree, f) {
      assert !Named(n.index, f);
      NotNamed(n.index, f);
      NodeRuns.AbsentEntryStays(n.index, f);
    }
  }

  /** The report lost the file and kept every answer about the others. */
  ghost predicate LosesOnly(before: seq<FileMapping>, after: seq<FileMapping>, f: string) {
    && !Named(after, f)
    && (forall g, c :: g != f ==> (Indexed(after, g, c) <==> Indexed(before, g, c)))
    && (forall g :: g != f ==> FirstChunks(after, g) == FirstChunks(before, g))
  }

  lemma RemovedEntryLosesOnly(index: seq<FileMapping>, f: string)
    requires UniqueNames(index)
    ensures LosesOnly(index, RemoveEntry(index, f), f)
  {
    NodeRuns.RemoveEntryEffect(index, f);
    forall g | g != f ensures FirstChunks(RemoveEntry(index, f), g) == FirstChunks(index, g) {
      RemovalKeepsOthers(index, f, g);
    }
  }

  lemma {:induction false} RemovalKeepsOthers(index: seq<FileMapping>, f: string, g: string)
    requires g != f
    ensures FirstChunks(RemoveEntry(index, f), g) == FirstChunks(index, g)
  {
    if index != [] && index[0].filename != f {
      RemovalKeepsOthers(index[1..], f, g);
      assert RemoveEntry(index, f)[1..] == RemoveEntry(index[1..], f);
    }
  }

  lemma AnswersAfterLoss(u: seq<Connection>, v: seq<Connection>, f: string)
    requires |u| == |v| && forall i :: 0 <= i < |u| ==> v[i].ip == u[i].ip && LosesOnly(u[i].files, v[i].files, f)
    ensures (forall c :: Locations(v, f, c) == []) && ChunksForFile(v, f) == []
    ensures forall g, c :: g != f ==> Locations(v, g, c) == Locations(u, g, c)
    ensures forall g :: g != f ==> ChunksForFile(v, g) == ChunksForFile(u, g)
  {
    hide ChunksForFile, Locations, FirstChunks;
    forall c ensures Locations(v, f, c) == [] {
      NothingLocated(u, v, f, c);
    }
    NothingListed(v, f);
    forall g, c | g != f ensures Locations(v, g, c) == Locations(u, g, c) {
      SameLocations(u, v, g, c);
    }
    forall g | g != f ensures ChunksForFile(v, g) == ChunksForFile(u, g) {
      SameCollection(u, v, g);
    }
  }

  lemma NothingLocated(u: seq<Connection>, v: seq<Connection>, f: string, c: int)
    requires |u| == |v| && forall i :: 0 <= i < |u| ==> LosesOnly(u[i].files, v[i].files, f)
    ensures Locations(v, f, c) == []
  {
    forall i | 0 <= i < |v| ensures !Indexed(v[i].files, f, c) {
      assert !Named(v[i].files, f);
    }
    if Locations(v, f, c) != [] {
      LocatedIff(v, f, c, Locations(v, f, c)[0]);
    }
  }

  lemma NothingListed(conns: seq<Connection>, f: string)
    requires forall c :: Locations(conns, f, c) == []
    ensures ChunksForFile(conns, f) == []
  {
    var ids := ChunksForFile(conns, f);
    if ids != [] {
      ListedIsLocated(conns, f, ids[0]);
    }
  }

  lemma {:induction false} SameLocations(u: seq<Connection>, v: seq<Connection>, g: string, c: int)
    requires |u| == |v|
    requires forall i :: 0 <= i < |u| ==>
      u[i].ip == v[i].ip && (Indexed(v[i].files, g, c) <==> Indexed(u[i].files, g, c))
    ensures Locations(v, g, c) == Locations(u, g, c)
  {
    if u != [] {
      SameLocations(u[..|u| - 1], v[..|v| - 1], g, c);
    }
  }

  lemma {:induction false} SameCollection(u: seq<Connection>, v: seq<Connection>, g: string)
    requires |u| == |v|
    requires forall i :: 0 <= i < |u| ==> FirstChunks(v[i].files, g) == FirstChunks(u[i].files, g)
    ensures ChunksForFile(v, g) == ChunksForFile(u, g)
    ensures Collect(v, g) == Collect(u, g)
  {
    if u != [] {
      SameCollection(u[..|u| - 1], v[..|v| - 1], g);
    }
  }
}
