/** Health reports over FIFO connections: when the master's views are the nodes' indexes. */
module Reports {
  import opened Common
  import opened Registry
  import opened Cluster
  import opened Placement

  /** The last report sent, handled or still queued, shows the node's index. */
  ghost predicate LatestIsCurrent(s: System, id: Id) {
    && id in s.nodes && id in s.channels
    && (if s.channels[id] == [] then View(s.master, id) == Some(s.nodes[id].index)
        else s.channels[id][|s.channels[id]| - 1] == Health(s.nodes[id].index))
  }

  lemma DeliveryKeepsLatest(s: System, x: Id, id: Id)
    requires Linked(s) && Enabled(s, Deliver(x)) && LatestIsCurrent(s, id)
    ensures LatestIsCurrent(Step(s, Deliver(x)), id)
  {
    hide Linked, Find;
    DeliverView(s, x, id);
  }

  lemma QuietStepKeepsLatest(s: System, e: Event, id: Id)
    requires Linked(s) && Quiet(e) && LatestIsCurrent(s, id)
    ensures LatestIsCurrent(Step(s, e), id)
  {
    hide Linked, Find;
    if Enabled(s, e) && e.Deliver? {
      DeliveryKeepsLatest(s, e.id, id);
    }
  }

  /** After quiet traffic that contains a report of the node, its latest report is current. */
  lemma {:induction false} ReportedIsLatest(s: System, es: seq<Event>, id: Id)
    requires Linked(s) && AllQuiet(es) && id in s.channels && Report(id) in es
    ensures LatestIsCurrent(RunFrom(s, es), id)
  {
    var k := |es| - 1;
    var init := es[..k];
    assert es == init + [es[k]];
    QuietRun(s, init);
    var t := RunFrom(s, init);
    assert id in t.channels.Keys;
    if es[k] != Report(id) {
      ReportedIsLatest(s, init, id);
      QuietStepKeepsLatest(t, es[k], id);
    } else {
      ReportIsLatest(t, id);
    }
  }

  lemma ReportIsLatest(s: System, id: Id)
    requires Linked(s) && id in s.channels
    ensures LatestIsCurrent(Step(s, Report(id)), id)
  {
    assert id in s.nodes.Keys;
  }

  /** Every registered view is its node's index. */
  ghost predicate Settled(s: System) {
    forall i :: 0 <= i < |s.master.conns| ==>
      s.master.conns[i].id in s.nodes && s.master.conns[i].files == s.nodes[s.master.conns[i].id].index
  }

  /** Quiet traffic in which every open connection reports and its queue drains. */
  ghost predicate ReportsDrain(s: System, es: seq<Event>) {
    && AllQuiet(es)
    && (forall id :: id in s.channels ==> Report(id) in es)
    && (forall id :: id in RunFrom(s, es).channels ==> RunFrom(s, es).channels[id] == [])
  }

  /** Once every open connection has reported and its queue has drained, the master is settled. */
  lemma DrainedReportsSettle(s: System, es: seq<Event>)
    requires Linked(s) && ReportsDrain(s, es)
    ensures Settled(RunFrom(s, es)) && Undisturbed(s, RunFrom(s, es)) && Linked(RunFrom(s, es))
  {
    var t := RunFrom(s, es);
    QuietRun(s, es);
    forall i | 0 <= i < |t.master.conns|
      ensures t.master.conns[i].id in t.nodes && t.master.conns[i].files == t.nodes[t.master.conns[i].id].index
    {
      var id := t.master.conns[i].id;
      assert id in t.channels.Keys;
      ReportedIsLatest(s, es, id);
      FindUnique(t.master.conns, id, i);
    }
  }

  // Draining is always possible

  lemma RunOne(s: System, e: Event)
    ensures RunFrom(s, [e]) == Step(s, e)
  {
    assert [e][..0] == [];
  }

  lemma OpenIsKnown(s: System, id: Id)
    requires Linked(s) && id in s.channels
    ensures id in s.nodes && id in s.ips
  {
    assert id in s.nodes.Keys;
  }

  lemma DeliveryPops(s: System, id: Id)
    requires Linked(s) && id in s.channels && s.channels[id] != []
    ensures var t := Step(s, Deliver(id));
      Linked(t) && t.channels == s.channels[id := s.channels[id][1..]]
  {
    hide Linked, Receive;
    OpenIsKnown(s, id);
    QuietStep(s, Deliver(id));
  }

  /** Deliveries alone empty one queue and leave the others as they are. */
  lemma {:induction false} DrainQueue(s: System, id: Id) returns (es: seq<Event>)
    requires Linked(s) && id in s.channels
    ensures AllQuiet(es) && RunFrom(s, es).channels == s.channels[id := []]
    decreases |s.channels[id]|
  {
    hide Linked, Step;
    es := [];
    if s.channels[id] != [] {
      DeliveryPops(s, id);
      var rest := DrainQueue(Step(s, Deliver(id)), id);
      RunsCompose(s, [Deliver(id)], rest);
      RunOne(s, Deliver(id));
      es := [Deliver(id)] + rest;
    } else {
      assert s.channels[id := []] == s.channels;
    }
  }

  lemma ReportPushes(s: System, id: Id)
    requires Linked(s) && id in s.channels
    ensures var t := Step(s, Report(id));
      && Linked(t) && t.channels.Keys == s.channels.Keys
      && forall x :: x in s.channels && x != id ==> t.channels[x] == s.channels[x]
  {
    hide Linked;
    OpenIsKnown(s, id);
    QuietStep(s, Report(id));
  }

  /** One process reports and its queue is emptied. */
  lemma DrainOne(s: System, id: Id) returns (es: seq<Event>)
    requires Linked(s) && id in s.channels
    ensures AllQuiet(es) && Report(id) in es && Linked(RunFrom(s, es))
    ensures RunFrom(s, es).channels == s.channels[id := []]
  {
    hide Linked, Step;
    var t := Step(s, Report(id));
    ReportPushes(s, id);
    var rest := DrainQueue(t, id);
    assert t.channels[id := []] == s.channels[id := []];
    RunsCompose(s, [Report(id)], rest);
    RunOne(s, Report(id));
    es := [Report(id)] + rest;
    assert es[0] == Report(id);
    QuietRun(s, es);
  }

  /** One report of each process in the set, and deliveries until their queues are empty. */
  lemma {:induction false} DrainAll(s: System, ids: set<Id>) returns (es: seq<Event>)
    requires Linked(s) && ids <= s.channels.Keys
    ensures AllQuiet(es) && forall id :: id in ids ==> Report(id) in es
    ensures var t := RunFrom(s, es);
      && t.channels.Keys == s.channels.Keys
      && forall id :: id in s.channels ==> t.channels[id] == if id in ids then [] else s.channels[id]
    decreases ids
  {
    hide Linked, Step;
    es := [];
    if id :| id in ids {
      var first := DrainOne(s, id);
      var t := RunFrom(s, first);
      assert t.channels.Keys == s.channels.Keys;
      var rest := DrainAll(t, ids - {id});
      RunsCompose(s, first, rest);
      es := first + rest;
    }
  }

  /** From every reachable system some quiet schedule lets all processes report and drains all queues. */
  lemma DrainingScheduleExists(s: System) returns (es: seq<Event>)
    requires Linked(s)
    ensures ReportsDrain(s, es)
  {
    es := DrainAll(s, s.channels.Keys);
    forall id | id in RunFrom(s, es).channels ensures RunFrom(s, es).channels[id] == [] {
      assert id in RunFrom(s, es).channels.Keys;
    }
  }
}
