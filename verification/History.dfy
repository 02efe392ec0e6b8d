/** What the master knows is the past: reports against the nodes' histories, over every interleaving. */
module History {
  import opened Common
  import opened Storage
  import NodeRuns
  import opened Registry
  import RoundRobin
  import opened Cluster

  /** A frame together with the number of steps that had run when it was sent. */
  datatype Stamped = Stamped(moment: nat, msg: Message)

  /** The node's index after the first k steps. */
  function IndexAt(es: seq<Event>, k: nat, id: Id): seq<FileMapping>
    requires k <= |es|
  {
    var s := After(es[..k]);
    if id in s.nodes then s.nodes[id].index else []
  }

  /** The frame, if any, that the process sends in step number k. */
  function SentIn(s: System, e: Event, k: nat, id: Id): seq<Stamped> {
    if !Enabled(s, e) then []
    else match e
      case Start(x, ip) => if x == id then [Stamped(k, Join)] else []
      case Report(x) => if x == id then [Stamped(k, Health(s.nodes[id].index))] else []
      case _ => []
  }

  /** Every frame the process ever sent, oldest first. */
  function SentBy(es: seq<Event>, id: Id): seq<Stamped> {
    if es == [] then []
    else
      var k := |es| - 1;
      SentBy(es[..k], id) + SentIn(After(es[..k]), es[k], k, id)
  }

  function HandledIn(s: System, e: Event, id: Id): nat {
    if e == Deliver(id) && Enabled(s, e) then 1 else 0
  }

  /** How many of them the master has handled. */
  function Handled(es: seq<Event>, id: Id): nat {
    if es == [] then 0
    else Handled(es[..|es| - 1], id) + HandledIn(After(es[..|es| - 1]), es[|es| - 1], id)
  }

  function Frames(sent: seq<Stamped>): seq<Message> {
    seq(|sent|, i requires 0 <= i < |sent| => sent[i].msg)
  }

  /** What the master shows for a connection whose first `handled` frames are `sent`. */
  function ViewOf(sent: seq<Stamped>, handled: nat): Option<seq<FileMapping>>
    requires handled <= |sent|
  {
    if handled == 0 then None
    else match sent[handled - 1].msg
      case Health(files) => Some(files)
      case _ => Some([])
  }

  ghost predicate Tracked(s: System, id: Id, sent: seq<Stamped>, h: nat) {
    && (id !in s.nodes ==> sent == [] && h == 0)
    && (id in s.channels ==>
          && h <= |sent|
          && s.channels[id] == Frames(sent[h..])
          && View(s.master, id) == ViewOf(sent, h))
  }

  /** A step that neither sends nor handles a frame of this process leaves its queue and view alone, or ends them. */
  lemma QuietStep(s: System, e: Event, k: nat, id: Id)
    requires Linked(s) && SentIn(s, e, k, id) == [] && HandledIn(s, e, id) == 0
    ensures var t := Step(s, e);
      && (id in t.nodes <==> id in s.nodes)
      && (id in t.channels ==>
            id in s.channels && t.channels[id] == s.channels[id] && View(t.master, id) == View(s.master, id))
  {
    if Enabled(s, e) {
      match e {
        case Deliver(x) => DeliverView(s, x, id);
        case Drop(x) => RemoveView(s.master, x, id);
        case _ =>
      }
    }
  }

  lemma FramesAppend(sent: seq<Stamped>, x: Stamped, h: nat)
    requires h <= |sent|
    ensures Frames((sent + [x])[h..]) == Frames(sent[h..]) + [x.msg]
    ensures ViewOf(sent + [x], h) == ViewOf(sent, h)
  {
    assert (sent + [x])[h..] == sent[h..] + [x];
  }

  lemma FramesAdvance(sent: seq<Stamped>, h: nat)
    requires h < |sent|
    ensures Frames(sent[h..]) == [sent[h].msg] + Frames(sent[h + 1..])
  {
  }

  lemma StepTracks(s: System, e: Event, k: nat, id: Id, sent: seq<Stamped>, h: nat)
    requires Linked(s) && Tracked(s, id, sent, h)
    ensures Tracked(Step(s, e), id, sent + SentIn(s, e, k, id), h + HandledIn(s, e, id))
  {
    hide UniqueIds, Find;
    if HandledIn(s, e, id) == 1 {
      DeliverView(s, id, id);
      assert Frames(sent[h..]) != [];
      FramesAdvance(sent, h);
      assert sent + [] == sent;
    } else if SentIn(s, e, k, id) == [] {
      QuietStep(s, e, k, id);
      assert sent + [] == sent;
    } else if e.Start? {
      UnknownIsUnregistered(s, id);
      assert (sent + SentIn(s, e, k, id))[0..] == [Stamped(k, Join)];
    } else {
      FramesAppend(sent, SentIn(s, e, k, id)[0], h);
    }
  }

  lemma {:induction false} AllTracked(es: seq<Event>, id: Id)
    ensures Tracked(After(es), id, SentBy(es, id), Handled(es, id))
  {
    if es != [] {
      var k := |es| - 1;
      AllTracked(es[..k], id);
      ReachableLinked(es[..k]);
      StepTracks(After(es[..k]), es[k], k, id, SentBy(es[..k], id), Handled(es[..k], id));
    }
  }

  lemma NodesKnown(s: System, e: Event, k: nat, id: Id)
    requires Linked(s)
    ensures id in Step(s, e).nodes <==> id in s.nodes || SentIn(s, e, k, id) != []
    ensures SentIn(s, e, k, id) == [] ||
      SentIn(s, e, k, id) == [Stamped(k, if id in s.nodes then Health(s.nodes[id].index) else Join)]
  {
  }

  /** The log is chronological: one Join first, then snapshots of the node's index at ever later moments. */
  lemma {:induction false} LogIsChronological(es: seq<Event>, id: Id)
    ensures var sent := SentBy(es, id);
      && (id in After(es).nodes <==> sent != [])
      && (forall i :: 0 <= i < |sent| ==> sent[i].moment < |es|)
      && (forall i, j :: 0 <= i < j < |sent| ==> sent[i].moment < sent[j].moment)
      && (forall i :: 0 <= i < |sent| ==>
            sent[i].msg == if i == 0 then Join else Health(IndexAt(es, sent[i].moment, id)))
  {
    if es != [] {
      var k := |es| - 1;
      var init := es[..k];
      LogIsChronological(init, id);
      ReachableLinked(init);
      NodesKnown(After(init), es[k], k, id);
      var sent0 := SentBy(init, id);
      forall i | 0 < i < |sent0| ensures IndexAt(init, sent0[i].moment, id) == IndexAt(es, sent0[i].moment, id) {
        assert init[..sent0[i].moment] == es[..sent0[i].moment];
      }
    }
  }

  /** The moment whose index the master currently shows for the node; -1 before any report. */
  function ViewMoment(es: seq<Event>, id: Id): int {
    var h, sent := Handled(es, id), SentBy(es, id);
    if h < 2 || h > |sent| then -1 else sent[h - 1].moment
  }

  /** In every reachable system a registered connection shows nothing, or the node's index at a past moment. */
  lemma ViewIsHistory(es: seq<Event>, id: Id)
    requires View(After(es).master, id).Some?
    ensures -1 <= ViewMoment(es, id) < |es|
    ensures View(After(es).master, id).value ==
      if ViewMoment(es, id) == -1 then [] else IndexAt(es, ViewMoment(es, id), id)
  {
    ReachableLinked(es);
    if id !in After(es).channels {
      UnknownIsUnregistered(After(es), id);
    }
    AllTracked(es, id);
    LogIsChronological(es, id);
  }

  lemma {:induction false} LogsGrow(es: seq<Event>, k: nat, id: Id)
    requires k <= |es|
    ensures SentBy(es[..k], id) <= SentBy(es, id)
    ensures Handled(es[..k], id) <= Handled(es, id)
    decreases |es|
  {
    if k < |es| {
      var init := es[..|es| - 1];
      assert init[..k] == es[..k];
      LogsGrow(init, k, id);
    } else {
      assert es[..k] == es;
    }
  }

  lemma {:induction false} HandledAreSent(es: seq<Event>, id: Id)
    ensures Handled(es, id) <= |SentBy(es, id)|
  {
    if es != [] {
      var k := |es| - 1;
      HandledAreSent(es[..k], id);
      AllTracked(es[..k], id);
    }
  }

  /** That moment never moves backwards. */
  lemma ViewNeverMovesBack(es: seq<Event>, k: nat, id: Id)
    requires k <= |es|
    ensures ViewMoment(es[..k], id) <= ViewMoment(es, id)
  {
    hide SentBy, Handled, RunFrom, IndexAt;
    LogsGrow(es, k, id);
    HandledAreSent(es[..k], id);
    HandledAreSent(es, id);
    LogIsChronological(es, id);
    LaterFramesAreLater(SentBy(es, id), Handled(es[..k], id), Handled(es, id));
  }

  lemma LaterFramesAreLater(sent: seq<Stamped>, h: nat, later: nat)
    requires h <= later <= |sent|
    requires forall i, j :: 0 <= i < j < |sent| ==> sent[i].moment < sent[j].moment
    ensures h >= 1 ==> sent[h - 1].moment <= sent[later - 1].moment
  {
  }

  /**
   A report made at step k of an index that has not changed since, with no more frames queued than were
   sent after it: the report, or a later one, has been handled, and the view is the node's index.
   */
  lemma DeliveredReportIsCurrent(es: seq<Event>, k: nat, id: Id)
    requires k < |es| && es[k] == Report(id) && id in After(es[..k]).channels
    requires id in After(es).channels
    requires forall j :: k <= j <= |es| ==> IndexAt(es, j, id) == IndexAt(es, k, id)
    requires |After(es).channels[id]| <= |SentBy(es, id)| - |SentBy(es[..k + 1], id)|
    ensures id in After(es).nodes
    ensures View(After(es).master, id) == Some(After(es).nodes[id].index)
  {
    ReportIsHandled(es, k, id);
    ViewIsHistory(es, id);
    ReachableLinked(es);
    IndexNow(es, id);
    var m := ViewMoment(es, id);
    assert IndexAt(es, m, id) == IndexAt(es, k, id) == IndexAt(es, |es|, id);
  }

  lemma IndexNow(es: seq<Event>, id: Id)
    requires id in After(es).nodes
    ensures IndexAt(es, |es|, id) == After(es).nodes[id].index
  {
    assert es[..|es|] == es;
  }

  lemma ReportIsHandled(es: seq<Event>, k: nat, id: Id)
    requires k < |es| && es[k] == Report(id) && id in After(es[..k]).channels
    requires id in After(es).channels
    requires |After(es).channels[id]| <= |SentBy(es, id)| - |SentBy(es[..k + 1], id)|
    ensures View(After(es).master, id).Some?
    ensures ViewMoment(es, id) >= k
  {
    hide SentBy, Handled, RunFrom;
    var sent, h := SentBy(es, id), Handled(es, id);
    AllTracked(es, id);
    LogsGrow(es, k + 1, id);
    ReportIsLogged(es, k, id);
    LogIsChronological(es, id);
    var n := |SentBy(es[..k + 1], id)|;
    assert |Frames(sent[h..])| == |sent| - h;
    assert h >= n >= 2;
    assert sent[n - 1].moment == k;
    assert sent[h - 1].moment >= sent[n - 1].moment;
  }

  lemma ReportIsLogged(es: seq<Event>, k: nat, id: Id)
    requires k < |es| && es[k] == Report(id) && id in After(es[..k]).channels
    ensures var upTo := SentBy(es[..k + 1], id);
      |upTo| >= 2 && upTo[|upTo| - 1].moment == k
  {
    ReachableLinked(es[..k]);
    LogIsChronological(es[..k], id);
    assert es[..k + 1][..k] == es[..k];
    assert After(es[..k]).nodes.Keys >= After(es[..k]).channels.Keys;
  }

  // What stale views still guarantee

  lemma ReachableViewNames(es: seq<Event>, k: nat)
    requires k < |After(es).master.conns|
    ensures UniqueNames(After(es).master.conns[k].files)
  {
    hide RunFrom, ViewMoment, Sound;
    var conns := After(es).master.conns;
    var id := conns[k].id;
    ReachableLinked(es);
    FindUnique(conns, id, k);
    ViewIsHistory(es, id);
    var m := ViewMoment(es, id);
    if m >= 0 {
      ReachableInvariant(es[..m]);
      if id in After(es[..m]).nodes {
        NamesAreUnique(After(es[..m]).nodes[id]);
      }
    }
  }

  /** In every reachable system, however stale its views, an id is listed if and only if it has a location. */
  lemma ReachableListedIffLocated(es: seq<Event>, f: string, c: int)
    ensures c in ChunksForFile(After(es).master.conns, f) <==> Locations(After(es).master.conns, f, c) != []
  {
    hide RunFrom, UniqueNames, ChunksForFile, Locations;
    forall k | 0 <= k < |After(es).master.conns| ensures UniqueNames(After(es).master.conns[k].files) {
      ReachableViewNames(es, k);
    }
    ListedIffLocated(After(es).master.conns, f, c);
  }

  // Registration

  /** A health frame after the join replaces the files of exactly one connection. */
  lemma HealthUpdatesOne(es: seq<Event>, id: Id) returns (k: nat)
    requires Enabled(After(es), Deliver(id)) && After(es).channels[id][0].Health?
    ensures var (old_, new_) := (After(es).master, After(es + [Deliver(id)]).master);
      && k < |old_.conns| && old_.conns[k].id == id
      && new_.conns == old_.conns[k := old_.conns[k].(files := After(es).channels[id][0].files)]
      && new_.cursor == old_.cursor
      && forall j :: 0 <= j < |old_.conns| && j != k ==> old_.conns[j].id != id
  {
    ReachableLinked(es);
    DeliverView(After(es), id, id);
    k := Find(After(es).master.conns, id);
    assert (es + [Deliver(id)])[..|es|] == es;
  }

  /** Once a connection has ended, no entry with its id ever reappears. */
  lemma {:induction false} DroppedStaysOut(es: seq<Event>, k: nat, id: Id)
    requires k < |es| && es[k] == Drop(id) && id in After(es[..k]).channels
    ensures id in After(es).nodes && id !in After(es).channels
    ensures forall x :: x in After(es).master.conns ==> x.id != id
    decreases |es|
  {
    hide QueuesOk;
    var last := |es| - 1;
    var init := es[..last];
    ReachableLinked(init);
    ReachableLinked(es);
    if k < last {
      assert init[..k] == es[..k];
      DroppedStaysOut(init, k, id);
      ClosedStaysClosed(After(init), es[last], id);
    }
    assert id in After(es).nodes && id !in After(es).channels;
    forall x | x in After(es).master.conns ensures x.id != id {
      var i :| 0 <= i < |After(es).master.conns| && After(es).master.conns[i] == x;
    }
  }

  lemma ClosedStaysClosed(s: System, e: Event, id: Id)
    requires id in s.nodes && id !in s.channels
    ensures id in Step(s, e).nodes && id !in Step(s, e).channels
  {
  }

  // The order of the registry

  /** The step at which the master handled the first frame of the process; -1 before that. */
  function JoinStep(es: seq<Event>, id: Id): int {
    if es == [] then -1
    else
      var k := |es| - 1;
      var before := JoinStep(es[..k], id);
      if before >= 0 then before else if HandledIn(After(es[..k]), es[k], id) == 1 then k else -1
  }

  /** That frame is the Join. */
  lemma {:induction false} JoinStepIs(es: seq<Event>, id: Id)
    ensures var j := JoinStep(es, id);
      && -1 <= j < |es| && (j == -1 <==> Handled(es, id) == 0)
      && (j >= 0 ==>
            && es[j] == Deliver(id) && Enabled(After(es[..j]), es[j])
            && After(es[..j]).channels[id][0] == Join)
  {
    if es != [] {
      var k := |es| - 1;
      JoinStepIs(es[..k], id);
      var j := JoinStep(es[..k], id);
      if j >= 0 {
        assert es[..k][..j] == es[..j];
      } else if HandledIn(After(es[..k]), es[k], id) == 1 {
        FirstFrameIsJoin(es[..k], id);
      }
    }
  }

  lemma FirstFrameIsJoin(es: seq<Event>, id: Id)
    requires Handled(es, id) == 0 && Enabled(After(es), Deliver(id))
    ensures After(es).channels[id][0] == Join
  {
    hide RunFrom;
    AllTracked(es, id);
    ReachableLinked(es);
    DeliverView(After(es), id, id);
  }

  lemma RegisteredHasJoined(es: seq<Event>, id: Id)
    requires View(After(es).master, id).Some?
    ensures 0 <= JoinStep(es, id) < |es|
  {
    hide RunFrom;
    ReachableLinked(es);
    if id !in After(es).channels {
      UnknownIsUnregistered(After(es), id);
    }
    AllTracked(es, id);
    JoinStepIs(es, id);
  }

  lemma EntriesHaveJoined(es: seq<Event>)
    ensures forall x :: x in After(es).master.conns ==> 0 <= JoinStep(es, x.id) < |es|
  {
    hide RunFrom;
    ReachableLinked(es);
    forall x | x in After(es).master.conns ensures 0 <= JoinStep(es, x.id) < |es| {
      var i :| 0 <= i < |After(es).master.conns| && After(es).master.conns[i] == x;
      FindUnique(After(es).master.conns, x.id, i);
      RegisteredHasJoined(es, x.id);
    }
  }

  lemma DeliverKeepsOrder(s: System, id: Id, key: Id -> int)
    requires Linked(s) && Ordered(s.master.conns, key) && Enabled(s, Deliver(id))
    requires s.channels[id][0].Join? ==> forall x :: x in s.master.conns ==> key(x.id) < key(id)
    ensures Ordered(Step(s, Deliver(id)).master.conns, key)
  {
    DeliverView(s, id, id);
    hide Linked, View;
    if s.channels[id][0].Join? {
      InsertIs(s.master, id, s.ips[id]);
    } else {
      RoundRobin.UpdateKeepsMembership(s.master, id, s.channels[id][0].files);
    }
  }

  /** A step leaves the registry in order if a process that joins in it comes last. */
  lemma StepKeepsOrder(s: System, e: Event, key: Id -> int)
    requires Linked(s) && Ordered(s.master.conns, key)
    requires e.Deliver? && Enabled(s, e) && s.channels[e.id][0].Join? ==>
      forall x :: x in s.master.conns ==> key(x.id) < key(e.id)
    ensures Ordered(Step(s, e).master.conns, key)
  {
    if Enabled(s, e) {
      match e
      case Drop(id) => RetainKeepsOrder(s.master.conns, key, id);
      case Deliver(id) => DeliverKeepsOrder(s, id, key);
      case Pick => var _ := IncrementIs(s.master);
      case _ =>
    }
  }

  /**
   In every reachable system the registry is in the order in which the joins were handled, whatever has left,
   reported or joined since.
   */
  lemma {:induction false} RegistryIsInJoinOrder(es: seq<Event>)
    ensures Ordered(After(es).master.conns, id => JoinStep(es, id))
    ensures forall x :: x in After(es).master.conns ==> 0 <= JoinStep(es, x.id) < |es|
  {
    EntriesHaveJoined(es);
    if es != [] {
      var k := |es| - 1;
      var s, e := After(es[..k]), es[k];
      RegistryIsInJoinOrder(es[..k]);
      var key := id => JoinStep(es, id);
      forall i, j | 0 <= i < j < |s.master.conns| ensures key(s.master.conns[i].id) < key(s.master.conns[j].id) {
        assert s.master.conns[i] in s.master.conns && s.master.conns[j] in s.master.conns;
      }
      ReachableLinked(es[..k]);
      if e.Deliver? && Enabled(s, e) && s.channels[e.id][0].Join? {
        JoinerComesLast(es, e.id);
      }
      StepKeepsOrder(s, e, key);
    }
  }

  lemma JoinerComesLast(es: seq<Event>, id: Id)
    requires es != [] && es[|es| - 1] == Deliver(id) && Enabled(After(es[..|es| - 1]), Deliver(id))
    requires After(es[..|es| - 1]).channels[id][0].Join?
    ensures JoinStep(es, id) == |es| - 1
  {
    hide RunFrom;
    var init := es[..|es| - 1];
    ReachableLinked(init);
    DeliverView(After(init), id, id);
    AllTracked(init, id);
    JoinStepIs(init, id);
  }

  // The parts of a run

  /** Every master that a cluster run goes through. */
  function Masters(es: seq<Event>): set<Master> {
    if es == [] then {NEW_MASTER} else Masters(es[..|es| - 1]) + {After(es).master}
  }

  /** Seen from the master every cluster run is a history of registry operations, through exactly the same masters. */
  lemma {:induction false} MasterHistory(es: seq<Event>) returns (ops: seq<RoundRobin.MasterOp>)
    ensures RoundRobin.After(ops) == After(es).master && RoundRobin.Masters(ops) == Masters(es)
  {
    hide Linked, Step, RoundRobin.Apply;
    if es == [] {
      ops := [];
    } else {
      var k := |es| - 1;
      ops := MasterHistory(es[..k]);
      ReachableLinked(es[..k]);
      var op := MasterStep(After(es[..k]), es[k]);
      var m := After(es).master;
      assert Masters(es) == Masters(es[..k]) + {m};
      if op.None? {
        RoundRobin.NeverInsertedIff(ops);
        assert Masters(es[..k]) + {m} == Masters(es[..k]);
      } else {
        RoundRobin.OneMoreMaster(ops, op.value);
        ops := ops + [op.value];
      }
    }
  }

  /**
   Cursor safety in every cluster run that never has more than `limit` registered connections: the cursor
   stays below `limit`, is -1 exactly while nothing was ever registered, and a cursor step serves an open
   connection's address if and only if one is registered.
   */
  lemma ClusterCursorSafety(es: seq<Event>, limit: nat)
    requires limit >= 1 && forall m :: m in Masters(es) ==> |m.conns| <= limit
    ensures -1 <= After(es).master.cursor < limit
    ensures After(es).master.cursor == -1 <==> forall m :: m in Masters(es) ==> m.conns == []
    ensures var s, served := After(es), Increment(After(es).master).1;
      && (served.Some? <==> s.master.conns != [])
      && (served.Some? ==> exists id :: id in s.channels && id in s.ips && s.ips[id] == served.value)
  {
    hide RunFrom, Masters, RoundRobin.After, RoundRobin.Masters;
    var ops := MasterHistory(es);
    forall k | 0 <= k <= |ops| ensures |RoundRobin.After(ops[..k]).conns| <= limit {
      RoundRobin.PrefixesAreMasters(ops, k);
    }
    RoundRobin.CursorSafety(ops, limit);
    RoundRobin.NeverInsertedIff(ops);
    ReachableLinked(es);
    var s := After(es);
    if s.master.conns != [] {
      assert s.master.conns[NextPosition(s.master.cursor, |s.master.conns|)].id in s.channels;
    }
  }

  // Fairness of the write cursor in cluster runs

  /** The registry positions that the cursor steps of a run choose. */
  function Picked(s: System, es: seq<Event>): seq<int> {
    if es == [] then []
    else
      var k := |es| - 1;
      Picked(s, es[..k]) + if es[k].Pick? then [RunFrom(s, es).master.cursor] else []
  }

  lemma PickedLast(s: System, es: seq<Event>)
    requires es != []
    ensures var (before, after) := (RunFrom(s, es[..|es| - 1]), RunFrom(s, es));
      && after == Step(before, es[|es| - 1])
      && Picked(s, es) == Picked(s, es[..|es| - 1]) + if es[|es| - 1].Pick? then [after.master.cursor] else []
  {
  }

  ghost predicate StableMembership(s: System, es: seq<Event>) {
    forall i :: 0 <= i <= |es| ==> RoundRobin.SameMembers(s.master, RunFrom(s, es[..i]).master)
  }

  lemma {:induction false} RetainAll(conns: seq<Connection>, id: Id)
    requires |Retain(conns, id)| == |conns|
    ensures Retain(conns, id) == conns
  {
    if conns != [] {
      RoundRobin.RetainShrinks(conns[1..], id);
      RetainAll(conns[1..], id);
    }
  }

  /** A step without a change of membership is, for the master, a report, a cursor step or nothing. */
  lemma StableStep(s: System, e: Event) returns (op: Option<RoundRobin.MasterOp>)
    requires Linked(s) && RoundRobin.SameMembers(s.master, Step(s, e).master)
    ensures op.Some? ==> RoundRobin.KeepsMembership(op.value)
    ensures e.Pick? <==> op == Some(RoundRobin.DoIncrement)
    ensures Step(s, e).master == if op.None? then s.master else RoundRobin.Apply(s.master, op.value)
  {
    op := MasterStep(s, e);
    if op.Some? && op.value.DoRemove? {
      RetainAll(s.master.conns, op.value.id);
      op := None;
    }
  }

  lemma StableToTheEnd(s: System, es: seq<Event>)
    requires es != [] && StableMembership(s, es)
    ensures StableMembership(s, es[..|es| - 1])
    ensures RoundRobin.SameMembers(RunFrom(s, es[..|es| - 1]).master, RunFrom(s, es).master)
  {
    hide RunFrom;
    var k := |es| - 1;
    assert forall i :: 0 <= i <= k ==> es[..k][..i] == es[..i];
    assert es[..|es|] == es;
    assert RoundRobin.SameMembers(s.master, RunFrom(s, es[..k]).master);
    assert RoundRobin.SameMembers(s.master, RunFrom(s, es[..|es|]).master);
  }

  lemma OneMoreOp(m: Master, ops: seq<RoundRobin.MasterOp>, op: RoundRobin.MasterOp)
    ensures var n := RoundRobin.Apply(RoundRobin.RunFrom(m, ops), op);
      && RoundRobin.RunFrom(m, ops + [op]) == n
      && RoundRobin.Picks(m, ops + [op]) == RoundRobin.Picks(m, ops) + if op.DoIncrement? then [n.cursor] else []
  {
    assert (ops + [op])[..|ops|] == ops;
  }

  lemma {:induction false} StableRun(s: System, es: seq<Event>) returns (ops: seq<RoundRobin.MasterOp>)
    requires Invariant(s) && StableMembership(s, es)
    ensures forall i :: 0 <= i < |ops| ==> RoundRobin.KeepsMembership(ops[i])
    ensures RoundRobin.RunFrom(s.master, ops) == RunFrom(s, es).master
    ensures RoundRobin.Picks(s.master, ops) == Picked(s, es)
  {
    if es == [] {
      ops := [];
    } else {
      hide Linked, NodesOk, Step, StableMembership, RoundRobin.SameMembers, RoundRobin.RunFrom, RoundRobin.Picks;
      hide RoundRobin.KeepsMembership, RoundRobin.Apply, Picked;
      var init, e := es[..|es| - 1], es[|es| - 1];
      PickedLast(s, es);
      StableToTheEnd(s, es);
      ops := StableRun(s, init);
      RunKeepsInvariant(s, init);
      var op := StableStep(RunFrom(s, init), e);
      if op.Some? {
        OneMoreOp(s.master, ops, op.value);
        ops := ops + [op.value];
      }
    }
  }

  /**
   Exactly whom the write requests are served by, in every cluster run: from any reachable system and while
   membership does not change, the k-th cursor step after a cursor c chooses position c + 1 + k of the registry's
   join order up to whole rounds, also when c is stale because members have left.
   */
  lemma ClusterPicksFromCursor(before: seq<Event>, es: seq<Event>, k: nat) returns (q: int)
    requires StableMembership(After(before), es) && After(before).master.conns != []
    requires k < |Picked(After(before), es)|
    ensures var (m, p) := (After(before).master, Picked(After(before), es)[k]);
      && 0 <= p < |m.conns|
      && (if m.cursor < 0 then k else m.cursor + 1 + k) == q * |m.conns| + p
  {
    hide StableMembership, Invariant, RunFrom;
    var s := After(before);
    ReachableInvariant(before);
    var ops := StableRun(s, es);
    q := RoundRobin.PicksFromCursor(s.master, ops, k);
  }

  /**
   Fairness in every cluster run: from any reachable system, also one whose cursor is stale after removals,
   as long as membership does not change the steps of however many concurrent write requests choose every
   registered connection floor(k/n) or ceil(k/n) times, whatever uploads, reports and deletes run in between.
   */
  lemma ClusterPicksAreFair(before: seq<Event>, es: seq<Event>, position: nat)
    requires StableMembership(After(before), es) && position < |After(before).master.conns|
    ensures var (p, n) := (Picked(After(before), es), |After(before).master.conns|);
      |p| / n <= RoundRobin.Count(p, position) <= (|p| + n - 1) / n
  {
    hide StableMembership, Invariant, RunFrom;
    var s := After(before);
    ReachableInvariant(before);
    var ops := StableRun(s, es);
    RoundRobin.RoundRobinIsFair(s.master, ops, position);
  }

  lemma MasterStep(s: System, e: Event) returns (op: Option<RoundRobin.MasterOp>)
    requires Linked(s)
    ensures Step(s, e).master == if op.None? then s.master else RoundRobin.Apply(s.master, op.value)
    ensures e.Pick? <==> op == Some(RoundRobin.DoIncrement)
  {
    op := None;
    if Enabled(s, e) {
      match e {
        case Pick => op := Some(RoundRobin.DoIncrement);
        case Drop(id) => op := Some(RoundRobin.DoRemove(id));
        case Deliver(id) =>
          DeliverView(s, id, id);
          var frame, ip := s.channels[id][0], s.ips[id];
          op := Some(if frame.Health? then RoundRobin.DoUpdate(id, frame.files) else RoundRobin.DoInsert(id, ip));
        case _ =>
      }
    }
  }

  // Every node's part of a run is a run of saves and deletes

  function NodeOpOf(s: System, e: Event, id: Id): seq<NodeRuns.NodeOp> {
    if !Enabled(s, e) then []
    else match e
      case Post(x, f, c, data, w) => if x == id then [NodeRuns.Put(f, c, data, w)] else []
      case Erase(x, f) => if x == id then [NodeRuns.Del(f)] else []
      case _ => []
  }

  /** The saves and deletes that the process handled, oldest first. */
  function NodeOps(es: seq<Event>, id: Id): seq<NodeRuns.NodeOp> {
    if es == [] then []
    else
      var k := |es| - 1;
      NodeOps(es[..k], id) + NodeOpOf(After(es[..k]), es[k], id)
  }

  /** Between cluster and node nothing is lost: a process is in the state its own saves and deletes lead to. */
  lemma {:induction false} NodeIsItsRun(es: seq<Event>, id: Id)
    ensures id in After(es).nodes ==> After(es).nodes[id] == NodeRuns.After(NodeOps(es, id))
    ensures id !in After(es).nodes ==> NodeOps(es, id) == []
    ensures NodeRuns.DefinedRun(NodeOps(es, id))
  {
    if es != [] {
      var k := |es| - 1;
      NodeIsItsRun(es[..k], id);
      NodeStepIsItsOp(After(es[..k]), es[k], id, NodeOps(es[..k], id));
    }
  }

  lemma NodeStepIsItsOp(s: System, e: Event, id: Id, ops: seq<NodeRuns.NodeOp>)
    requires id in s.nodes ==> s.nodes[id] == NodeRuns.After(ops)
    requires id !in s.nodes ==> ops == []
    requires NodeRuns.DefinedRun(ops)
    ensures var more := ops + NodeOpOf(s, e, id);
      && (id in Step(s, e).nodes ==> Step(s, e).nodes[id] == NodeRuns.After(more))
      && (id !in Step(s, e).nodes ==> more == [])
      && NodeRuns.DefinedRun(more)
  {
    hide Save, Delete, NodeRuns.DefinedRun, NodeRuns.After;
    if NodeOpOf(s, e, id) == [] {
      assert ops + [] == ops;
      NodeUntouched(s, e, id);
      EmptyRunIsEmpty();
    } else {
      var op := NodeOpOf(s, e, id)[0];
      NodeTouched(s, e, id, op);
      NodeRuns.AfterOneMore(ops, op);
      NodeRuns.DefinedOneMore(ops, op);
    }
  }

  lemma EmptyRunIsEmpty()
    ensures NodeRuns.After([]) == EMPTY_NODE
  {
  }

  lemma NodeUntouched(s: System, e: Event, id: Id)
    requires NodeOpOf(s, e, id) == []
    ensures id in s.nodes ==> id in Step(s, e).nodes && Step(s, e).nodes[id] == s.nodes[id]
    ensures id !in s.nodes && id in Step(s, e).nodes ==> Step(s, e).nodes[id] == EMPTY_NODE
  {
    hide Save, Delete;
  }

  lemma NodeTouched(s: System, e: Event, id: Id, op: NodeRuns.NodeOp)
    requires NodeOpOf(s, e, id) == [op]
    ensures id in s.nodes && id in Step(s, e).nodes && NodeRuns.Defined(s.nodes[id], op)
    ensures Step(s, e).nodes[id] == NodeRuns.Apply(s.nodes[id], op)
  {
    hide Save, Delete;
  }

  /** A process none of whose short writes started a file handles every upload that comes next. */
  lemma UploadsStayDefined(es: seq<Event>, id: Id, f: string, c: int, data: Bytes, w: Write)
    requires id in After(es).nodes && NodeRuns.OrphanFree(NodeOps(es, id))
    ensures Enabled(After(es), Post(id, f, c, data, w))
  {
    NodeIsItsRun(es, id);
    NodeRuns.OrphanFreeIsConsistent(NodeOps(es, id));
    ConsistentIsDefined(After(es).nodes[id], f, c, data, w);
  }

  /** A reachable process can handle all uploads exactly when it has an index entry or no chunk at all. */
  lemma UploadsDefinedIff(es: seq<Event>, id: Id)
    requires id in After(es).nodes
    ensures (forall f, c, data, w :: Enabled(After(es), Post(id, f, c, data, w))) <==>
      After(es).nodes[id].index != [] || forall f :: !HasFiles(After(es).nodes[id].tree, f)
  {
    hide RunFrom, HasFiles;
    var n := After(es).nodes[id];
    EverySaveIsDefinedIff(n);
    if forall f, c, data, w :: Enabled(After(es), Post(id, f, c, data, w)) {
      forall f, c, data, w ensures Save(n, f, c, data, w).1 != Undefined {
        assert Enabled(After(es), Post(id, f, c, data, w));
      }
    }
  }

  /**
   If every upload that the process handled found an empty directory or its own file in the last entry, and no
   new chunk was cut short, its index is its disk and the guarded lookup hides nothing.
   */
  lemma DisciplinedClustersAgree(es: seq<Event>, id: Id)
    requires id in After(es).nodes && NodeRuns.DisciplinedRun(NodeOps(es, id))
    ensures Agrees(After(es).nodes[id])
    ensures forall f, c :: Lookup(After(es).nodes[id], f, c).Some? <==> OnDisk(After(es).nodes[id].tree, f, c)
  {
    NodeIsItsRun(es, id);
    NodeRuns.DisciplinedRunsAgree(NodeOps(es, id));
    var n := After(es).nodes[id];
    forall f, c ensures Lookup(n, f, c).Some? <==> OnDisk(n.tree, f, c) {
      SoundParts(n);
      LookupIsLossless(n, f, c);
    }
  }
}
