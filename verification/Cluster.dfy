/**
 The whole system: storage processes, their FIFO connections and the master, interleaved one atomic step
 at a time. A process and its single connection share one id, fresh for every process.
 */
module Cluster {
  import opened Common
  import opened Storage
  import NodeRuns
  import opened Registry
  import RoundRobin

  datatype System = System(
    nodes: map<Id, Node>,
    ips: map<Id, Addr>,
    channels: map<Id, seq<Message>>,  // open connections: frames sent and not yet handled
    master: Master)

  const NO_SYSTEM := System(map[], map[], map[], NEW_MASTER)

  datatype Event =
    | Start(id: Id, ip: Addr)                                          // connect and send Join
    | Post(id: Id, file: string, chunk: int, data: Bytes, write: Write)  // one upload request
    | Erase(id: Id, file: string)                                      // one delete request
    | Report(id: Id)                                                   // answer a ping with a snapshot
    | Deliver(id: Id)                                                  // the master handles the next frame
    | Drop(id: Id)                                                     // the read loop of a connection ends
    | Pick                                                             // one locked cursor step

  /** An upload whose disk write succeeds in full. */
  function FullPost(id: Id, f: string, c: int, data: Bytes): Event {
    Post(id, f, c, data, Wrote(|data|))
  }

  predicate Enabled(s: System, e: Event) {
    match e
    case Start(id, ip) => id !in s.nodes
    case Post(id, f, c, data, w) => id in s.nodes && Save(s.nodes[id], f, c, data, w).1 != Undefined
    case Erase(id, f) => id in s.nodes
    case Report(id) => id in s.channels && id in s.nodes
    case Deliver(id) => id in s.channels && id in s.ips && s.channels[id] != []
    case Drop(id) => id in s.channels
    case Pick => true
  }

  function Step(s: System, e: Event): System {
    if !Enabled(s, e) then s
    else match e
      case Start(id, ip) =>
        s.(nodes := s.nodes[id := EMPTY_NODE], ips := s.ips[id := ip], channels := s.channels[id := [Join]])
      case Post(id, f, c, data, w) => s.(nodes := s.nodes[id := Save(s.nodes[id], f, c, data, w).0])
      case Erase(id, f) => s.(nodes := s.nodes[id := Delete(s.nodes[id], f).0])
      case Report(id) => s.(channels := s.channels[id := s.channels[id] + [Health(s.nodes[id].index)]])
      case Deliver(id) =>
        s.(channels := s.channels[id := s.channels[id][1..]],
           master := Receive(s.master, id, s.ips[id], s.channels[id][0]))
      case Drop(id) => s.(channels := s.channels - {id}, master := Remove(s.master, id))
      case Pick => s.(master := Increment(s.master).0)
  }

  function RunFrom(s: System, es: seq<Event>): System {
    if es == [] then s else Step(RunFrom(s, es[..|es| - 1]), es[|es| - 1])
  }

  /** The system after a run from nothing. */
  function After(es: seq<Event>): System {
    RunFrom(NO_SYSTEM, es)
  }

  // Registry entries by id

  function View(m: Master, id: Id): Option<seq<FileMapping>> {
    var i := Find(m.conns, id);
    if i == |m.conns| then None else Some(m.conns[i].files)
  }

  ghost predicate UniqueIds(conns: seq<Connection>) {
    forall i, j :: 0 <= i < j < |conns| ==> conns[i].id != conns[j].id
  }

  lemma InsertView(m: Master, id: Id, ip: Addr, x: Id)
    requires View(m, id) == None
    ensures View(Registry.Insert(m, id, ip), x) == if x == id then Some([]) else View(m, x)
  {
    var conns := Registry.Insert(m, id, ip).conns;
    var i := Find(m.conns, x);
    FindIsFirst(m.conns, x);
    FindUnique(conns, x, if i < |m.conns| || x == id then i else |conns|);
  }

  lemma UpdateView(m: Master, id: Id, files: seq<FileMapping>, x: Id)
    ensures View(Update(m, id, files), x) == if x == id && View(m, id).Some? then Some(files) else View(m, x)
  {
    FindIsFirst(m.conns, x);
    FindUnique(Update(m, id, files).conns, x, Find(m.conns, x));
  }

  lemma FindTail(conns: seq<Connection>, x: Id)
    requires conns != []
    ensures Find(conns, x) == if conns[0].id == x then 0 else 1 + Find(conns[1..], x)
  {
  }

  /** What a lookup finds after a removal is what it found before, unless it is the removed id. */
  lemma {:induction false} RetainFind(conns: seq<Connection>, id: Id, x: Id)
    ensures var (r, i) := (Retain(conns, id), Find(conns, x));
      if x == id || i == |conns| then Find(r, x) == |r|
      else Find(r, x) < |r| && r[Find(r, x)] == conns[i]
  {
    if conns != [] {
      var rest := conns[1..];
      RetainFind(rest, id, x);
      var r := Retain(conns, id);
      FindTail(conns, x);
      if conns[0].id != id {
        assert r == [conns[0]] + Retain(rest, id);
        FindTail(r, x);
        assert r[1..] == Retain(rest, id);
      }
      hide Find, Retain;
    }
  }

  lemma RemoveView(m: Master, id: Id, x: Id)
    ensures View(Registry.Remove(m, id), x) == if x == id then None else View(m, x)
  {
    RetainFind(m.conns, id, x);
  }

  lemma {:induction false} RetainUnique(conns: seq<Connection>, id: Id)
    requires UniqueIds(conns)
    ensures UniqueIds(Retain(conns, id))
  {
    if conns != [] {
      var rest, r := conns[1..], Retain(conns[1..], id);
      assert forall i :: 0 <= i < |rest| ==> rest[i] == conns[i + 1];
      RetainUnique(rest, id);
      RoundRobin.RetainShrinks(rest, id);
      forall x | x in r ensures x.id != conns[0].id {
        var j :| 0 <= j < |rest| && rest[j] == x;
      }
      UniqueExtends(conns[0], r);
    }
  }

  lemma UniqueExtends(x: Connection, conns: seq<Connection>)
    requires UniqueIds(conns) && forall y :: y in conns ==> y.id != x.id
    ensures UniqueIds([x] + conns)
  {
  }

  // The invariant of every reachable system

  /** Join is the first frame of a connection and comes once, so registration and the queue take turns. */
  ghost predicate QueueOk(view: Option<seq<FileMapping>>, q: seq<Message>) {
    && (view == None ==> q != [] && q[0] == Join)
    && (forall i :: 0 <= i < |q| ==> if i == 0 && view == None then q[i] == Join else q[i].Health?)
  }

  ghost predicate NodesOk(nodes: map<Id, Node>) {
    forall id :: id in nodes ==> Sound(nodes[id])
  }

  ghost predicate QueuesOk(s: System) {
    forall id :: id in s.channels ==> QueueOk(View(s.master, id), s.channels[id])
  }

  ghost predicate RegistryOk(s: System) {
    && s.nodes.Keys == s.ips.Keys
    && s.channels.Keys <= s.nodes.Keys
    && UniqueIds(s.master.conns)
    && (forall i :: 0 <= i < |s.master.conns| ==>
          s.master.conns[i].id in s.channels && s.ips[s.master.conns[i].id] == s.master.conns[i].ip)
  }

  ghost predicate Linked(s: System) {
    RegistryOk(s) && QueuesOk(s)
  }

  ghost predicate Invariant(s: System) {
    NodesOk(s.nodes) && Linked(s)
  }

  lemma UnknownIsUnregistered(s: System, id: Id)
    requires RegistryOk(s) && id !in s.channels
    ensures View(s.master, id) == None
  {
  }

  lemma EmptyNodeIsSound()
    ensures Sound(EMPTY_NODE)
  {
  }

  lemma StartKeepsInvariant(s: System, id: Id, ip: Addr)
    requires Invariant(s) && Enabled(s, Start(id, ip))
    ensures Invariant(Step(s, Start(id, ip)))
  {
    EmptyNodeIsSound();
    hide Sound, UniqueIds, Find;
    var t := Step(s, Start(id, ip));
    UnknownIsUnregistered(s, id);
    forall x | x in t.channels ensures QueueOk(View(t.master, x), t.channels[x]) {
      assert x != id ==> QueueOk(View(s.master, x), s.channels[x]);
    }
  }

  lemma NodeStepKeepsInvariant(s: System, id: Id, n: Node)
    requires Invariant(s) && id in s.nodes && Sound(n)
    ensures Invariant(s.(nodes := s.nodes[id := n]))
  {
    hide Sound;
    var t := s.(nodes := s.nodes[id := n]);
    assert QueuesOk(t) by {
      forall x | x in t.channels ensures QueueOk(View(t.master, x), t.channels[x]) {
        assert QueueOk(View(s.master, x), s.channels[x]);
      }
    }
  }

  lemma ReportKeepsLinked(s: System, id: Id)
    requires Linked(s) && Enabled(s, Report(id))
    ensures Linked(Step(s, Report(id)))
  {
    var t := Step(s, Report(id));
    forall x | x in t.channels ensures QueueOk(View(t.master, x), t.channels[x]) {
      assert QueueOk(View(s.master, x), s.channels[x]);
    }
  }

  lemma PickKeepsLinked(s: System)
    requires Linked(s)
    ensures Linked(Step(s, Pick))
  {
    var t := Step(s, Pick);
    forall x | x in t.channels ensures QueueOk(View(t.master, x), t.channels[x]) {
      assert QueueOk(View(s.master, x), s.channels[x]);
    }
  }

  lemma DeliverView(s: System, id: Id, x: Id)
    requires Linked(s) && Enabled(s, Deliver(id))
    ensures View(Step(s, Deliver(id)).master, x) ==
      if x != id then View(s.master, x)
      else match s.channels[id][0] case Health(files) => Some(files) case _ => Some([])
    ensures s.channels[id][0].Join? <==> View(s.master, id) == None
    ensures s.channels[id][0].Join? || s.channels[id][0].Health?
  {
    assert QueueOk(View(s.master, id), s.channels[id]);
    if s.channels[id][0].Join? {
      InsertView(s.master, id, s.ips[id], x);
    } else {
      UpdateView(s.master, id, s.channels[id][0].files, x);
    }
  }

  lemma InsertKeepsUnique(m: Master, id: Id, ip: Addr)
    requires UniqueIds(m.conns) && View(m, id) == None
    ensures UniqueIds(Registry.Insert(m, id, ip).conns)
  {
    FindIsFirst(m.conns, id);
  }

  lemma DeliverKeepsRegistry(s: System, id: Id)
    requires Linked(s) && Enabled(s, Deliver(id))
    ensures RegistryOk(Step(s, Deliver(id)))
  {
    DeliverView(s, id, id);
    hide Find, QueueOk;
    if s.channels[id][0].Join? {
      InsertKeepsUnique(s.master, id, s.ips[id]);
    } else {
      RoundRobin.UpdateKeepsMembership(s.master, id, s.channels[id][0].files);
    }
  }

  lemma DeliverKeepsLinked(s: System, id: Id)
    requires Linked(s) && Enabled(s, Deliver(id))
    ensures Linked(Step(s, Deliver(id)))
  {
    var t := Step(s, Deliver(id));
    DeliverKeepsRegistry(s, id);
    forall x | x in t.channels ensures QueueOk(View(t.master, x), t.channels[x]) {
      assert QueueOk(View(s.master, x), s.channels[x]);
      DeliverView(s, id, x);
    }
  }

  lemma DropKeepsLinked(s: System, id: Id)
    requires Linked(s) && Enabled(s, Drop(id))
    ensures Linked(Step(s, Drop(id)))
  {
    var t := Step(s, Drop(id));
    RetainUnique(s.master.conns, id);
    RoundRobin.RetainShrinks(s.master.conns, id);
    forall i | 0 <= i < |t.master.conns|
      ensures t.master.conns[i].id in t.channels && t.ips[t.master.conns[i].id] == t.master.conns[i].ip
    {
      assert t.master.conns[i] in t.master.conns;
    }
    forall x | x in t.channels ensures QueueOk(View(t.master, x), t.channels[x]) {
      RemoveView(s.master, id, x);
      assert QueueOk(View(s.master, x), s.channels[x]);
    }
  }

  lemma StepKeepsInvariant(s: System, e: Event)
    requires Invariant(s)
    ensures Invariant(Step(s, e))
  {
    if Enabled(s, e) {
      match e {
        case Start(id, ip) => StartKeepsInvariant(s, id, ip);
        case Post(id, f, c, data, w) =>
          SaveKeepsSound(s.nodes[id], f, c, data, w);
          NodeStepKeepsInvariant(s, id, Save(s.nodes[id], f, c, data, w).0);
        case Erase(id, f) =>
          NodeRuns.DeleteEffect(s.nodes[id], f);
          NodeStepKeepsInvariant(s, id, Delete(s.nodes[id], f).0);
        case Report(id) => ReportKeepsLinked(s, id);
        case Deliver(id) => DeliverKeepsLinked(s, id);
        case Drop(id) => DropKeepsLinked(s, id);
        case Pick => PickKeepsLinked(s);
      }
    }
  }

  lemma {:induction false} RunKeepsInvariant(s: System, es: seq<Event>)
    requires Invariant(s)
    ensures Invariant(RunFrom(s, es))
  {
    if es != [] {
      RunKeepsInvariant(s, es[..|es| - 1]);
      StepKeepsInvariant(RunFrom(s, es[..|es| - 1]), es[|es| - 1]);
    }
  }

  /** Every reachable system has unique registry ids, joins before reports, and sound nodes. */
  lemma ReachableInvariant(es: seq<Event>)
    ensures Invariant(After(es))
  {
    RunKeepsInvariant(NO_SYSTEM, es);
  }

  lemma ReachableLinked(es: seq<Event>)
    ensures Linked(After(es))
  {
    ReachableInvariant(es);
  }

  lemma {:induction false} RunsCompose(s: System, a: seq<Event>, b: seq<Event>)
    ensures RunFrom(s, a + b) == RunFrom(RunFrom(s, a), b)
  {
    hide Step;
    var c := a + b;
    if b == [] {
      assert c == a;
    } else {
      var init := b[..|b| - 1];
      RunsCompose(s, a, init);
      assert c[..|c| - 1] == a + init && c[|c| - 1] == b[|b| - 1];
      assert RunFrom(s, c) == Step(RunFrom(s, c[..|c| - 1]), c[|c| - 1]);
    }
  }
}
