/** The master's mutable registry with its 32-bit cursor, its queries, and the loops that drive it. */
module TcpStorage {
  import opened Common
  import opened Storage
  import opened Registry
  import opened RoundRobin

  newtype i32 = x: int | -0x8000_0000 <= x < 0x8000_0000

  const MAX_CONNECTIONS := 0x7FFF_FFFF

  class TcpStorage {
    var connections: seq<Connection>
    var indexToWrite: i32

    /** One below the largest i32, so that `indexToWrite + 1` cannot overflow. */
    ghost predicate Valid()
      reads this
    {
      |connections| <= MAX_CONNECTIONS && -1 <= indexToWrite < 0x7FFF_FFFF
    }

    function Value(): Master
      reads this
    {
      Master(connections, indexToWrite as int)
    }

    constructor ()
      ensures Valid() && Value() == NEW_MASTER
    {
      connections := [];
      indexToWrite := -1;
    }

    method Insert(id: Id, ip: Addr)
      requires Valid() && |connections| < MAX_CONNECTIONS
      modifies this
      ensures Valid() && Value() == Registry.Insert(old(Value()), id, ip)
    {
      connections := connections + [Connection(id, ip, [])];
      if indexToWrite == -1 {
        indexToWrite := 0;
      }
    }

    /** retain: one pass that keeps, in order, the connections with another id. The cursor may go stale. */
    method Remove(id: Id)
      requires Valid()
      modifies this
      ensures Valid() && Value() == Registry.Remove(old(Value()), id)
      ensures forall x :: x in connections <==> x in old(connections) && x.id != id
    {
      RetainShrinks(connections, id);
      var kept := [];
      for i := 0 to |connections|
        invariant Retain(connections, id) == kept + Retain(connections[i..], id)
      {
        assert connections[i..][1..] == connections[i + 1..];
        if connections[i].id != id {
          kept := kept + [connections[i]];
        }
      }
      connections := kept;
    }

    method UpdateState(id: Id, files: seq<FileMapping>)
      requires Valid()
      modifies this
      ensures Valid() && Value() == Update(old(Value()), id, files)
    {
      var i := 0;
      while i < |connections|
        invariant 0 <= i <= |connections|
        invariant forall j :: 0 <= j < i ==> connections[j].id != id
      {
        if connections[i].id == id {
          FindUnique(connections, id, i);
          connections := connections[i := connections[i].(files := files)];
          return;
        }
        i := i + 1;
      }
      FindUnique(connections, id, i);
    }

    method IncrementIndexAndReturnAddr() returns (served: Option<Addr>)
      requires Valid()
      modifies this
      ensures Valid() && (Value(), served) == Increment(old(Value()))
    {
      if |connections| == 0 {
        return None;
      }
      if indexToWrite < 0 {
        indexToWrite := 0;
      } else {
        indexToWrite := (indexToWrite + 1) % (|connections| as i32);
      }
      var position := indexToWrite as int;
      if position < |connections| {
        return Some(connections[position].ip);
      } else {
        return None;
      }
    }

    method GetLocation(f: string, c: int) returns (res: seq<Addr>)
      ensures res == Locations(connections, f, c)
    {
      res := [];
      for i := 0 to |connections|
        invariant res == Locations(connections[..i], f, c)
      {
        var conn := connections[i];
        ghost var before := res;
        assert connections[..i + 1][..i] == connections[..i];
        for j := 0 to |conn.files|
          invariant res == before
          invariant conn.ip in before || forall e :: e in conn.files[..j] ==> !(e.filename == f && c in e.chunkIds)
        {
          var file := conn.files[j];
          assert conn.files[..j + 1] == conn.files[..j] + [file];
          if file.filename == f && c in file.chunkIds && conn.ip !in res {
            res := res + [conn.ip];
            assert file in conn.files;
            break;
          }
        }
        assert conn.files[..|conn.files|] == conn.files;
      }
      assert connections[..|connections|] == connections;
    }

    method GetMultipleChunks(f: string, ids: seq<int>) returns (res: seq<seq<Addr>>)
      ensures res == MultipleLocations(connections, f, ids)
    {
      res := [];
      for i := 0 to |ids|
        invariant res == MultipleLocations(connections, f, ids[..i])
      {
        var found := GetLocation(f, ids[i]);
        res := res + [found];
      }
      assert ids[..|ids|] == ids;
    }

    method GetChunksForFile(f: string) returns (res: seq<int>)
      ensures res == ChunksForFile(connections, f)
    {
      res := [];
      for i := 0 to |connections|
        invariant res == Collect(connections[..i], f)
      {
        var files := connections[i].files;
        assert connections[..i + 1][..i] == connections[..i];
        var j := 0;
        while j < |files| && files[j].filename != f
          invariant 0 <= j <= |files|
          invariant FirstChunks(files, f) == FirstChunks(files[j..], f)
        {
          assert files[j..][1..] == files[j + 1..];
          j := j + 1;
        }
        if j < |files| {
          var ids := files[j].chunkIds;
          ghost var before := res;
          for k := 0 to |ids|
            invariant res == PushNew(before, ids[..k])
          {
            assert ids[..k + 1][..k] == ids[..k];
            if ids[k] !in res {
              res := res + [ids[k]];
            }
          }
          assert ids[..|ids|] == ids;
        }
      }
      assert connections[..|connections|] == connections;
      res := Sorted(res);
    }

    /** What other threads do to the registry between two of this thread's locked steps. */
    method OthersAct(ops: seq<MasterOp>)
      requires Valid() && |connections| + |ops| <= MAX_CONNECTIONS
      modifies this
      ensures Valid() && Value() == RunFrom(old(Value()), ops)
      ensures |connections| <= old(|connections|) + |ops|
    {
      ghost var m := Value();
      for i := 0 to |ops|
        invariant Valid() && Value() == RunFrom(m, ops[..i])
        invariant |connections| <= |m.conns| + i
      {
        assert ops[..i + 1][..i] == ops[..i];
        match ops[i]
        case DoInsert(id, ip) => Insert(id, ip);
        case DoRemove(id) =>
          RetainShrinks(connections, id);
          Remove(id);
        case DoUpdate(id, files) => UpdateState(id, files);
        case DoIncrement => var _ := IncrementIndexAndReturnAddr();
      }
      assert ops[..|ops|] == ops;
    }

    /** return_server_to_write_chunk: the lock is taken anew for every increment, so others act in between. */
    method ReturnServerToWriteChunk(replicationCount: i32, others: seq<seq<MasterOp>>) returns (res: seq<Addr>)
      requires Valid() && |connections| + TotalOps(others) <= MAX_CONNECTIONS
      requires |others| == if replicationCount < 0 then 0 else replicationCount as int
      modifies this
      ensures Valid() && Value() == Interleaved(old(Value()), others)
      ensures NoDuplicates(res) && Elements(res) == Collected(old(Value()), others)
    {
      hide Interleaved, Collected, RunFrom;
      var i: i32 := 0;
      var picked: set<Option<Addr>> := {};
      ghost var m := Value();
      NoRounds(m);
      while i < replicationCount
        invariant 0 <= i && (i <= replicationCount || i == 0)
        invariant Valid() && Value() == Interleaved(m, others[..i])
        invariant |connections| + TotalOps(others) <= MAX_CONNECTIONS + TotalOps(others[..i])
        invariant forall a :: Some(a) in picked <==> a in Collected(m, others[..i])
      {
        NextRound(m, others, i as int);
        TotalOpsGrow(others, (i + 1) as int);
        OthersAct(others[i]);
        var served := IncrementIndexAndReturnAddr();
        picked := picked + {served};
        i := i + 1;
      }
      assert others[..i] == others;
      res := AddressesIn(picked);
    }

    /** One connection's read loop among the others': every frame in order, then the removal when the stream ends. */
    method ServeConnection(id: Id, ip: Addr, messages: seq<Message>, others: seq<seq<MasterOp>>)
      requires Valid() && |others| == |messages| + 1
      requires |connections| + |messages| + TotalOps(others) <= MAX_CONNECTIONS
      modifies this
      ensures Valid()
      ensures Value() == Registry.Remove(ReceiveAmong(old(Value()), id, ip, messages, others), id)
      ensures forall x :: x in connections ==> x.id != id
    {
      hide ReceiveAmong, RunFrom, TotalOps;
      ghost var m := Value();
      TotalOpsGrow(others, 1);
      OthersAct(others[0]);
      BeforeFrames(m, id, ip, others);
      for i := 0 to |messages|
        invariant Valid()
        invariant |connections| + |messages| - i + TotalOps(others) <= MAX_CONNECTIONS + TotalOps(others[..i + 1])
        invariant Value() == ReceiveAmong(m, id, ip, messages[..i], others[..i + 1])
      {
        NextFrame(m, id, ip, messages, others, i);
        TotalOpsGrow(others, i + 2);
        match messages[i] {
          case Join => Insert(id, ip);
          case Health(files) => UpdateState(id, files);
          case NoMessageType =>
          case Undecodable =>
        }
        OthersAct(others[i + 1]);
      }
      assert messages[..|messages|] == messages && others[..|messages| + 1] == others;
      Remove(id);
    }
  }

  /** Into the reply go the addresses, without None, in whatever order the hash set yields them. */
  method AddressesIn(picked: set<Option<Addr>>) returns (res: seq<Addr>)
    ensures NoDuplicates(res) && forall a :: a in res <==> Some(a) in picked
  {
    res := [];
    var rest := picked;
    while rest != {}
      invariant rest <= picked && NoDuplicates(res)
      invariant forall a :: a in res <==> Some(a) in picked - rest
      decreases rest
    {
      var index :| index in rest;
      rest := rest - {index};
      match index
      case Some(addr) => res := res + [addr];
      case None =>
    }
  }

  lemma NoRounds(m: Master)
    ensures Interleaved(m, []) == m && Collected(m, []) == {}
  {
  }

  lemma NextRound(m: Master, others: seq<seq<MasterOp>>, i: nat)
    requires i < |others|
    ensures var (next, served) := Increment(RunFrom(Interleaved(m, others[..i]), others[i]));
      && Interleaved(m, others[..i + 1]) == next
      && Collected(m, others[..i + 1]) ==
           Collected(m, others[..i]) + if served.None? then {} else {served.value}
  {
    assert others[..i + 1][..i] == others[..i];
  }

  function TotalOps(others: seq<seq<MasterOp>>): nat {
    if others == [] then 0 else TotalOps(others[..|others| - 1]) + |others[|others| - 1]|
  }

  lemma {:induction false} TotalOpsGrow(others: seq<seq<MasterOp>>, i: nat)
    requires i <= |others|
    ensures TotalOps(others[..i]) <= TotalOps(others)
    ensures i > 0 ==> TotalOps(others[..i]) == TotalOps(others[..i - 1]) + |others[i - 1]|
    decreases |others|
  {
    if i > 0 {
      assert others[..i][..i - 1] == others[..i - 1];
    }
    if i < |others| {
      assert others[..|others| - 1][..i] == others[..i];
      TotalOpsGrow(others[..|others| - 1], i);
    } else {
      assert others[..i] == others;
    }
  }

  /** The frames of one connection among the operations of the others: others[0] runs before the first frame. */
  function ReceiveAmong(m: Master, id: Id, ip: Addr, messages: seq<Message>, others: seq<seq<MasterOp>>): Master
    requires |others| == |messages| + 1
  {
    var k := |messages|;
    var before := if k == 0 then m
                  else Receive(ReceiveAmong(m, id, ip, messages[..k - 1], others[..k]), id, ip, messages[k - 1]);
    RunFrom(before, others[k])
  }

  lemma BeforeFrames(m: Master, id: Id, ip: Addr, others: seq<seq<MasterOp>>)
    requires others != []
    ensures ReceiveAmong(m, id, ip, [], others[..1]) == RunFrom(m, others[0])
    ensures TotalOps(others[..0]) == 0
  {
  }

  lemma NextFrame(m: Master, id: Id, ip: Addr, messages: seq<Message>, others: seq<seq<MasterOp>>, i: nat)
    requires i < |messages| && |others| == |messages| + 1
    ensures ReceiveAmong(m, id, ip, messages[..i + 1], others[..i + 2])
         == var n := ReceiveAmong(m, id, ip, messages[..i], others[..i + 1]);
            RunFrom(Receive(n, id, ip, messages[i]), others[i + 1])
  {
    assert messages[..i + 1][..i] == messages[..i] && others[..i + 2][..i + 1] == others[..i + 1];
  }

  /** What one frame of the connection does to the registry, if anything. */
  function FrameOps(id: Id, ip: Addr, msg: Message): seq<MasterOp> {
    match msg
    case Join => [DoInsert(id, ip)]
    case Health(files) => [DoUpdate(id, files)]
    case NoMessageType => []
    case Undecodable => []
  }

  /** The connection's frames and the others' operations in the order in which they take the lock. */
  function ConnectionSchedule(id: Id, ip: Addr, messages: seq<Message>, others: seq<seq<MasterOp>>): seq<MasterOp>
    requires |others| == |messages| + 1
  {
    var k := |messages|;
    (if k == 0 then []
     else ConnectionSchedule(id, ip, messages[..k - 1], others[..k]) + FrameOps(id, ip, messages[k - 1])) + others[k]
  }

  /** A read loop among others is a registry history in which other kinds of frames leave no trace. */
  lemma {:induction false} ReceiveAmongIsRun(m: Master, id: Id, ip: Addr, messages: seq<Message>,
                                             others: seq<seq<MasterOp>>)
    requires |others| == |messages| + 1
    ensures ReceiveAmong(m, id, ip, messages, others) == RunFrom(m, ConnectionSchedule(id, ip, messages, others))
  {
    var k := |messages|;
    if k == 0 {
      assert [] + others[0] == others[0];
    } else {
      var earlier := ConnectionSchedule(id, ip, messages[..k - 1], others[..k]);
      ReceiveAmongIsRun(m, id, ip, messages[..k - 1], others[..k]);
      FrameIsRun(RunFrom(m, earlier), id, ip, messages[k - 1]);
      RunsCompose(m, earlier, FrameOps(id, ip, messages[k - 1]));
      RunsCompose(m, earlier + FrameOps(id, ip, messages[k - 1]), others[k]);
    }
  }

  lemma FrameIsRun(m: Master, id: Id, ip: Addr, msg: Message)
    ensures RunFrom(m, FrameOps(id, ip, msg)) == Receive(m, id, ip, msg)
  {
    var ops := FrameOps(id, ip, msg);
    if ops != [] {
      assert ops[..0] == [];
    }
  }
}
