/** insertFile against a live cluster: retries, replicas, and other traffic between its requests. */
module Upload {
  import opened Common
  import opened FileTree
  import opened Storage
  import opened Registry
  import RoundRobin
  import Http
  import opened Chunks
  import opened Cluster
  import opened Placement

  // What one chunk's requests keep

  ghost predicate AllServe(s: System, addrs: seq<Addr>) {
    forall a :: a in addrs ==> Serves(s, a)
  }

  /** From s on, chunk c is being stored at these addresses and nothing else happens to files. */
  ghost predicate Storing(s: System, t: System, f: string, content: Bytes, c: int, addrs: set<Addr>) {
    Uploading(t, f, content) && Grows(s, t, f) && OnlyAdds(s, t, f, c, addrs)
  }

  lemma StoringStarts(s: System, f: string, content: Bytes, c: int, addrs: set<Addr>)
    requires Uploading(s, f, content)
    ensures Storing(s, s, f, content, c, addrs)
  {
  }

  lemma UndisturbedStores(s: System, t: System, f: string, content: Bytes, c: int)
    requires Uploading(s, f, content) && Undisturbed(s, t) && Linked(t)
    ensures Storing(s, t, f, content, c, {})
  {
    UndisturbedGrows(s, t, f, content);
  }

  lemma StoringChains(s: System, t: System, u: System, f: string, content: Bytes, c: int, a: set<Addr>, b: set<Addr>)
    requires Storing(s, t, f, content, c, a) && Storing(t, u, f, content, c, b)
    ensures Storing(s, u, f, content, c, a + b)
  {
    hide Uploading, OnlyAdds;
    GrowsTransitive(s, t, u, f);
    OnlyAddsTransitive(s, t, u, f, c, a, b);
  }

  /** A node that keeps the upload's conditions accepts the client's next slice. */
  lemma PostIsAccepted(n: Node, f: string, c: nat, content: Bytes)
    requires Sound(n) && HoldsSlices(n, f, content) && UploadedLast(n, f) && c < ChunkCount(|content|)
    ensures var data := Slice(content, c);
      Http.Ok(Http.Dispatch(n, Http.PostChunk(f, c), data, Wrote(|data|)).1)
  {
    SliceIsSaved(n, f, c, content);
    Http.PostIsSave(n, f, c, Slice(content, c), Wrote(|Slice(content, c)|));
  }

  /** One accepted upload stores the chunk at that address and nowhere else. */
  lemma PostStores(s: System, id: Id, a: Addr, f: string, c: nat, content: Bytes)
    requires Uploading(s, f, content) && c < ChunkCount(|content|)
    requires Serves(s, a) && id in s.channels && id in s.ips && s.ips[id] == a
    ensures var t := Step(s, FullPost(id, f, c, Slice(content, c)));
      Storing(s, t, f, content, c, {a}) && a in Holders(t, f, c) && t.master == s.master
  {
    hide Sound, HoldsSlices, UploadedLast, Save, Grows, OnlyAdds, QueuesOk;
    PostGrows(s, id, f, c, content);
    assert Registered(s, id);
  }

  // The client

  /** How a request can fail from the client's side: before or after the node has handled it. */
  datatype Fault = RequestLost | ReplyLost

  /** The cluster as one client meets it: others act between its requests, and some requests fail. */
  class World {
    var sys: System
    var clock: nat
    const others: nat -> seq<Event>
    var faults: seq<Fault>

    constructor (sys: System, others: nat -> seq<Event>, faults: seq<Fault>)
      ensures this.sys == sys && this.others == others && this.faults == faults
    {
      this.sys := sys;
      this.others := others;
      this.faults := faults;
      clock := 0;
    }

    ghost predicate OthersAreQuiet() {
      forall t :: AllQuiet(others(t))
    }

    /** Nobody else does anything while this client works. */
    ghost predicate Alone() {
      forall t :: others(t) == []
    }

    method OthersAct()
      requires OthersAreQuiet() && Linked(sys)
      modifies this`sys, this`clock
      ensures Linked(sys) && Undisturbed(old(sys), sys)
      ensures Alone() ==> sys == old(sys)
    {
      QuietRun(sys, others(clock));
      sys := RunFrom(sys, others(clock));
      clock := clock + 1;
    }

    /** GET /server_to_write: r cursor steps, each under its own lock, collected in a hash set. */
    method ServerToWrite(r: nat) returns (addrs: seq<Addr>)
      requires OthersAreQuiet() && Linked(sys)
      modifies this`sys, this`clock
      ensures Linked(sys) && Undisturbed(old(sys), sys)
      ensures NoDuplicates(addrs) && |addrs| <= r
      ensures AllServe(sys, addrs)
      ensures r >= 1 && old(sys).master.conns != [] ==> addrs != []
      ensures Alone() ==> sys.master == RoundRobin.AfterIncrements(old(sys).master, r)
      ensures Alone() ==> Elements(addrs) == RoundRobin.Replicas(old(sys).master, r)
    {
      hide Linked, Undisturbed, AllServe, OthersAreQuiet, Alone;
      hide RoundRobin.AfterIncrements, RoundRobin.Replicas, AddAnswer;
      addrs := [];
      NothingAskedYet(sys);
      for i := 0 to r
        invariant Linked(sys) && Undisturbed(old(sys), sys)
        invariant NoDuplicates(addrs) && |addrs| <= i
        invariant AllServe(sys, addrs)
        invariant i >= 1 && old(sys).master.conns != [] ==> addrs != []
        invariant Alone() ==> sys.master == RoundRobin.AfterIncrements(old(sys).master, i)
        invariant Alone() ==> Elements(addrs) == RoundRobin.Replicas(old(sys).master, i)
      {
        ghost var previous := sys;
        var served := PickOne(addrs);
        UndisturbedTransitive(old(sys), previous, sys);
        AddAnswerIsReplica(old(sys).master, i, addrs, served);
        AddAnswerServes(sys, addrs, served);
        addrs := AddAnswer(addrs, served);
      }
    }

    /** One iteration's cursor step, after whatever the others did since the last one. */
    method PickOne(addrs: seq<Addr>) returns (served: Option<Addr>)
      requires OthersAreQuiet() && Linked(sys) && AllServe(sys, addrs)
      modifies this`sys, this`clock
      ensures Linked(sys) && Undisturbed(old(sys), sys)
      ensures AllServe(sys, addrs) && (served.Some? ==> AllServe(sys, addrs + [served.value]))
      ensures old(sys).master.conns != [] ==> served.Some?
      ensures Alone() ==> (sys.master, served) == Increment(old(sys).master)
    {
      hide Linked, AllServe, OthersAreQuiet, Alone, Serves, Registered;
      OthersAct();
      ghost var mid := sys;
      served := Increment(sys.master).1;
      PickServes(mid);
      sys := Step(sys, Pick);
      UndisturbedTransitive(old(sys), mid, sys);
      AllServeStays(old(sys), sys, addrs);
      if served.Some? {
        OneMoreServes(sys, addrs, served.value);
      }
    }

    method NextFault() returns (fault: Option<Fault>)
      modifies this`faults
      ensures fault == if old(faults) == [] then None else Some(old(faults)[0])
      ensures faults == if old(faults) == [] then [] else old(faults)[1..]
    {
      fault := None;
      if faults != [] {
        fault := Some(faults[0]);
        faults := faults[1..];
      }
    }

    method OthersActDuringUpload(ghost start: System, a: Addr, f: string, c: nat, content: Bytes)
      requires OthersAreQuiet() && Storing(start, sys, f, content, c, {a}) && Serves(sys, a)
      modifies this`sys, this`clock
      ensures Storing(start, sys, f, content, c, {a}) && Serves(sys, a)
      ensures Alone() ==> sys == old(sys)
    {
      hide OthersAreQuiet, Alone, Serves, Grows, OnlyAdds, Linked, NodesOk;
      ghost var before := sys;
      OthersAct();
      UndisturbedStores(before, sys, f, content, c);
      ServesStays(before, sys, a, f);
      StoringChains(start, before, sys, f, content, c, {a}, {});
      assert {a} + {} == {a};
    }

    /** The request reaches the process behind the address. */
    method HandlePost(ghost start: System, a: Addr, f: string, c: nat, content: Bytes, data: Bytes)
      returns (answer: Http.Response)
      requires Storing(start, sys, f, content, c, {a}) && Serves(sys, a)
      requires c < ChunkCount(|content|) && data == Slice(content, c)
      modifies this`sys
      ensures Storing(start, sys, f, content, c, {a}) && Serves(sys, a) && a in Holders(sys, f, c)
      ensures Http.Ok(answer) && sys.master == old(sys).master
    {
      hide Sound, Grows, OnlyAdds, HoldsSlices, UploadedLast, Step, Holders, QueuesOk, Http.Dispatch, Http.Ok;
      var id :| id in sys.channels && id in sys.ips && sys.ips[id] == a;
      PostStores(sys, id, a, f, c, content);
      assert id in sys.nodes && Sound(sys.nodes[id]);
      PostIsAccepted(sys.nodes[id], f, c, content);
      answer := Http.Dispatch(sys.nodes[id], Http.PostChunk(f, c), data, Wrote(|data|)).1;
      ghost var before := sys;
      sys := Step(sys, FullPost(id, f, c, data));
      StoringChains(start, before, sys, f, content, c, {a}, {a});
      assert {a} + {a} == {a};
      ServesStays(before, sys, a, f);
    }

    /**
     The retry loop for one address: post until the answer is 200. A lost request or a lost reply is the
     caught error that makes the client try again.
     */
    method PostUntilStored(a: Addr, f: string, c: nat, content: Bytes, data: Bytes)
      requires OthersAreQuiet() && Uploading(sys, f, content)
      requires c < ChunkCount(|content|) && data == Slice(content, c)
      requires Serves(sys, a)
      modifies this`sys, this`clock, this`faults
      ensures Storing(old(sys), sys, f, content, c, {a})
      ensures a in Holders(sys, f, c)
      ensures Alone() ==> sys.master == old(sys).master
    {
      hide Storing, Uploading, Serves, Holders, Alone, OthersAreQuiet;
      StoringStarts(sys, f, content, c, {a});
      var uploaded := false;
      while !uploaded
        invariant Storing(old(sys), sys, f, content, c, {a}) && Serves(sys, a)
        invariant uploaded ==> a in Holders(sys, f, c)
        invariant Alone() ==> sys.master == old(sys).master
        decreases |faults|, !uploaded
      {
        var fault := NextFault();
        OthersActDuringUpload(old(sys), a, f, c, content);
        if fault == Some(RequestLost) {
          continue;
        }
        var response := HandlePost(old(sys), a, f, c, content, data);
        if fault == Some(ReplyLost) {
          continue;
        }
        if Http.Ok(response) {
          uploaded := true;
        }
      }
    }
  }

  // Choosing the replicas

  lemma NothingAskedYet(s: System)
    ensures Undisturbed(s, s) && AllServe(s, []) && NoDuplicates<Addr>([])
    ensures RoundRobin.AfterIncrements(s.master, 0) == s.master
    ensures RoundRobin.Replicas(s.master, 0) == Elements([])
  {
  }

  /** HashSet::insert of one answer, None being filtered out. */
  function AddAnswer(addrs: seq<Addr>, served: Option<Addr>): (r: seq<Addr>)
    requires NoDuplicates(addrs)
    ensures NoDuplicates(r) && |addrs| <= |r| <= |addrs| + 1
    ensures served.Some? ==> served.value in r
  {
    match served
    case None => addrs
    case Some(a) => if a in addrs then addrs else addrs + [a]
  }

  lemma AddAnswerServes(s: System, addrs: seq<Addr>, served: Option<Addr>)
    requires NoDuplicates(addrs) && AllServe(s, addrs)
    requires served.Some? ==> AllServe(s, addrs + [served.value])
    ensures AllServe(s, AddAnswer(addrs, served))
  {
  }

  lemma AddAnswerIsReplica(m: Master, i: nat, addrs: seq<Addr>, served: Option<Addr>)
    requires NoDuplicates(addrs)
    ensures Elements(addrs) == RoundRobin.Replicas(m, i) && served == Increment(RoundRobin.AfterIncrements(m, i)).1 ==>
      Elements(AddAnswer(addrs, served)) == RoundRobin.Replicas(m, i + 1)
    ensures RoundRobin.AfterIncrements(m, i + 1) == Increment(RoundRobin.AfterIncrements(m, i)).0
  {
  }

  lemma AllServeStays(s: System, t: System, addrs: seq<Addr>)
    requires AllServe(s, addrs) && Undisturbed(s, t)
    ensures AllServe(t, addrs)
  {
    forall a | a in addrs ensures Serves(t, a) {
      ServesStays(s, t, a, "");
    }
  }

  lemma OneMoreServes(s: System, addrs: seq<Addr>, a: Addr)
    requires AllServe(s, addrs) && Serves(s, a)
    ensures AllServe(s, addrs + [a])
  {
  }

  lemma ServedIsRegistered(s: System)
    requires Linked(s) && s.master.conns != []
    ensures Increment(s.master).1.Some? && Serves(s, Increment(s.master).1.value)
  {
    var p := NextPosition(s.master.cursor, |s.master.conns|);
    var id := s.master.conns[p].id;
    FindUnique(s.master.conns, id, p);
    assert Registered(s, id);
  }

  /** One cursor step disturbs nothing and names a registered, running process if there is one. */
  lemma PickServes(s: System)
    requires Linked(s)
    ensures var t := Step(s, Pick);
      && Linked(t) && Undisturbed(s, t) && t.master == Increment(s.master).0
      && (s.master.conns != [] ==> Increment(s.master).1.Some?)
      && (Increment(s.master).1.Some? ==> Serves(t, Increment(s.master).1.value))
  {
    QuietStep(s, Pick);
    if s.master.conns != [] {
      ServedIsRegistered(s);
      ServesStays(s, Step(s, Pick), Increment(s.master).1.value, "");
    }
  }

  lemma AddressesOfMembersDiffer(s: System)
    requires Linked(s) && DistinctAddresses(s)
    ensures RoundRobin.DistinctAddresses(s.master)
  {
  }

  lemma {:induction false} IncrementsKeepMembers(m: Master, r: nat)
    ensures RoundRobin.AfterIncrements(m, r).conns == m.conns
    ensures m.conns == [] ==> RoundRobin.Replicas(m, r) == {}
  {
    if r > 0 {
      IncrementsKeepMembers(m, r - 1);
    }
  }

  /** The master when a lone client asks for chunk c: every earlier chunk moved the cursor r steps. */
  function MasterBefore(m: Master, r: nat, c: nat): Master {
    if c == 0 then m else RoundRobin.AfterIncrements(MasterBefore(m, r, c - 1), r)
  }

  lemma {:induction false} MembersStay(m: Master, r: nat, c: nat)
    ensures MasterBefore(m, r, c).conns == m.conns
  {
    if c > 0 {
      MembersStay(m, r, c - 1);
      IncrementsKeepMembers(MasterBefore(m, r, c - 1), r);
    }
  }

  /** A lone client gets min(r, members) addresses for every chunk. */
  lemma LoneClientCopies(s: System, r: nat, c: nat)
    requires Linked(s) && DistinctAddresses(s)
    ensures |RoundRobin.Replicas(MasterBefore(s.master, r, c), r)| == Min(r, |s.master.conns|)
  {
    var m := MasterBefore(s.master, r, c);
    MembersStay(s.master, r, c);
    AddressesOfMembersDiffer(s);
    if m.conns == [] {
      IncrementsKeepMembers(m, r);
    } else {
      RoundRobin.ReplicaSetSize(m, r);
    }
  }

  // One chunk

  /** The first i locations have been served, and nothing else was written. */
  ghost predicate StoredAtFirst(s: System, t: System, f: string, content: Bytes, c: int, locations: seq<Addr>, i: nat)
    requires i <= |locations|
  {
    var done := Elements(locations[..i]);
    Storing(s, t, f, content, c, done) && done <= Holders(t, f, c)
  }

  lemma StoredAtNone(s: System, f: string, content: Bytes, c: int, locations: seq<Addr>)
    requires Uploading(s, f, content)
    ensures StoredAtFirst(s, s, f, content, c, locations, 0)
  {
    StoringStarts(s, f, content, c, {});
    assert Elements(locations[..0]) == {};
  }

  lemma StoredAtOneMore(s: System, t: System, u: System, f: string, content: Bytes, c: int,
                        locations: seq<Addr>, i: nat)
    requires i < |locations| && StoredAtFirst(s, t, f, content, c, locations, i)
    requires Storing(t, u, f, content, c, {locations[i]}) && locations[i] in Holders(u, f, c)
    ensures StoredAtFirst(s, u, f, content, c, locations, i + 1)
  {
    hide Uploading, OnlyAdds, Grows, Holders;
    StoringChains(s, t, u, f, content, c, Elements(locations[..i]), {locations[i]});
    HoldersGrow(t, u, f, c);
    assert locations[..i + 1] == locations[..i] + [locations[i]];
    assert Elements(locations[..i + 1]) == Elements(locations[..i]) + {locations[i]};
  }

  lemma NextLocationServes(s: System, t: System, f: string, content: Bytes, c: int, locations: seq<Addr>, i: nat)
    requires i < |locations| && StoredAtFirst(s, t, f, content, c, locations, i) && AllServe(s, locations)
    ensures Uploading(t, f, content) && Serves(t, locations[i])
  {
    ServesStays(s, t, locations[i], f);
  }

  /** Post the chunk to each location in turn. */
  method StoreAt(world: World, locations: seq<Addr>, content: Bytes, f: string, c: nat, chunk: Bytes)
    requires world.OthersAreQuiet() && Uploading(world.sys, f, content)
    requires c < ChunkCount(|content|) && chunk == Slice(content, c)
    requires AllServe(world.sys, locations)
    modifies world
    ensures Storing(old(world.sys), world.sys, f, content, c, Elements(locations))
    ensures Elements(locations) <= Holders(world.sys, f, c)
    ensures world.Alone() ==> world.sys.master == old(world.sys).master
  {
    hide StoredAtFirst, Storing, Uploading, AllServe, Serves, Holders, World.Alone, World.OthersAreQuiet;
    ghost var chosen := world.sys;
    StoredAtNone(chosen, f, content, c, locations);
    var i := 0;
    while i < |locations|
      invariant 0 <= i <= |locations|
      invariant StoredAtFirst(chosen, world.sys, f, content, c, locations, i)
      invariant world.Alone() ==> world.sys.master == chosen.master
    {
      ghost var previous := world.sys;
      NextLocationServes(chosen, previous, f, content, c, locations, i);
      world.PostUntilStored(locations[i], f, c, content, chunk);
      StoredAtOneMore(chosen, previous, world.sys, f, content, c, locations, i);
      i := i + 1;
    }
    StoredAtAll(chosen, world.sys, f, content, c, locations);
  }

  lemma StoredAtAll(s: System, t: System, f: string, content: Bytes, c: int, locations: seq<Addr>)
    requires StoredAtFirst(s, t, f, content, c, locations, |locations|)
    ensures Storing(s, t, f, content, c, Elements(locations)) && Elements(locations) <= Holders(t, f, c)
  {
    assert locations[..|locations|] == locations;
  }

  /** One chunk: ask the master for locations and store the chunk at each of them. */
  method StoreChunk(world: World, content: Bytes, f: string, c: nat, replication: nat) returns (ghost addrs: set<Addr>)
    requires world.OthersAreQuiet() && Uploading(world.sys, f, content) && c < ChunkCount(|content|)
    modifies world
    ensures Storing(old(world.sys), world.sys, f, content, c, addrs) && addrs <= Holders(world.sys, f, c)
    ensures |addrs| <= replication
    ensures replication >= 1 && old(world.sys).master.conns != [] ==> addrs != {}
    ensures world.Alone() ==> world.sys.master == RoundRobin.AfterIncrements(old(world.sys).master, replication)
    ensures world.Alone() ==> addrs == RoundRobin.Replicas(old(world.sys).master, replication)
  {
    hide OnlyAdds, Grows, Serves, Holders, World.Alone, World.OthersAreQuiet, Linked, Undisturbed, AllServe;
    var first := c * CHUNK_SIZE;
    var end := Min(first + CHUNK_SIZE, |content|);
    var chunk := content[first..end];
    ghost var before := world.sys;
    var locations := world.ServerToWrite(replication);
    addrs := Elements(locations);
    ghost var chosen := world.sys;
    UndisturbedStores(before, chosen, f, content, c);
    StoreAt(world, locations, content, f, c, chunk);
    StoringChains(before, chosen, world.sys, f, content, c, {}, addrs);
    assert {} + addrs == addrs;
    DistinctCount(locations);
    assert locations != [] ==> locations[0] in addrs;
  }

  // The whole file

  /** Every chunk of the file on any disk is its own stretch of 8192 bytes, or the rest. */
  ghost predicate StoresStretches(s: System, f: string, content: Bytes) {
    forall id, c :: id in s.nodes && OnDisk(s.nodes[id].tree, f, c) ==>
      && 0 <= 8192 * c < |content|
      && s.nodes[id].tree[ChunkPath(f, c)] == Regular(content[8192 * c..Min(8192 * c + 8192, |content|)])
  }

  lemma UploadingStoresStretches(s: System, f: string, content: Bytes)
    requires Uploading(s, f, content)
    ensures StoresStretches(s, f, content)
  {
    forall id, c | id in s.nodes && OnDisk(s.nodes[id].tree, f, c)
      ensures 0 <= 8192 * c < |content|
      ensures s.nodes[id].tree[ChunkPath(f, c)] == Regular(content[8192 * c..Min(8192 * c + 8192, |content|)])
    {
      assert HoldsSlices(s.nodes[id], f, content);
      SliceIs(content, c);
      ChunkCountIs(|content|);
    }
  }

  /** What insertFile can say about one chunk's placement, given the master it started from. */
  ghost predicate FairlyPlaced(world: World, m: Master, replication: nat, c: nat, addrs: set<Addr>) {
    && |addrs| <= replication
    && (replication >= 1 && m.conns != [] ==> addrs != {})
    && (world.Alone() ==> addrs == RoundRobin.Replicas(MasterBefore(m, replication, c), replication))
  }

  ghost predicate AllFairlyPlaced(world: World, m: Master, replication: nat, placement: seq<set<Addr>>) {
    forall c :: 0 <= c < |placement| ==> FairlyPlaced(world, m, replication, c, placement[c])
  }

  ghost predicate NothingPlaced(placement: seq<set<Addr>>) {
    forall c :: 0 <= c < |placement| ==> placement[c] == {}
  }

  /** The state between two chunks: as many chunks are placed as `placement` is long. */
  ghost predicate Inserted(world: World, start: System, s: System, f: string, content: Bytes,
                           replication: nat, placement: seq<set<Addr>>)
  {
    && Uploading(s, f, content) && Grows(start, s, f) && PlacedExactly(s, f, placement)
    && AllFairlyPlaced(world, start.master, replication, placement)
    && (world.Alone() ==> s.master == MasterBefore(start.master, replication, |placement|))
    && (NothingPlaced(placement) ==> s.nodes == start.nodes)
    && PlacedExactly(start, f, [])
  }

  lemma FreshIsInserted(world: World, s: System, f: string, content: Bytes, replication: nat)
    requires Invariant(s) && DistinctAddresses(s)
    requires forall id :: id in s.nodes ==> !HasFiles(s.nodes[id].tree, f)
    ensures Inserted(world, s, s, f, content, replication, [])
  {
    hide Uploading, Grows, PlacedExactly, Invariant, DistinctAddresses;
    FreshIsUploading(s, f, content);
  }

  lemma InsertedIsUploading(world: World, start: System, s: System, f: string, content: Bytes,
                            replication: nat, placement: seq<set<Addr>>)
    requires Inserted(world, start, s, f, content, replication, placement)
    ensures Uploading(s, f, content)
  {
  }

  lemma InsertedOneMore(world: World, start: System, s: System, t: System, f: string, content: Bytes,
                        replication: nat, placement: seq<set<Addr>>, addrs: set<Addr>)
    requires Inserted(world, start, s, f, content, replication, placement)
    requires Storing(s, t, f, content, |placement|, addrs) && addrs <= Holders(t, f, |placement|)
    requires |addrs| <= replication && (replication >= 1 && s.master.conns != [] ==> addrs != {})
    requires world.Alone() ==> t.master == RoundRobin.AfterIncrements(s.master, replication)
    requires world.Alone() ==> addrs == RoundRobin.Replicas(s.master, replication)
    ensures Inserted(world, start, t, f, content, replication, placement + [addrs])
  {
    hide Storing, Uploading, Grows, PlacedExactly, Holders, AllFairlyPlaced, NothingPlaced, World.Alone;
    ChunkStored(start, s, t, f, content, placement, addrs);
    FairlyPlacedNext(world, start, s, f, replication, placement, addrs);
    NothingPlacedNext(placement, addrs);
  }

  lemma InsertedMeans(world: World, start: System, s: System, f: string, content: Bytes,
                      replication: nat, placement: seq<set<Addr>>)
    requires Inserted(world, start, s, f, content, replication, placement)
    ensures Uploading(s, f, content) && Grows(start, s, f) && PlacedExactly(s, f, placement)
    ensures AllFairlyPlaced(world, start.master, replication, placement)
    ensures NothingPlaced(placement) <==> s.nodes == start.nodes
    ensures StoresStretches(s, f, content)
  {
    UploadingStoresStretches(s, f, content);
    hide Uploading, Grows, StoresStretches, PlacedExactly, AllFairlyPlaced, NothingPlaced, World.Alone;
    SomethingPlacedShows(start, s, f, placement);
  }

  /**
   insertFile: whatever quiet traffic runs between its requests and however its finitely many failed
   requests fail, it returns true, every stored chunk is the true slice and indexed, and no other file is
   touched. `placement` says exactly where each chunk is afterwards: at no more than `replication` addresses,
   at one or more if a member was registered at the start, and for a lone client at the next
   min(replication, members) members of the circle. Without any placement no node has changed.
   */
  method InsertFile(world: World, content: Bytes, f: string, replication: nat)
    returns (ok: bool, ghost placement: seq<set<Addr>>)
    requires world.OthersAreQuiet() && Invariant(world.sys) && DistinctAddresses(world.sys)
    requires forall id :: id in world.sys.nodes ==> !HasFiles(world.sys.nodes[id].tree, f)
    modifies world
    ensures ok
    ensures Uploading(world.sys, f, content) && Grows(old(world.sys), world.sys, f)
    ensures |placement| == ChunkCount(|content|) && PlacedExactly(world.sys, f, placement)
    ensures if content == [] then placement == [] else 8192 * (|placement| - 1) < |content| <= 8192 * |placement|
    ensures StoresStretches(world.sys, f, content)
    ensures AllFairlyPlaced(world, old(world.sys).master, replication, placement)
    ensures NothingPlaced(placement) <==> world.sys.nodes == old(world.sys).nodes
  {
    hide Inserted, Uploading, Grows, Invariant, DistinctAddresses, PlacedExactly, Storing, HeldAt;
    hide World.Alone, World.OthersAreQuiet, RoundRobin.AfterIncrements, RoundRobin.Replicas;
    ghost var start := world.sys;
    var totalChunks := ChunkCount(|content|);
    placement := [];
    FreshIsInserted(world, start, f, content, replication);
    var chunkId := 0;
    while chunkId < totalChunks
      invariant 0 <= chunkId <= totalChunks && |placement| == chunkId
      invariant Inserted(world, start, world.sys, f, content, replication, placement)
    {
      ghost var before := world.sys;
      InsertedIsUploading(world, start, before, f, content, replication, placement);
      ghost var addrs := StoreChunk(world, content, f, chunkId, replication);
      InsertedOneMore(world, start, before, world.sys, f, content, replication, placement, addrs);
      placement := placement + [addrs];
      chunkId := chunkId + 1;
    }
    InsertedMeans(world, start, world.sys, f, content, replication, placement);
    ChunkCountIs(|content|);
    return true, placement;
  }

  lemma FairlyPlacedNext(world: World, start: System, before: System, f: string, replication: nat,
                         placement: seq<set<Addr>>, addrs: set<Addr>)
    requires AllFairlyPlaced(world, start.master, replication, placement) && Grows(start, before, f)
    requires |addrs| <= replication && (replication >= 1 && before.master.conns != [] ==> addrs != {})
    requires world.Alone() ==> before.master == MasterBefore(start.master, replication, |placement|)
    requires world.Alone() ==> addrs == RoundRobin.Replicas(before.master, replication)
    ensures AllFairlyPlaced(world, start.master, replication, placement + [addrs])
    ensures MasterBefore(start.master, replication, |placement| + 1)
         == RoundRobin.AfterIncrements(MasterBefore(start.master, replication, |placement|), replication)
  {
    hide RoundRobin.AfterIncrements, RoundRobin.Replicas, World.Alone;
    assert start.master.conns != [] ==> before.master.conns != [];
    hide Grows;
    var more := placement + [addrs];
    forall c | 0 <= c < |more| ensures FairlyPlaced(world, start.master, replication, c, more[c]) {
      if c < |placement| {
        assert FairlyPlaced(world, start.master, replication, c, placement[c]);
      }
    }
  }

  lemma NothingPlacedNext(placement: seq<set<Addr>>, addrs: set<Addr>)
    ensures NothingPlaced(placement + [addrs]) <==> NothingPlaced(placement) && addrs == {}
  {
    var more := placement + [addrs];
    assert more[|placement|] == addrs && forall c :: 0 <= c < |placement| ==> placement[c] == more[c];
  }

  /** A placed chunk is on the disk of a node that did not have it before. */
  lemma SomethingPlacedShows(s: System, t: System, f: string, placement: seq<set<Addr>>)
    requires PlacedExactly(t, f, placement) && PlacedExactly(s, f, [])
    ensures t.nodes == s.nodes ==> NothingPlaced(placement)
  {
    if t.nodes == s.nodes {
      forall c | 0 <= c < |placement| ensures placement[c] == {} {
        assert HeldAt(s, f, c, {}) && HeldAt(t, f, c, placement[c]);
        assert Holders(t, f, c) == {};
      }
    }
  }

  lemma ChunkStored(start: System, before: System, after: System, f: string, content: Bytes,
                    placement: seq<set<Addr>>, addrs: set<Addr>)
    requires Grows(start, before, f) && Storing(before, after, f, content, |placement|, addrs)
    requires addrs <= Holders(after, f, |placement|) && PlacedExactly(before, f, placement)
    ensures Uploading(after, f, content) && Grows(start, after, f)
    ensures PlacedExactly(after, f, placement + [addrs])
    ensures addrs == {} ==> after.nodes == before.nodes
    ensures start.master.conns != [] ==> before.master.conns != []
  {
    hide Grows, PlacedExactly, Holders, HoldsSlices, UploadedLast, QueuesOk, NodesOk;
    assert after.nodes == before.nodes || addrs != {};
    assert start.master.conns != [] ==> before.master.conns != [] by {
      GrowsKeepsMembers(start, before, f);
    }
    GrowsTransitive(start, before, after, f);
    PlacementGrows(before, after, f, placement, addrs);
  }

  lemma GrowsKeepsMembers(s: System, t: System, f: string)
    requires Grows(s, t, f)
    ensures s.master.conns != [] ==> t.master.conns != []
  {
  }

  lemma FreshIsUploading(s: System, f: string, content: Bytes)
    requires Invariant(s) && DistinctAddresses(s)
    requires forall id :: id in s.nodes ==> !HasFiles(s.nodes[id].tree, f)
    ensures Uploading(s, f, content) && Grows(s, s, f) && PlacedExactly(s, f, [])
  {
    forall id | id in s.nodes
      ensures HoldsSlices(s.nodes[id], f, content) && UploadedLast(s.nodes[id], f)
      ensures forall c :: !OnDisk(s.nodes[id].tree, f, c)
    {
      FreshHoldsSlices(s.nodes[id], f, content);
      HasFilesMeansOnDisk(s.nodes[id].tree, f);
    }
  }

  /**
   What insertFile's unconditional `true` is worth to a lone client with a non-empty file: every chunk is
   stored if and only if the replication factor is at least 1 and a member is registered, and otherwise
   no node has changed at all. Either way every chunk is at exactly min(replication, members) addresses.
   */
  method InsertAlone(world: World, content: Bytes, f: string, replication: nat) returns (ok: bool)
    requires world.Alone() && Invariant(world.sys) && DistinctAddresses(world.sys) && content != []
    requires forall id :: id in world.sys.nodes ==> !HasFiles(world.sys.nodes[id].tree, f)
    modifies world
    ensures ok
    ensures AllPlaced(world.sys, f, ChunkCount(|content|)) <==>
      replication >= 1 && old(world.sys).master.conns != []
    ensures world.sys.nodes == old(world.sys).nodes <==> replication == 0 || old(world.sys).master.conns == []
    ensures forall c :: 0 <= c < ChunkCount(|content|) ==>
      |Holders(world.sys, f, c)| == Min(replication, |old(world.sys).master.conns|)
  {
    ghost var placement;
    ok, placement := InsertFile(world, content, f, replication);
    assert Linked(world.sys);
    LonePlacement(world, old(world.sys), world.sys, f, replication, placement);
  }

  lemma LonePlacement(world: World, start: System, s: System, f: string, replication: nat, placement: seq<set<Addr>>)
    requires world.Alone() && Linked(start) && DistinctAddresses(start)
    requires AllFairlyPlaced(world, start.master, replication, placement)
    requires RegistryOk(s) && PlacedExactly(s, f, placement) && placement != []
    ensures var copies := Min(replication, |start.master.conns|);
      && (AllPlaced(s, f, |placement|) <==> copies >= 1)
      && (NothingPlaced(placement) <==> copies == 0)
      && (forall c :: 0 <= c < |placement| ==> |Holders(s, f, c)| == copies)
  {
    hide RegistryOk, PlacedExactly, Linked, DistinctAddresses, AllPlaced, Holders;
    PlacedIff(s, f, placement);
    forall c | 0 <= c < |placement| ensures |placement[c]| == Min(replication, |start.master.conns|) {
      assert FairlyPlaced(world, start.master, replication, c, placement[c]);
      LoneClientCopies(start, replication, c);
    }
    assert |placement[0]| == Min(replication, |start.master.conns|);
  }
}
