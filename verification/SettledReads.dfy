/** Reading from a settled cluster: when every replica choice yields the whole file, and when none can. */
module SettledReads {
  import opened Common
  import opened FileTree
  import opened Storage
  import opened Registry
  import opened Chunks
  import opened Cluster
  import opened Placement
  import opened Reports
  import opened Download

  // What the master answers in a settled cluster

  ghost predicate Readable(s: System) {
    Invariant(s) && DistinctAddresses(s) && Settled(s)
  }

  /** Some registered node has the chunk in its index under this name. */
  ghost predicate Listed(s: System, f: string, c: int) {
    exists id :: Registered(s, id) && id in s.nodes && Indexed(s.nodes[id].index, f, c)
  }

  lemma RegisteredView(s: System, k: nat)
    requires RegistryOk(s) && Settled(s) && k < |s.master.conns|
    ensures var id := s.master.conns[k].id;
      && Registered(s, id) && id in s.nodes && s.master.conns[k].files == s.nodes[id].index
      && id in s.channels && id in s.ips && s.ips[id] == s.master.conns[k].ip
  {
    FindUnique(s.master.conns, s.master.conns[k].id, k);
  }

  /** A registered node is found under its address for everything it indexes. */
  lemma IndexedIsLocated(s: System, id: Id, f: string, c: int)
    requires RegistryOk(s) && Settled(s) && Registered(s, id) && id in s.nodes && Indexed(s.nodes[id].index, f, c)
    ensures id in s.channels && id in s.ips && s.ips[id] in Locations(s.master.conns, f, c)
  {
    var k := Find(s.master.conns, id);
    RegisteredView(s, k);
    LocatedIff(s.master.conns, f, c, s.ips[id]);
  }

  lemma LocatedIsIndexed(s: System, f: string, c: int, a: Addr) returns (id: Id)
    requires RegistryOk(s) && Settled(s) && a in Locations(s.master.conns, f, c)
    ensures Registered(s, id) && id in s.nodes && Indexed(s.nodes[id].index, f, c)
    ensures id in s.channels && id in s.ips && s.ips[id] == a
  {
    LocatedIff(s.master.conns, f, c, a);
    var k :| 0 <= k < |s.master.conns| && s.master.conns[k].ip == a && Indexed(s.master.conns[k].files, f, c);
    RegisteredView(s, k);
    id := s.master.conns[k].id;
  }

  /** In a settled cluster an id is in the chunk list exactly when a registered node indexes it. */
  lemma ListedIff(s: System, f: string, c: int)
    requires Invariant(s) && Settled(s)
    ensures c in ChunksForFile(s.master.conns, f) <==> Listed(s, f, c)
    ensures Locations(s.master.conns, f, c) != [] <==> Listed(s, f, c)
  {
    hide Sound, ChunksForFile, Locations, QueuesOk;
    var conns := s.master.conns;
    forall k | 0 <= k < |conns| ensures UniqueNames(conns[k].files) {
      RegisteredView(s, k);
      NamesAreUnique(s.nodes[conns[k].id]);
    }
    ListedIffLocated(conns, f, c);
    if Locations(conns, f, c) != [] {
      var id := LocatedIsIndexed(s, f, c, Locations(conns, f, c)[0]);
    }
    if Listed(s, f, c) {
      var id :| Registered(s, id) && id in s.nodes && Indexed(s.nodes[id].index, f, c);
      IndexedIsLocated(s, id, f, c);
    }
  }

  // Reading

  /** The replies of a readFile on one state of the cluster: an address reaches its one running process. */
  ghost predicate AnsweredAt(r: Replies, s: System, f: string) {
    && Sane(r) && r.prepared && (forall i :: r.appended(i))
    && r.list == Some(ChunksForFile(s.master.conns, f))
    && (forall ids :: r.locate(ids) == Some(MultipleLocations(s.master.conns, f, ids)))
    && (forall i, c, id :: id in s.channels && id in s.nodes && id in s.ips ==>
          r.fetch(i, s.ips[id], c) == Lookup(s.nodes[id], f, c))
  }

  /** Every chunk of the file on any disk is a true slice, perhaps cut short. */
  ghost predicate CutFile(s: System, f: string, content: Bytes) {
    forall id, c :: id in s.nodes && OnDisk(s.nodes[id].tree, f, c) ==>
      && 0 <= c < ChunkCount(|content|)
      && s.nodes[id].tree[ChunkPath(f, c)].Regular?
      && s.nodes[id].tree[ChunkPath(f, c)].data <= Slice(content, c)
  }

  /** The node has the whole chunk. */
  predicate Whole(n: Node, f: string, c: int, content: Bytes) {
    && 0 <= c < ChunkCount(|content|) && OnDisk(n.tree, f, c)
    && n.tree[ChunkPath(f, c)] == Regular(Slice(content, c))
  }

  /** Registered nodes have every chunk of the file that they index. */
  ghost predicate Present(s: System, f: string) {
    forall id, c :: Registered(s, id) && id in s.nodes && Indexed(s.nodes[id].index, f, c) ==>
      OnDisk(s.nodes[id].tree, f, c)
  }

  /** They have it in full. */
  ghost predicate Honest(s: System, f: string, content: Bytes) {
    forall id, c :: Registered(s, id) && id in s.nodes && Indexed(s.nodes[id].index, f, c) ==>
      Whole(s.nodes[id], f, c, content)
  }

  ghost predicate Complete(s: System, f: string, n: nat) {
    forall c :: 0 <= c < n ==> Listed(s, f, c)
  }

  /** Some registered node indexes the chunk and has it in full. */
  ghost predicate Obtainable(s: System, f: string, c: int, content: Bytes) {
    exists id :: Registered(s, id) && id in s.nodes && Indexed(s.nodes[id].index, f, c)
      && Whole(s.nodes[id], f, c, content)
  }

  lemma FetchFrom(r: Replies, s: System, f: string, i: nat, c: int, id: Id)
    requires AnsweredAt(r, s, f) && id in s.channels && id in s.nodes && id in s.ips
    ensures r.fetch(i, s.ips[id], c) == Lookup(s.nodes[id], f, c)
  {
  }

  /** The i-th fetch goes to one of the addresses the master named for the i-th id. */
  lemma ChosenReplica(r: Replies, s: System, f: string, i: nat) returns (a: Addr)
    requires AnsweredAt(r, s, f) && Begins(r) && i < |r.list.value|
    ensures var locs := Locations(s.master.conns, f, r.list.value[i]);
      && locs != [] && a == Choose(locs, r.random(i)) && a in locs
      && Part(r, i) == r.fetch(i, a, r.list.value[i])
  {
    var replicas := r.locate(r.list.value).value[i];
    assert replicas == Locations(s.master.conns, f, r.list.value[i]);
    assert replicas in r.locate(r.list.value).value;
    a := Choose(replicas, r.random(i));
  }

  /** Each fetch is answered by a registered node that indexes the id, the one behind the chosen address. */
  lemma PartServed(s: System, f: string, r: Replies, i: nat) returns (id: Id)
    requires Readable(s) && AnsweredAt(r, s, f) && Begins(r) && i < |r.list.value|
    ensures Registered(s, id) && id in s.nodes && Indexed(s.nodes[id].index, f, r.list.value[i])
    ensures Part(r, i) == Lookup(s.nodes[id], f, r.list.value[i])
    ensures var locs := Locations(s.master.conns, f, r.list.value[i]);
      id in s.channels && id in s.ips && locs != [] && s.ips[id] == Choose(locs, r.random(i))
  {
    hide Sound, QueuesOk, Part, Locations, Lookup;
    var c := r.list.value[i];
    var a := ChosenReplica(r, s, f, i);
    id := LocatedIsIndexed(s, f, c, a);
    FetchFrom(r, s, f, i, c, id);
  }

  /** The guards pass exactly when the list is not empty: in one master state every listed id is located. */
  lemma BeginsIff(s: System, f: string, r: Replies)
    requires AnsweredAt(r, s, f)
    ensures Begins(r) <==> ChunksForFile(s.master.conns, f) != []
  {
    ListedChunksAreLocated(s.master.conns, f);
    assert r.locate(r.list.value) == Some(MultipleLocations(s.master.conns, f, r.list.value));
  }

  lemma ListOf(r: Replies, s: System, f: string) returns (ids: seq<int>)
    requires AnsweredAt(r, s, f)
    ensures r.list == Some(ids) && ids == ChunksForFile(s.master.conns, f)
  {
    ids := ChunksForFile(s.master.conns, f);
  }

  lemma AppendsWork(r: Replies, s: System, f: string, i: nat)
    requires AnsweredAt(r, s, f)
    ensures r.appended(i)
  {
  }

  lemma SomeListedIff(s: System, f: string)
    requires Readable(s)
    ensures ChunksForFile(s.master.conns, f) != [] <==> exists c :: Listed(s, f, c)
  {
    hide Sound, ChunksForFile, Listed, QueuesOk, DistinctAddresses;
    var ids := ChunksForFile(s.master.conns, f);
    if ids != [] {
      ListedIff(s, f, ids[0]);
    }
    if c :| Listed(s, f, c) {
      ListedIff(s, f, c);
    }
  }

  lemma ReadableListedIff(s: System, f: string, c: int)
    requires Readable(s)
    ensures c in ChunksForFile(s.master.conns, f) <==> Listed(s, f, c)
  {
    ListedIff(s, f, c);
  }

  /** A read succeeds exactly when something is listed and every fetch is answered. */
  lemma SucceedsIff(s: System, f: string, r: Replies)
    requires Readable(s) && AnsweredAt(r, s, f)
    ensures Begins(r) <==> exists c :: Listed(s, f, c)
    ensures Succeeds(r) <==> Begins(r) && forall i: nat :: i < |r.list.value| ==> Part(r, i).Some?
  {
    hide Readable, ChunksForFile, Part, Listed;
    BeginsIff(s, f, r);
    SomeListedIff(s, f);
    forall i: nat ensures r.appended(i) {
      AppendsWork(r, s, f, i);
    }
  }

  ghost predicate AllWhole(r: Replies, content: Bytes)
    requires Sane(r) && Begins(r)
  {
    forall i: nat :: i < |r.list.value| ==>
      0 <= r.list.value[i] < ChunkCount(|content|) && Part(r, i) == Some(Slice(content, r.list.value[i]))
  }

  lemma PartIsCut(s: System, f: string, content: Bytes, r: Replies, i: nat)
    requires Readable(s) && CutFile(s, f, content) && AnsweredAt(r, s, f) && Begins(r) && i < |r.list.value|
    requires Part(r, i).Some?
    ensures 0 <= r.list.value[i] < ChunkCount(|content|) && Part(r, i).value <= Slice(content, r.list.value[i])
  {
    hide Readable, Begins, Part, Locations;
    var id := PartServed(s, f, r, i);
    assert OnDisk(s.nodes[id].tree, f, r.list.value[i]);
  }

  /**
   What a successful read is worth where chunks may be cut short: it never yields more than the file, and it
   yields the file if and only if every fetched part is whole and no id is missing.
   */
  lemma ReadIsWholeIff(s: System, f: string, content: Bytes, r: Replies)
    requires Readable(s) && CutFile(s, f, content) && AnsweredAt(r, s, f) && Succeeds(r)
    ensures Concat(Parts(r, |r.list.value|)) == content <==>
      AllWhole(r, content) && Complete(s, f, ChunkCount(|content|))
    ensures Concat(Parts(r, |r.list.value|)) != content ==> |Concat(Parts(r, |r.list.value|))| < |content|
  {
    hide Readable, CutFile, Begins, Part, Listed, ChunksForFile, Locations;
    var ids := ListOf(r, s, f);
    ChunksForFileMeaning(s.master.conns, f);
    forall c ensures c in ids <==> Listed(s, f, c) {
      ReadableListedIff(s, f, c);
    }
    forall i: nat | i < |ids|
      ensures 0 <= ids[i] < ChunkCount(|content|) && Part(r, i).value <= Slice(content, ids[i])
    {
      PartIsCut(s, f, content, r, i);
    }
    var parts := Parts(r, |ids|);
    CutPartsIff(content, ids, parts);
    SlicesAreAllWhole(r, content, ids);
  }

  lemma SlicesAreAllWhole(r: Replies, content: Bytes, ids: seq<int>)
    requires Sane(r) && Succeeds(r) && r.list == Some(ids)
    requires forall i :: 0 <= i < |ids| ==> 0 <= ids[i] < ChunkCount(|content|)
    ensures Parts(r, |ids|) == Slices(content, ids) <==> AllWhole(r, content)
  {
    hide Begins, Part, Slice;
    var parts, whole := Parts(r, |ids|), Slices(content, ids);
    if parts == whole {
      forall i: nat | i < |ids| ensures Part(r, i) == Some(Slice(content, ids[i])) {
        assert parts[i] == whole[i];
      }
    }
  }

  // Every choice of replicas is possible

  /** What the process behind an address answers, if there is one. */
  ghost function Serve(s: System, f: string, a: Addr, c: int): Option<Bytes> {
    if exists id :: id in s.channels && id in s.nodes && id in s.ips && s.ips[id] == a then
      var id :| id in s.channels && id in s.nodes && id in s.ips && s.ips[id] == a;
      Lookup(s.nodes[id], f, c)
    else None
  }

  /** The read in which only the random numbers are left to choose. */
  ghost function ReadWith(s: System, f: string, random: nat -> real): Replies {
    Replies(true, Some(ChunksForFile(s.master.conns, f)),
            ids => Some(MultipleLocations(s.master.conns, f, ids)),
            random, (i, a, c) => Serve(s, f, a, c), i => true)
  }

  lemma ReadWithIsAnswered(s: System, f: string, random: nat -> real)
    requires Linked(s) && DistinctAddresses(s) && forall i :: 0.0 <= random(i) < 1.0
    ensures AnsweredAt(ReadWith(s, f, random), s, f)
  {
    forall id, c | id in s.channels && id in s.nodes && id in s.ips
      ensures Serve(s, f, s.ips[id], c) == Lookup(s.nodes[id], f, c)
    {
      var x :| x in s.channels && x in s.nodes && x in s.ips && s.ips[x] == s.ips[id]
        && Serve(s, f, s.ips[id], c) == Lookup(s.nodes[x], f, c);
      assert x == id;
    }
  }

  lemma RealFraction(a: real, b: real) returns (x: real)
    requires 0.0 <= a < b
    ensures 0.0 <= x < 1.0 && x * b == a
  {
    x := a / b;
  }

  /** Math.random() can select every replica. */
  lemma EveryReplicaCanBeChosen(replicas: seq<Addr>, j: nat) returns (x: real)
    requires j < |replicas|
    ensures 0.0 <= x < 1.0 && Choose(replicas, x) == replicas[j]
  {
    x := RealFraction(j as real, |replicas| as real);
  }

  lemma RandomOf(s: System, f: string, random: nat -> real)
    ensures ReadWith(s, f, random).random == random
  {
  }

  lemma SomeRead(s: System, f: string) returns (r: Replies)
    requires Readable(s)
    ensures AnsweredAt(r, s, f)
  {
    var random := (_: nat) => 0.0;
    r := ReadWith(s, f, random);
    ReadWithIsAnswered(s, f, random);
  }

  /** Whichever node indexes an id, some read fetches the id from that node. */
  lemma SomeReadAsks(s: System, f: string, id: Id, c: int) returns (r: Replies, i: nat)
    requires Readable(s) && Registered(s, id) && id in s.nodes && Indexed(s.nodes[id].index, f, c)
    ensures AnsweredAt(r, s, f) && Begins(r) && i < |r.list.value| && r.list.value[i] == c
    ensures Part(r, i) == Lookup(s.nodes[id], f, c)
  {
    hide Sound, QueuesOk, ChunksForFile, Locations, ReadWith, Part, Begins, Choose, Lookup;
    IndexedIsLocated(s, id, f, c);
    ListedIff(s, f, c);
    assert Listed(s, f, c);
    var locs := Locations(s.master.conns, f, c);
    var j :| 0 <= j < |locs| && locs[j] == s.ips[id];
    var x := EveryReplicaCanBeChosen(locs, j);
    var random := (_: nat) => x;
    r := ReadWith(s, f, random);
    ReadWithIsAnswered(s, f, random);
    assert r.random == random by { RandomOf(s, f, random); }
    BeginsIff(s, f, r);
    var ids := ListOf(r, s, f);
    i :| 0 <= i < |ids| && ids[i] == c;
    var a := ChosenReplica(r, s, f, i);
    FetchFrom(r, s, f, i, c, id);
  }

  // When every read succeeds

  ghost predicate AlwaysSucceeds(s: System, f: string) {
    forall r :: AnsweredAt(r, s, f) ==> Succeeds(r)
  }

  lemma PresentIsFetched(n: Node, f: string, c: int)
    requires Sound(n) && Indexed(n.index, f, c)
    ensures Lookup(n, f, c).Some? <==> OnDisk(n.tree, f, c)
  {
  }

  /**
   Every replica choice succeeds if and only if something is indexed and no registered node misses a chunk that
   it indexes; so a chunk misfiled under f makes some read of f fail exactly when f's own chunk is not there too.
   */
  lemma AlwaysSucceedsIff(s: System, f: string)
    requires Readable(s)
    ensures AlwaysSucceeds(s, f) <==> (exists c :: Listed(s, f, c)) && Present(s, f)
  {
    hide Linked, Sound, Settled, DistinctAddresses, Begins, Part, Listed, Lookup, Indexed;
    if Present(s, f) {
      forall r | AnsweredAt(r, s, f) ensures Succeeds(r) <==> exists c :: Listed(s, f, c) {
        SucceedsIff(s, f, r);
        if Begins(r) {
          forall i: nat | i < |r.list.value| ensures Part(r, i).Some? {
            var id := PartServed(s, f, r, i);
            PresentIsFetched(s.nodes[id], f, r.list.value[i]);
          }
        }
      }
      var r := SomeRead(s, f);
    } else {
      var id, c :| Registered(s, id) && id in s.nodes && Indexed(s.nodes[id].index, f, c)
        && !OnDisk(s.nodes[id].tree, f, c);
      var r, i := SomeReadAsks(s, f, id, c);
      PresentIsFetched(s.nodes[id], f, c);
      assert Part(r, i).None?;
    }
  }

  // When every read returns the file

  /** Every read answered by this state returns exactly the file, whichever replicas are chosen. */
  ghost predicate AlwaysReadsBack(s: System, f: string, content: Bytes) {
    forall r :: AnsweredAt(r, s, f) ==> Succeeds(r) && Concat(Parts(r, |r.list.value|)) == content
  }

  lemma WholeIsFetched(n: Node, f: string, c: int, content: Bytes)
    requires Indexed(n.index, f, c)
    ensures Whole(n, f, c, content) <==>
      0 <= c < ChunkCount(|content|) && Lookup(n, f, c) == Some(Slice(content, c))
  {
  }

  lemma HonestPartsAreWhole(s: System, f: string, content: Bytes, r: Replies)
    requires Readable(s) && Honest(s, f, content) && AnsweredAt(r, s, f) && Begins(r)
    ensures AllWhole(r, content) && Succeeds(r)
  {
    hide Readable, Begins, Part, Locations, Lookup, Listed;
    SucceedsIff(s, f, r);
    forall i: nat | i < |r.list.value|
      ensures 0 <= r.list.value[i] < ChunkCount(|content|) && Part(r, i) == Some(Slice(content, r.list.value[i]))
    {
      var id := PartServed(s, f, r, i);
      WholeIsFetched(s.nodes[id], f, r.list.value[i], content);
    }
  }

  /** In an honest settled cluster a read succeeds if something is listed and is whole if nothing is missing. */
  lemma HonestRead(s: System, f: string, content: Bytes, r: Replies)
    requires Readable(s) && CutFile(s, f, content) && Honest(s, f, content) && AnsweredAt(r, s, f)
    ensures Succeeds(r) <==> exists c :: Listed(s, f, c)
    ensures Succeeds(r) && Concat(Parts(r, |r.list.value|)) == content <==>
      content != [] && Complete(s, f, ChunkCount(|content|))
  {
    hide Readable, CutFile, Honest, Begins, Part, Parts, Listed, Locations, ChunksForFile;
    SucceedsIff(s, f, r);
    if Begins(r) {
      HonestPartsAreWhole(s, f, content, r);
      ReadIsWholeIff(s, f, content, r);
      var c :| Listed(s, f, c);
      ListedIsInRange(s, f, content, c);
    } else if content != [] {
      assert ChunkCount(|content|) >= 1 && !Listed(s, f, 0);
    }
  }

  lemma ListedIsInRange(s: System, f: string, content: Bytes, c: int)
    requires Honest(s, f, content) && Listed(s, f, c)
    ensures content != []
  {
    hide View, Indexed, ChunkPath, Slice;
    var id :| Registered(s, id) && id in s.nodes && Indexed(s.nodes[id].index, f, c);
    assert Whole(s.nodes[id], f, c, content);
  }

  /**
   The exact condition for readFile in a settled cluster that holds true slices, cut or not: every replica choice
   yields the file if and only if it is non-empty, every one of its ids is indexed at a registered node, and
   registered nodes have every chunk that they index in full.
   */
  lemma ReadsBackIff(s: System, f: string, content: Bytes)
    requires Readable(s) && CutFile(s, f, content)
    ensures AlwaysReadsBack(s, f, content) <==>
      content != [] && Complete(s, f, ChunkCount(|content|)) && Honest(s, f, content)
  {
    hide Readable, CutFile, Complete, Begins, Part, Parts, Locations, Listed, Indexed, Lookup;
    if Honest(s, f, content) {
      forall r | AnsweredAt(r, s, f)
        ensures Succeeds(r) && Concat(Parts(r, |r.list.value|)) == content <==>
          content != [] && Complete(s, f, ChunkCount(|content|))
      {
        HonestRead(s, f, content, r);
      }
      var r := SomeRead(s, f);
      assert AlwaysReadsBack(s, f, content) ==> Succeeds(r) && Concat(Parts(r, |r.list.value|)) == content;
    } else {
      var id, c :| Registered(s, id) && id in s.nodes && Indexed(s.nodes[id].index, f, c)
        && !Whole(s.nodes[id], f, c, content);
      DishonestReadFails(s, f, content, id, c);
    }
  }

  lemma DishonestReadFails(s: System, f: string, content: Bytes, id: Id, c: int)
    requires Readable(s) && CutFile(s, f, content) && Registered(s, id) && id in s.nodes
    requires Indexed(s.nodes[id].index, f, c) && !Whole(s.nodes[id], f, c, content)
    ensures !AlwaysReadsBack(s, f, content)
  {
    hide Readable, CutFile, Complete, Begins, Part, Parts, Locations, Indexed, Lookup, Whole;
    var r, i := SomeReadAsks(s, f, id, c);
    WholeIsFetched(s.nodes[id], f, c, content);
    assert !(0 <= c < ChunkCount(|content|) && Part(r, i) == Some(Slice(content, c)));
    assert !AllWhole(r, content);
    if Succeeds(r) {
      ReadIsWholeIff(s, f, content, r);
    }
  }

  // When some read returns the file, and when all come back short

  ghost predicate CanReadBack(s: System, f: string, content: Bytes) {
    exists r :: AnsweredAt(r, s, f) && Succeeds(r) && Concat(Parts(r, |r.list.value|)) == content
  }

  /** This random number leads to a node that has the chunk in full. */
  ghost predicate LeadsToWhole(s: System, f: string, c: int, content: Bytes, x: real) {
    && 0.0 <= x < 1.0 && Locations(s.master.conns, f, c) != []
    && exists id :: id in s.channels && id in s.nodes && id in s.ips && Whole(s.nodes[id], f, c, content)
         && s.ips[id] == Choose(Locations(s.master.conns, f, c), x)
  }

  /** Every id, listed or due, can be had in full. */
  ghost predicate AllObtainable(s: System, f: string, content: Bytes) {
    forall c :: Listed(s, f, c) || 0 <= c < ChunkCount(|content|) ==> Obtainable(s, f, c, content)
  }

  lemma ObtainableIsChosen(s: System, f: string, c: int, content: Bytes) returns (x: real)
    requires Readable(s) && Obtainable(s, f, c, content)
    ensures LeadsToWhole(s, f, c, content, x)
  {
    hide Sound, QueuesOk, Locations, Choose, Whole, Indexed;
    var id :| Registered(s, id) && id in s.nodes && Indexed(s.nodes[id].index, f, c)
      && Whole(s.nodes[id], f, c, content);
    IndexedIsLocated(s, id, f, c);
    var locs := Locations(s.master.conns, f, c);
    var j :| 0 <= j < |locs| && locs[j] == s.ips[id];
    x := EveryReplicaCanBeChosen(locs, j);
  }

  ghost function GoodRandom(s: System, f: string, c: int, content: Bytes): (x: real)
    ensures 0.0 <= x < 1.0
    ensures (exists y :: LeadsToWhole(s, f, c, content, y)) ==> LeadsToWhole(s, f, c, content, x)
  {
    if exists y :: LeadsToWhole(s, f, c, content, y) then
      var y :| LeadsToWhole(s, f, c, content, y);
      y
    else 0.0
  }

  lemma GoodPartIsWhole(s: System, f: string, content: Bytes, r: Replies, i: nat)
    requires Readable(s) && AnsweredAt(r, s, f) && Begins(r) && i < |r.list.value|
    requires LeadsToWhole(s, f, r.list.value[i], content, r.random(i))
    ensures 0 <= r.list.value[i] < ChunkCount(|content|) && Part(r, i) == Some(Slice(content, r.list.value[i]))
  {
    hide Sound, QueuesOk, Settled, Locations, Choose, Begins, Part, Indexed;
    var c := r.list.value[i];
    var id := PartServed(s, f, r, i);
    var x :| x in s.channels && x in s.nodes && x in s.ips && Whole(s.nodes[x], f, c, content)
      && s.ips[x] == Choose(Locations(s.master.conns, f, c), r.random(i));
    assert x == id;
    WholeIsFetched(s.nodes[id], f, c, content);
  }

  /**
   Some replica choice yields the file if and only if it is non-empty and every id, listed or due, can be had
   in full from some registered node that indexes it.
   */
  lemma CanReadBackIff(s: System, f: string, content: Bytes)
    requires Readable(s) && CutFile(s, f, content)
    ensures CanReadBack(s, f, content) <==>
      content != [] && AllObtainable(s, f, content)
  {
    hide Readable, CutFile, Begins, Part, Parts, Locations, Listed, Obtainable, LeadsToWhole;
    if CanReadBack(s, f, content) {
      var r :| AnsweredAt(r, s, f) && Succeeds(r) && Concat(Parts(r, |r.list.value|)) == content;
      ReadIsWholeIff(s, f, content, r);
      WholeReadShows(s, f, content, r);
    }
    if content != [] && AllObtainable(s, f, content) {
      var r := GoodRead(s, f, content);
    }
  }

  lemma WholePartShows(s: System, f: string, content: Bytes, r: Replies, c: int)
    requires Readable(s) && AnsweredAt(r, s, f) && Begins(r) && AllWhole(r, content) && c in r.list.value
    ensures Obtainable(s, f, c, content)
  {
    hide Readable, Begins, Part, Locations, Lookup, Indexed, ChunksForFile, Whole;
    var i: nat :| i < |r.list.value| && r.list.value[i] == c;
    var id := PartServed(s, f, r, i);
    WholeIsFetched(s.nodes[id], f, c, content);
  }

  lemma WholeReadShows(s: System, f: string, content: Bytes, r: Replies)
    requires Readable(s) && AnsweredAt(r, s, f) && Begins(r) && AllWhole(r, content)
    requires Complete(s, f, ChunkCount(|content|))
    ensures content != [] && AllObtainable(s, f, content)
  {
    hide Readable, Begins, Part, Locations, Lookup, Indexed, ChunksForFile, Listed, Obtainable;
    BeginsIff(s, f, r);
    var ids := ListOf(r, s, f);
    forall c | Listed(s, f, c) || 0 <= c < ChunkCount(|content|) ensures Obtainable(s, f, c, content) {
      ReadableListedIff(s, f, c);
      WholePartShows(s, f, content, r, c);
    }
    assert 0 <= ids[0] < ChunkCount(|content|);
  }

  lemma GoodRead(s: System, f: string, content: Bytes) returns (r: Replies)
    requires Readable(s) && CutFile(s, f, content) && content != []
    requires AllObtainable(s, f, content)
    ensures AnsweredAt(r, s, f) && Succeeds(r) && Concat(Parts(r, |r.list.value|)) == content
  {
    hide Settled, Linked, Sound, CutFile, Begins, Part, Parts, Locations, LeadsToWhole, ChunksForFile, ReadWith;
    var ids := ChunksForFile(s.master.conns, f);
    var random := (i: nat) => if i < |ids| then GoodRandom(s, f, ids[i], content) else 0.0;
    r := ReadWith(s, f, random);
    assert forall i :: 0.0 <= random(i) < 1.0;
    ReadWithIsAnswered(s, f, random);
    assert r.random == random by { RandomOf(s, f, random); }
    SucceedsIff(s, f, r);
    forall c | 0 <= c < ChunkCount(|content|) ensures Listed(s, f, c) {
      assert Obtainable(s, f, c, content);
    }
    assert ChunkCount(|content|) >= 1 && Listed(s, f, 0);
    forall i: nat | i < |r.list.value|
      ensures 0 <= ids[i] < ChunkCount(|content|) && Part(r, i) == Some(Slice(content, ids[i]))
    {
      ReadableListedIff(s, f, ids[i]);
      var x := ObtainableIsChosen(s, f, ids[i], content);
      GoodPartIsWhole(s, f, content, r, i);
    }
    ReadIsWholeIff(s, f, content, r);
  }

  /** Every read returns true with less than the file. */
  ghost predicate AlwaysCutShort(s: System, f: string, content: Bytes) {
    forall r :: AnsweredAt(r, s, f) ==> Succeeds(r) && |Concat(Parts(r, |r.list.value|))| < |content|
  }

  /**
   readFile returns true with the file cut short, whichever replicas are chosen, if and only if something is
   indexed, every indexed chunk is there, and some id cannot be had in full from any registered node.
   */
  lemma AlwaysCutShortIff(s: System, f: string, content: Bytes)
    requires Readable(s) && CutFile(s, f, content)
    ensures AlwaysCutShort(s, f, content) <==>
      && (exists c :: Listed(s, f, c)) && Present(s, f)
      && exists c :: 0 <= c < ChunkCount(|content|) && !Obtainable(s, f, c, content)
  {
    hide Readable, CutFile, Begins, Part, Parts, Locations, Listed, Obtainable;
    AlwaysSucceedsIff(s, f);
    CanReadBackIff(s, f, content);
    forall r | AnsweredAt(r, s, f) && Succeeds(r)
      ensures Concat(Parts(r, |r.list.value|)) != content ==> |Concat(Parts(r, |r.list.value|))| < |content|
    {
      ReadIsWholeIff(s, f, content, r);
    }
    if Present(s, f) {
      forall c | Listed(s, f, c) ensures 0 <= c < ChunkCount(|content|) {
        PresentIsInRange(s, f, content, c);
      }
    }
    assert content == [] ==> ChunkCount(|content|) == 0;
  }

  lemma PresentIsInRange(s: System, f: string, content: Bytes, c: int)
    requires CutFile(s, f, content) && Present(s, f) && Listed(s, f, c)
    ensures 0 <= c < ChunkCount(|content|)
  {
    var id :| Registered(s, id) && id in s.nodes && Indexed(s.nodes[id].index, f, c);
    assert OnDisk(s.nodes[id].tree, f, c);
  }
}
