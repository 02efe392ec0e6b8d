/** The master's view of the cluster as a value: registered connections, their reports, and the write cursor. */
module Registry {
  import opened Common
  import opened Storage

  type Id = string
  type Addr = string

  datatype Connection = Connection(id: Id, ip: Addr, files: seq<FileMapping>)

  datatype Master = Master(conns: seq<Connection>, cursor: int)

  const NEW_MASTER := Master([], -1)

  // Updates

  function Insert(m: Master, id: Id, ip: Addr): Master {
    Master(m.conns + [Connection(id, ip, [])], if m.cursor == -1 then 0 else m.cursor)
  }

  function Retain(conns: seq<Connection>, id: Id): seq<Connection> {
    if conns == [] then []
    else if conns[0].id != id then [conns[0]] + Retain(conns[1..], id)
    else Retain(conns[1..], id)
  }

  function Remove(m: Master, id: Id): Master {
    m.(conns := Retain(m.conns, id))
  }

  /** The first connection with the id, or the number of connections. */
  function Find(conns: seq<Connection>, id: Id): (i: nat)
    ensures i <= |conns|
    ensures i < |conns| ==> conns[i].id == id
  {
    if conns == [] || conns[0].id == id then 0 else 1 + Find(conns[1..], id)
  }

  lemma {:induction false} FindIsFirst(conns: seq<Connection>, id: Id)
    ensures forall j :: 0 <= j < Find(conns, id) ==> conns[j].id != id
  {
    if conns != [] && conns[0].id != id {
      FindIsFirst(conns[1..], id);
      forall j | 0 <= j < Find(conns, id) ensures conns[j].id != id {
        assert j > 0 ==> conns[j] == conns[1..][j - 1];
      }
    }
  }

  lemma FindUnique(conns: seq<Connection>, id: Id, i: nat)
    requires i <= |conns| && (i < |conns| ==> conns[i].id == id)
    requires forall j :: 0 <= j < i ==> conns[j].id != id
    ensures Find(conns, id) == i
  {
    FindIsFirst(conns, id);
  }

  function Update(m: Master, id: Id, files: seq<FileMapping>): Master {
    var i := Find(m.conns, id);
    if i == |m.conns| then m else m.(conns := m.conns[i := m.conns[i].(files := files)])
  }

  /** A join goes to the end of the registry, without files, and leaves everyone else and a set cursor alone. */
  lemma InsertIs(m: Master, id: Id, ip: Addr)
    ensures var u := Insert(m, id, ip);
      && m.conns <= u.conns && |u.conns| == |m.conns| + 1
      && u.conns[|m.conns|].id == id && u.conns[|m.conns|].ip == ip && u.conns[|m.conns|].files == []
      && (m.cursor >= 0 ==> u.cursor == m.cursor) && (m.cursor == -1 ==> u.cursor == 0)
  {
  }

  /** retain takes out the id and moves no one else past another. */
  lemma {:induction false} RetainDistributes(a: seq<Connection>, b: seq<Connection>, id: Id)
    ensures Retain(a + b, id) == Retain(a, id) + Retain(b, id)
  {
    if a == [] {
      assert a + b == b;
    } else {
      assert (a + b)[1..] == a[1..] + b;
      RetainDistributes(a[1..], b, id);
    }
  }

  /** A kept connection's new place is the number of kept ones before it. */
  lemma RetainIs(conns: seq<Connection>, id: Id, i: nat)
    requires i < |conns|
    ensures var r, place := Retain(conns, id), |Retain(conns[..i], id)|;
      if conns[i].id == id then r == Retain(conns[..i], id) + Retain(conns[i + 1..], id)
      else place < |r| && r[place] == conns[i]
  {
    var rest := conns[i..];
    assert conns == conns[..i] + rest && rest[1..] == conns[i + 1..];
    RetainDistributes(conns[..i], rest, id);
  }

  /** The connections stand in increasing order of some key of their ids. */
  ghost predicate Ordered(conns: seq<Connection>, key: Id -> int) {
    forall i, j :: 0 <= i < j < |conns| ==> key(conns[i].id) < key(conns[j].id)
  }

  lemma {:induction false} RetainKeepsOrder(conns: seq<Connection>, key: Id -> int, id: Id)
    requires Ordered(conns, key)
    ensures Ordered(Retain(conns, id), key)
    ensures forall x :: x in Retain(conns, id) ==> x in conns
  {
    if conns != [] {
      var rest, r := conns[1..], Retain(conns[1..], id);
      assert forall i :: 0 <= i < |rest| ==> rest[i] == conns[i + 1];
      RetainKeepsOrder(rest, key, id);
      forall x | x in r ensures key(conns[0].id) < key(x.id) {
        var j :| 0 <= j < |rest| && rest[j] == x;
      }
      FirstExtendsOrder(conns[0], r, key);
    }
  }

  lemma FirstExtendsOrder(x: Connection, conns: seq<Connection>, key: Id -> int)
    requires Ordered(conns, key) && forall y :: y in conns ==> key(x.id) < key(y.id)
    ensures Ordered([x] + conns, key)
  {
  }

  /** A report replaces the files of the first connection with the id; all else stays. */
  lemma UpdateIs(m: Master, id: Id, files: seq<FileMapping>, k: nat)
    requires k <= |m.conns| && forall j :: 0 <= j < k ==> m.conns[j].id != id
    requires k < |m.conns| ==> m.conns[k].id == id
    ensures var u := Update(m, id, files);
      && u.cursor == m.cursor && |u.conns| == |m.conns|
      && (forall j :: 0 <= j < |m.conns| && j != k ==> u.conns[j] == m.conns[j])
      && (k < |m.conns| ==> u.conns[k] == Connection(id, m.conns[k].ip, files))
  {
    FindUnique(m.conns, id, k);
  }

  function NextPosition(cursor: int, n: nat): int
    requires n > 0
  {
    if cursor < 0 then 0 else (cursor + 1) % n
  }

  /** increment_index_and_return_addr. */
  function Increment(m: Master): (Master, Option<Addr>) {
    if m.conns == [] then (m, None)
    else
      var p := NextPosition(m.cursor, |m.conns|);
      (m.(cursor := p), Some(m.conns[p].ip))
  }

  /** The next position is the one after the cursor, reduced by whole rounds; a cursor never set yields the first. */
  lemma NextPositionIs(cursor: int, n: nat) returns (q: int)
    requires n > 0
    ensures 0 <= NextPosition(cursor, n) < n
    ensures if cursor < 0 then NextPosition(cursor, n) == 0 else cursor + 1 == q * n + NextPosition(cursor, n)
  {
    q := (cursor + 1) / n;
  }

  /** One write step, wherever the cursor is, past the end of the registry too: who is served and what changes. */
  lemma IncrementIs(m: Master) returns (q: int)
    ensures var (u, served) := Increment(m);
      && u.conns == m.conns
      && (m.conns == [] ==> u == m && served == None)
      && (m.conns != [] ==>
            && 0 <= u.cursor < |m.conns| && served == Some(m.conns[u.cursor].ip)
            && if m.cursor < 0 then u.cursor == 0 else m.cursor + 1 == q * |m.conns| + u.cursor)
  {
    q := 0;
    if m.conns != [] {
      q := NextPositionIs(m.cursor, |m.conns|);
    }
  }

  /** What a frame from a storage node holds once decoded. */
  datatype Message = Join | Health(files: seq<FileMapping>) | NoMessageType | Undecodable

  /** The match on one received message. */
  function Receive(m: Master, id: Id, ip: Addr, msg: Message): Master {
    match msg
    case Join => Insert(m, id, ip)
    case Health(files) => Update(m, id, files)
    case NoMessageType => m
    case Undecodable => m
  }

  /** Only joins and reports count: any other frame leaves the master as it is. */
  lemma OtherFramesAreIgnored(m: Master, id: Id, ip: Addr, msg: Message)
    ensures !msg.Join? && !msg.Health? ==> Receive(m, id, ip, msg) == m
    ensures Receive(m, id, ip, msg).cursor == m.cursor || (msg.Join? && m.cursor == -1)
  {
  }

  // Queries

  /** get_location. */
  function Locations(conns: seq<Connection>, f: string, c: int): seq<Addr> {
    if conns == [] then []
    else
      var found := Locations(conns[..|conns| - 1], f, c);
      var last := conns[|conns| - 1];
      if Indexed(last.files, f, c) && last.ip !in found then found + [last.ip] else found
  }

  /** get_multiple_chunks. */
  function MultipleLocations(conns: seq<Connection>, f: string, ids: seq<int>): seq<seq<Addr>> {
    seq(|ids|, i requires 0 <= i < |ids| => Locations(conns, f, ids[i]))
  }

  /** The chunk ids of the first mapping with the name: the scan stops there. */
  function FirstChunks(files: seq<FileMapping>, f: string): seq<int> {
    if files == [] then []
    else if files[0].filename == f then files[0].chunkIds
    else FirstChunks(files[1..], f)
  }

  function PushNew(res: seq<int>, ids: seq<int>): seq<int> {
    if ids == [] then res
    else
      var pushed := PushNew(res, ids[..|ids| - 1]);
      var last := ids[|ids| - 1];
      if last in pushed then pushed else pushed + [last]
  }

  function Collect(conns: seq<Connection>, f: string): seq<int> {
    if conns == [] then []
    else PushNew(Collect(conns[..|conns| - 1], f), FirstChunks(conns[|conns| - 1].files, f))
  }

  function InsertSorted(s: seq<int>, x: int): seq<int> {
    if s == [] || s[|s| - 1] <= x then s + [x]
    else InsertSorted(s[..|s| - 1], x) + [s[|s| - 1]]
  }

  /** Vec::sort. */
  function Sorted(s: seq<int>): seq<int> {
    if s == [] then [] else InsertSorted(Sorted(s[..|s| - 1]), s[|s| - 1])
  }

  /** get_chunks_for_file. */
  function ChunksForFile(conns: seq<Connection>, f: string): seq<int> {
    Sorted(Collect(conns, f))
  }

  // What get_location means

  predicate Holds(conn: Connection, f: string, c: int, a: Addr) {
    conn.ip == a && Indexed(conn.files, f, c)
  }

  /** The first connection that reports the chunk from this address, or the number of connections. */
  function FirstHolder(conns: seq<Connection>, f: string, c: int, a: Addr): (i: nat)
    ensures i <= |conns|
  {
    if conns == [] || Holds(conns[0], f, c, a) then 0 else 1 + FirstHolder(conns[1..], f, c, a)
  }

  lemma {:induction false} FirstHolderIs(conns: seq<Connection>, f: string, c: int, a: Addr)
    ensures var i := FirstHolder(conns, f, c, a);
      && (i < |conns| ==> Holds(conns[i], f, c, a))
      && (forall j :: 0 <= j < i ==> !Holds(conns[j], f, c, a))
  {
    hide Holds;
    if conns != [] && !Holds(conns[0], f, c, a) {
      FirstHolderIs(conns[1..], f, c, a);
      forall j | 0 <= j < FirstHolder(conns, f, c, a) ensures !Holds(conns[j], f, c, a) {
        assert j > 0 ==> conns[j] == conns[1..][j - 1];
      }
    }
  }

  lemma {:induction false} FirstHolderOfPrefix(conns: seq<Connection>, f: string, c: int, a: Addr)
    requires conns != []
    ensures var k := |conns| - 1;
      var before, now := FirstHolder(conns[..k], f, c, a), FirstHolder(conns, f, c, a);
      if before < k then now == before
      else now == if Holds(conns[k], f, c, a) then k else k + 1
  {
    hide Holds;
    var k := |conns| - 1;
    if k > 0 && !Holds(conns[0], f, c, a) {
      FirstHolderOfPrefix(conns[1..], f, c, a);
      assert conns[1..][..k - 1] == conns[..k][1..];
    }
  }

  /** Exactly the addresses that report the chunk, each once, in the order of their first holder. */
  ghost predicate InHolderOrder(r: seq<Addr>, conns: seq<Connection>, f: string, c: int) {
    && NoDuplicates(r)
    && (forall a :: a in r <==> FirstHolder(conns, f, c, a) < |conns|)
    && (forall i, j :: 0 <= i < j < |r| ==> FirstHolder(conns, f, c, r[i]) < FirstHolder(conns, f, c, r[j]))
  }

  lemma SameHolders(r: seq<Addr>, conns: seq<Connection>, f: string, c: int)
    requires conns != [] && InHolderOrder(r, conns[..|conns| - 1], f, c)
    requires forall a :: a !in r ==> !Holds(conns[|conns| - 1], f, c, a)
    ensures InHolderOrder(r, conns, f, c)
  {
    hide Holds, FirstHolder;
    forall a ensures a in r <==> FirstHolder(conns, f, c, a) < |conns| {
      FirstHolderOfPrefix(conns, f, c, a);
    }
    forall i | 0 <= i < |r| ensures FirstHolder(conns, f, c, r[i]) == FirstHolder(conns[..|conns| - 1], f, c, r[i]) {
      FirstHolderOfPrefix(conns, f, c, r[i]);
    }
  }

  lemma NewHolder(r: seq<Addr>, conns: seq<Connection>, f: string, c: int, b: Addr)
    requires conns != [] && InHolderOrder(r, conns[..|conns| - 1], f, c)
    requires b !in r && b == conns[|conns| - 1].ip && Holds(conns[|conns| - 1], f, c, b)
    ensures InHolderOrder(r + [b], conns, f, c)
  {
    hide Indexed, FirstHolder;
    var k := |conns| - 1;
    var more := r + [b];
    forall a ensures a in more <==> FirstHolder(conns, f, c, a) < |conns| {
      FirstHolderOfPrefix(conns, f, c, a);
    }
    forall i | 0 <= i < |r| ensures FirstHolder(conns, f, c, more[i]) == FirstHolder(conns[..k], f, c, r[i]) < k {
      FirstHolderOfPrefix(conns, f, c, r[i]);
      assert r[i] in r;
    }
    assert FirstHolder(conns, f, c, b) == k by {
      FirstHolderOfPrefix(conns, f, c, b);
    }
  }

  /** get_location returns exactly the addresses that report the chunk, each once, by first holder. */
  lemma {:induction false} LocationsMeaning(conns: seq<Connection>, f: string, c: int)
    ensures InHolderOrder(Locations(conns, f, c), conns, f, c)
  {
    if conns != [] {
      hide InHolderOrder, Indexed;
      var last := conns[|conns| - 1];
      LocationsMeaning(conns[..|conns| - 1], f, c);
      var r := Locations(conns[..|conns| - 1], f, c);
      if Indexed(last.files, f, c) && last.ip !in r {
        NewHolder(r, conns, f, c, last.ip);
      } else {
        SameHolders(r, conns, f, c);
      }
    }
  }

  /** An address is returned exactly when some connection with it reports the chunk. */
  lemma {:induction false} LocatedIff(conns: seq<Connection>, f: string, c: int, a: Addr)
    ensures a in Locations(conns, f, c) <==>
      exists k :: 0 <= k < |conns| && conns[k].ip == a && Indexed(conns[k].files, f, c)
  {
    hide Indexed, FirstHolder, Locations;
    LocationsMeaning(conns, f, c);
    FirstHolderIs(conns, f, c, a);
    if k :| 0 <= k < |conns| && conns[k].ip == a && Indexed(conns[k].files, f, c) {
      assert Holds(conns[k], f, c, a);
    }
  }

  // What get_chunks_for_file means

  lemma {:induction false} PushNewEffect(res: seq<int>, ids: seq<int>)
    requires NoDuplicates(res)
    ensures NoDuplicates(PushNew(res, ids))
    ensures forall x :: x in PushNew(res, ids) <==> x in res || x in ids
  {
    if ids != [] {
      PushNewEffect(res, ids[..|ids| - 1]);
      assert ids == ids[..|ids| - 1] + [ids[|ids| - 1]];
    }
  }

  lemma {:induction false} CollectEffect(conns: seq<Connection>, f: string)
    ensures NoDuplicates(Collect(conns, f))
    ensures forall x :: x in Collect(conns, f) <==>
      exists k :: 0 <= k < |conns| && x in FirstChunks(conns[k].files, f)
  {
    if conns != [] {
      var n := |conns| - 1;
      var init := conns[..n];
      CollectEffect(init, f);
      PushNewEffect(Collect(init, f), FirstChunks(conns[n].files, f));
      forall x ensures x in Collect(conns, f) <==>
        exists k :: 0 <= k < |conns| && x in FirstChunks(conns[k].files, f)
      {
        if x in Collect(init, f) {
          var k :| 0 <= k < |init| && x in FirstChunks(init[k].files, f);
          assert x in FirstChunks(conns[k].files, f);
        }
        if k :| 0 <= k < |conns| && x in FirstChunks(conns[k].files, f) {
          assert k < n ==> x in FirstChunks(init[k].files, f);
        }
      }
    }
  }

  lemma {:induction false} InsertSortedEffect(s: seq<int>, x: int)
    requires StrictlyIncreasing(s) && x !in s
    ensures StrictlyIncreasing(InsertSorted(s, x))
    ensures Elements(InsertSorted(s, x)) == Elements(s) + {x}
  {
    if s != [] {
      var init, last := s[..|s| - 1], s[|s| - 1];
      assert s == init + [last];
      if last > x {
        InsertSortedEffect(init, x);
        var r := InsertSorted(init, x);
        forall i | 0 <= i < |r| ensures r[i] < last {
          assert r[i] in Elements(r);
        }
      }
    }
  }

  lemma {:induction false} SortedEffect(s: seq<int>)
    requires NoDuplicates(s)
    ensures StrictlyIncreasing(Sorted(s))
    ensures Elements(Sorted(s)) == Elements(s)
  {
    if s != [] {
      var init, last := s[..|s| - 1], s[|s| - 1];
      assert s == init + [last];
      SortedEffect(init);
      assert last !in Elements(init);
      InsertSortedEffect(Sorted(init), last);
    }
  }

  /** Strictly increasing, and exactly the ids of each connection's first mapping with the name. */
  lemma ChunksForFileMeaning(conns: seq<Connection>, f: string)
    ensures StrictlyIncreasing(ChunksForFile(conns, f))
    ensures forall x :: x in ChunksForFile(conns, f) <==>
      exists k :: 0 <= k < |conns| && x in FirstChunks(conns[k].files, f)
  {
    CollectEffect(conns, f);
    SortedEffect(Collect(conns, f));
    assert forall x :: x in ChunksForFile(conns, f) <==> x in Elements(Collect(conns, f));
  }

  lemma IndexedByHead(files: seq<FileMapping>, f: string, c: int)
    requires files != []
    ensures Indexed(files, f, c) <==> (files[0].filename == f && c in files[0].chunkIds) || Indexed(files[1..], f, c)
  {
    assert forall e :: e in files <==> e == files[0] || e in files[1..];
  }

  lemma UniqueTail(files: seq<FileMapping>, c: int)
    requires files != [] && UniqueNames(files)
    ensures UniqueNames(files[1..]) && !Indexed(files[1..], files[0].filename, c)
  {
    var rest := files[1..];
    assert forall i :: 0 <= i < |rest| ==> rest[i] == files[i + 1];
    forall e | e in rest ensures e.filename != files[0].filename {
      var i :| 0 <= i < |rest| && rest[i] == e;
    }
  }

  lemma {:induction false} FirstChunksIndexed(files: seq<FileMapping>, f: string, c: int)
    ensures c in FirstChunks(files, f) ==> Indexed(files, f, c)
    ensures UniqueNames(files) ==> (c in FirstChunks(files, f) <==> Indexed(files, f, c))
  {
    if files != [] {
      FirstChunksIndexed(files[1..], f, c);
      IndexedByHead(files, f, c);
      if UniqueNames(files) {
        UniqueTail(files, c);
      }
    }
  }

  lemma ListedIsLocated(conns: seq<Connection>, f: string, c: int)
    ensures c in ChunksForFile(conns, f) ==> Locations(conns, f, c) != []
  {
    ChunksForFileMeaning(conns, f);
    if c in ChunksForFile(conns, f) {
      var k :| 0 <= k < |conns| && c in FirstChunks(conns[k].files, f);
      FirstChunksIndexed(conns[k].files, f, c);
      LocatedIff(conns, f, c, conns[k].ip);
    }
  }

  /** On one master state readFile's guard passes: every listed chunk has an address. */
  lemma ListedChunksAreLocated(conns: seq<Connection>, f: string)
    ensures var ids := ChunksForFile(conns, f);
      var locs := MultipleLocations(conns, f, ids);
      |locs| == |ids| && forall i :: 0 <= i < |ids| ==> locs[i] != []
  {
    var ids := ChunksForFile(conns, f);
    forall i | 0 <= i < |ids| ensures Locations(conns, f, ids[i]) != [] {
      ListedIsLocated(conns, f, ids[i]);
    }
  }

  /** With unique names in every report the list misses nothing that get_location can find. */
  lemma ListedIffLocated(conns: seq<Connection>, f: string, c: int)
    requires forall k :: 0 <= k < |conns| ==> UniqueNames(conns[k].files)
    ensures c in ChunksForFile(conns, f) <==> Locations(conns, f, c) != []
  {
    ChunksForFileMeaning(conns, f);
    forall k | 0 <= k < |conns| ensures c in FirstChunks(conns[k].files, f) <==> Indexed(conns[k].files, f, c) {
      FirstChunksIndexed(conns[k].files, f, c);
    }
    if c in ChunksForFile(conns, f) {
      var k :| 0 <= k < |conns| && c in FirstChunks(conns[k].files, f);
      LocatedIff(conns, f, c, conns[k].ip);
    }
    if Locations(conns, f, c) != [] {
      LocatedIff(conns, f, c, Locations(conns, f, c)[0]);
    }
  }

  ghost predicate Reported(conns: seq<Connection>, f: string, c: int) {
    exists k :: 0 <= k < |conns| && Indexed(conns[k].files, f, c)
  }

  ghost predicate ReportedFirst(conns: seq<Connection>, f: string, c: int) {
    exists k :: 0 <= k < |conns| && c in FirstChunks(conns[k].files, f)
  }

  /**
   The exact condition under which the list misses nothing that get_location can find: every id reported
   for the file is in some connection's first mapping for it.
   */
  lemma ListsEverythingIff(conns: seq<Connection>, f: string)
    ensures (forall c :: c in ChunksForFile(conns, f) <==> Locations(conns, f, c) != []) <==>
      forall c :: Reported(conns, f, c) ==> ReportedFirst(conns, f, c)
  {
    ChunksForFileMeaning(conns, f);
    forall c
      ensures Locations(conns, f, c) != [] <==> Reported(conns, f, c)
      ensures c in ChunksForFile(conns, f) <==> ReportedFirst(conns, f, c)
      ensures c in ChunksForFile(conns, f) ==> Locations(conns, f, c) != []
    {
      LocatedSomewhere(conns, f, c);
      ListedIsLocated(conns, f, c);
    }
  }

  lemma LocatedSomewhere(conns: seq<Connection>, f: string, c: int)
    ensures Locations(conns, f, c) != [] <==> Reported(conns, f, c)
  {
    if Locations(conns, f, c) != [] {
      LocatedIff(conns, f, c, Locations(conns, f, c)[0]);
    }
    if k :| 0 <= k < |conns| && Indexed(conns[k].files, f, c) {
      LocatedIff(conns, f, c, conns[k].ip);
    }
  }

  /** Where a report names a file twice the two queries really differ: the list stops at the first mapping. */
  lemma DuplicateNameHidesChunk(id: Id, a: Addr, f: string, first: seq<int>, second: seq<int>, c: int)
    requires c in second && c !in first
    ensures var conns := [Connection(id, a, [FileMapping(f, first), FileMapping(f, second)])];
      Locations(conns, f, c) == [a] && c !in ChunksForFile(conns, f)
  {
    var files := [FileMapping(f, first), FileMapping(f, second)];
    var conns := [Connection(id, a, files)];
    assert files[1] in files;
    assert Indexed(files, f, c);
    assert conns[..0] == [] && Locations(conns[..0], f, c) == [];
    ChunksForFileMeaning(conns, f);
    assert FirstChunks(conns[0].files, f) == first;
  }
}
