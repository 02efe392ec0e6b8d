/**
 One storage node as a value: the in-memory index and the tree below data/.
 File names are single path components, so every chunk lives at <file>/<chunk id>.
 */
module Storage {
  import opened Common
  import opened Text
  import opened FileTree

  datatype Node = Node(index: seq<FileMapping>, tree: Tree)

  const EMPTY_NODE := Node([], map[])

  /** What fopen and fwrite do to a chunk that is not there yet. */
  datatype Write = OpenFails | Wrote(count: nat)

  function ChunkPath(f: string, c: int): (p: Path)
    ensures |p| == 2 && p[0] == f && Atoi(p[1]) == c
  {
    AtoiInvertsDecimal(c);
    [f, Decimal(c)]
  }

  // Queries

  predicate OnDisk(t: Tree, f: string, c: int) {
    ChunkPath(f, c) in t
  }

  /** directoryHasFiles: some regular file directly inside the directory. */
  predicate HasFiles(t: Tree, f: string) {
    exists p :: p in t && |p| == 2 && p[0] == f && t[p].Regular?
  }

  predicate Named(index: seq<FileMapping>, f: string) {
    exists e :: e in index && e.filename == f
  }

  predicate Indexed(index: seq<FileMapping>, f: string, c: int) {
    exists e :: e in index && e.filename == f && c in e.chunkIds
  }

  /** getFileDescriptor followed by reading the descriptor: the index must list the chunk. */
  function Lookup(n: Node, f: string, c: int): Option<Bytes> {
    var p := ChunkPath(f, c);
    if Indexed(n.index, f, c) && p in n.tree && n.tree[p].Regular? then Some(n.tree[p].data) else None
  }

  // Updates

  /** insert_to_struct: a new entry only when the directory had no file, then push onto the last entry. */
  function Insert(index: seq<FileMapping>, f: string, c: int, dirHasFiles: bool): seq<FileMapping>
    requires dirHasFiles ==> index != []
  {
    var base := if dirHasFiles then index else index + [FileMapping(f, [])];
    var k := |base| - 1;
    base[k := FileMapping(base[k].filename, base[k].chunkIds + [c])]
  }

  /** remove_from_struct: drop the first entry with the name, shifting the rest down. */
  function RemoveEntry(index: seq<FileMapping>, f: string): seq<FileMapping> {
    if index == [] then []
    else if index[0].filename == f then index[1..]
    else [index[0]] + RemoveEntry(index[1..], f)
  }

  function WithDirectory(t: Tree, f: string): Tree {
    if [f] in t then t else t[[f] := Directory]
  }

  function WithChunk(t: Tree, f: string, c: int, data: Bytes): Tree {
    WithDirectory(t, f)[ChunkPath(f, c) := Regular(data)]
  }

  /** true, false, or no defined behaviour: the append branch of insert_to_struct used entry -1. */
  datatype Outcome = Stored | Refused | Undefined

  /** saveChunkToFile: the new node and how the call ends. */
  function Save(n: Node, f: string, c: int, data: Bytes, w: Write): (Node, Outcome) {
    if data == [] then (n, Refused)
    else if OnDisk(n.tree, f, c) then (n, Stored)
    else match w
      case OpenFails => (n.(tree := WithDirectory(n.tree, f)), Refused)
      case Wrote(k) =>
        if k < |data| then (n.(tree := WithChunk(n.tree, f, c, data[..k])), Refused)
        else if HasFiles(n.tree, f) && n.index == [] then (n.(tree := WithChunk(n.tree, f, c, data)), Undefined)
        else (Node(Insert(n.index, f, c, HasFiles(n.tree, f)), WithChunk(n.tree, f, c, data)), Stored)
  }

  /** delete_file: the index is touched only after the directory is gone. */
  function Delete(n: Node, f: string): (Node, bool) {
    if !IsDir(n.tree, [f]) then (n, false)
    else (Node(RemoveEntry(n.index, f), Without(n.tree, [f])), true)
  }

  // Invariants

  ghost predicate Flat(t: Tree) {
    forall p :: p in t ==>
      || (|p| == 1 && t[p].Directory?)
      || (|p| == 2 && t[p].Regular? && [p[0]] in t && p == ChunkPath(p[0], Atoi(p[1])))
  }

  ghost predicate UniqueNames(index: seq<FileMapping>) {
    forall i, j :: 0 <= i < j < |index| ==> index[i].filename != index[j].filename
  }

  /** What every run keeps, also through short writes: an entry's file has chunks on disk. */
  ghost predicate Sound(n: Node) {
    && Flat(n.tree)
    && UniqueNames(n.index)
    && (forall e :: e in n.index ==> e.chunkIds != [])
    && (forall f :: Named(n.index, f) ==> HasFiles(n.tree, f))
  }

  /** Without a half-written first chunk also the converse: the index names exactly the non-empty directories. */
  ghost predicate Consistent(n: Node) {
    Sound(n) && forall f :: HasFiles(n.tree, f) ==> Named(n.index, f)
  }

  /** The index lists exactly the chunks on disk. */
  ghost predicate Agrees(n: Node) {
    forall f, c :: Indexed(n.index, f, c) <==> OnDisk(n.tree, f, c)
  }

  ghost predicate DistinctChunks(index: seq<FileMapping>) {
    forall e :: e in index ==> NoDuplicates(e.chunkIds)
  }

  /** A save that writes a chunk must find an empty directory or its own file in the last entry. */
  predicate Disciplined(n: Node, f: string, c: int, data: Bytes, w: Write) {
    || data == [] || OnDisk(n.tree, f, c) || w.OpenFails?
    || (w.count >= |data| && (!HasFiles(n.tree, f) || (n.index != [] && n.index[|n.index| - 1].filename == f)))
  }

  predicate Partial(data: Bytes, w: Write) {
    w.Wrote? && w.count < |data|
  }

  // One save

  lemma FlatIsWellFormed(t: Tree)
    requires Flat(t)
    ensures WellFormed(t)
  {
    forall p | p in t ensures p != [] && IsDir(t, p[..|p| - 1]) {
      if |p| == 2 {
        assert p[..1] == [p[0]];
      }
    }
  }

  lemma HasFilesMeansOnDisk(t: Tree, f: string)
    requires Flat(t)
    ensures HasFiles(t, f) <==> exists c :: OnDisk(t, f, c)
  {
    if HasFiles(t, f) {
      var p :| p in t && |p| == 2 && p[0] == f && t[p].Regular?;
      assert OnDisk(t, f, Atoi(p[1]));
    }
    if c :| OnDisk(t, f, c) {
      assert t[ChunkPath(f, c)].Regular?;
    }
  }

  lemma SoundParts(n: Node)
    requires Sound(n)
    ensures Flat(n.tree) && UniqueNames(n.index)
    ensures forall f :: !HasFiles(n.tree, f) ==> !Named(n.index, f)
  {
  }

  lemma ConsistentIsDefined(n: Node, f: string, c: int, data: Bytes, w: Write)
    requires Consistent(n)
    ensures Save(n, f, c, data, w).1 != Undefined
  {
    if HasFiles(n.tree, f) {
      assert Named(n.index, f);
    }
  }

  lemma WriteTree(t: Tree, f: string, c: int, data: Bytes)
    requires Flat(t)
    ensures var u := WithChunk(t, f, c, data);
      && Flat(u)
      && (forall g, d :: OnDisk(u, g, d) <==> OnDisk(t, g, d) || (g == f && d == c))
      && (forall g :: HasFiles(u, g) <==> HasFiles(t, g) || g == f)
  {
    var u := WithChunk(t, f, c, data);
    forall g ensures HasFiles(u, g) <==> HasFiles(t, g) || g == f {
      if g == f {
        assert ChunkPath(f, c) in u;
      } else if HasFiles(t, g) {
        var p :| p in t && |p| == 2 && p[0] == g && t[p].Regular?;
        assert p in u;
      }
    }
  }

  lemma OpenFailsTree(t: Tree, f: string)
    requires Flat(t)
    ensures Flat(WithDirectory(t, f))
    ensures forall g, d :: OnDisk(WithDirectory(t, f), g, d) <==> OnDisk(t, g, d)
    ensures forall g :: HasFiles(WithDirectory(t, f), g) <==> HasFiles(t, g)
  {
    var u := WithDirectory(t, f);
    forall g ensures HasFiles(u, g) <==> HasFiles(t, g) {
      if HasFiles(t, g) {
        var p :| p in t && |p| == 2 && p[0] == g && t[p].Regular?;
        assert p in u;
      }
    }
  }

  /** The entry that insert_to_struct ends up pushing onto. */
  function Receiver(index: seq<FileMapping>, f: string, dirHasFiles: bool): string
    requires dirHasFiles ==> index != []
  {
    if dirHasFiles then index[|index| - 1].filename else f
  }

  lemma InsertEffect(index: seq<FileMapping>, f: string, c: int, had: bool)
    requires had ==> index != []
    ensures var r, to := Insert(index, f, c, had), Receiver(index, f, had);
      && (forall g, d :: Indexed(r, g, d) <==> Indexed(index, g, d) || (g == to && d == c))
      && (forall g :: Named(r, g) <==> Named(index, g) || g == to)
      && r[|r| - 1].filename == to
  {
    var r, to := Insert(index, f, c, had), Receiver(index, f, had);
    var base := if had then index else index + [FileMapping(f, [])];
    var k := |base| - 1;
    forall e ensures e in base <==> e in index || (!had && e == FileMapping(f, [])) {}
    assert base == base[..k] + [base[k]];
    assert r == base[..k] + [r[k]];
    assert forall e :: e in base <==> e in base[..k] || e == base[k];
    assert forall e :: e in r <==> e in base[..k] || e == r[k];
    forall g, d ensures Indexed(r, g, d) <==> Indexed(index, g, d) || (g == to && d == c) {
      if Indexed(index, g, d) {
        var e :| e in index && e.filename == g && d in e.chunkIds;
        assert e in base;
        assert e in r || (e == base[k] && d in r[k].chunkIds);
      }
      if g == to && d == c {
        assert r[k] in r && c in r[k].chunkIds;
      }
      if Indexed(r, g, d) {
        var e :| e in r && e.filename == g && d in e.chunkIds;
        if e == r[k] && d != c {
          assert d in base[k].chunkIds && base[k] in index;
        } else if e != r[k] {
          assert e in index;
        }
      }
    }
    forall g ensures Named(r, g) <==> Named(index, g) || g == to {
      if Named(index, g) {
        var e :| e in index && e.filename == g;
        assert e in base;
        assert e in r || (e == base[k] && r[k].filename == g);
      }
      if g == to {
        assert r[k] in r;
      }
      if Named(r, g) && g != to {
        var e :| e in r && e.filename == g;
        assert e in index;
      }
    }
  }

  /** Insertion keeps names unique and entries non-empty. */
  lemma InsertKeepsEntries(index: seq<FileMapping>, f: string, c: int, had: bool)
    requires UniqueNames(index) && forall e :: e in index ==> e.chunkIds != []
    requires if had then index != [] else !Named(index, f)
    ensures UniqueNames(Insert(index, f, c, had)) && forall e :: e in Insert(index, f, c, had) ==> e.chunkIds != []
  {
    var r := Insert(index, f, c, had);
    if !had {
      NotNamed(index, f);
    }
    hide Named;
    forall i | 0 <= i < |r| ensures r[i].chunkIds != [] {
      assert i < |r| - 1 ==> r[i] == index[i] && index[i] in index;
    }
  }

  /** Every defined save keeps the node sound, however its write went. */
  lemma SaveKeepsSound(n: Node, f: string, c: int, data: Bytes, w: Write)
    requires Sound(n) && Save(n, f, c, data, w).1 != Undefined
    ensures Sound(Save(n, f, c, data, w).0)
  {
    SoundParts(n);
    if data != [] && !OnDisk(n.tree, f, c) {
      match w
      case OpenFails => OpenFailsTree(n.tree, f);
      case Wrote(k) =>
        if k < |data| {
          WriteTree(n.tree, f, c, data[..k]);
        } else {
          WriteTree(n.tree, f, c, data);
          InsertionIsSound(n, Save(n, f, c, data, w).0, f, c);
        }
    }
  }

  lemma InsertionIsSound(n: Node, m: Node, f: string, c: int)
    requires Sound(n) && Flat(m.tree)
    requires forall g :: HasFiles(m.tree, g) <==> HasFiles(n.tree, g) || g == f
    requires HasFiles(n.tree, f) ==> n.index != []
    requires m.index == Insert(n.index, f, c, HasFiles(n.tree, f))
    ensures Sound(m)
  {
    hide Flat, HasFiles, Named, Insert, UniqueNames;
    var had := HasFiles(n.tree, f);
    InsertEffect(n.index, f, c, had);
    InsertKeepsEntries(n.index, f, c, had);
    if had {
      LastIsNamed(n.index);
    }
  }

  /** A short write of the first chunk of a file is the only thing that breaks consistency. */
  predicate LeavesOrphan(n: Node, f: string, c: int, data: Bytes, w: Write) {
    Partial(data, w) && !HasFiles(n.tree, f)
  }

  lemma SaveKeepsConsistentIff(n: Node, f: string, c: int, data: Bytes, w: Write)
    requires Consistent(n)
    ensures Consistent(Save(n, f, c, data, w).0) <==> !LeavesOrphan(n, f, c, data, w)
  {
    ConsistentIsDefined(n, f, c, data, w);
    SaveKeepsSound(n, f, c, data, w);
    SoundParts(n);
    hide Sound, Flat;
    var m := Save(n, f, c, data, w).0;
    assert OnDisk(n.tree, f, c) ==> HasFiles(n.tree, f) by {
      HasFilesMeansOnDisk(n.tree, f);
    }
    if data != [] && !OnDisk(n.tree, f, c) {
      match w
      case OpenFails => OpenFailsTree(n.tree, f);
      case Wrote(k) =>
        if k < |data| {
          WriteTree(n.tree, f, c, data[..k]);
          assert HasFiles(m.tree, f);
        } else {
          WriteTree(n.tree, f, c, data);
          InsertEffect(n.index, f, c, HasFiles(n.tree, f));
        }
    }
  }

  lemma NamesAreUnique(n: Node)
    requires Sound(n)
    ensures UniqueNames(n.index)
  {
  }

  lemma LastIsNamed(index: seq<FileMapping>)
    requires index != []
    ensures Named(index, index[|index| - 1].filename)
  {
    assert index[|index| - 1] in index;
  }

  lemma NotNamed(index: seq<FileMapping>, f: string)
    requires !Named(index, f)
    ensures forall i :: 0 <= i < |index| ==> index[i].filename != f
  {
    forall i | 0 <= i < |index| ensures index[i].filename != f {
      assert index[i] in index;
    }
  }

  /** A chunk of f that appears on disk must appear in the index under f. */
  lemma AgreementAfterWrite(n: Node, m: Node, f: string, c: int, to: string)
    requires Agrees(n) && !OnDisk(n.tree, f, c)
    requires forall g, d :: OnDisk(m.tree, g, d) <==> OnDisk(n.tree, g, d) || (g == f && d == c)
    requires forall g, d :: Indexed(m.index, g, d) <==> Indexed(n.index, g, d) || (g == to && d == c)
    ensures Agrees(m) <==> to == f
  {
    assert OnDisk(m.tree, f, c) && !Indexed(n.index, f, c);
  }

  lemma HalfWrittenBreaksAgreement(n: Node, m: Node, f: string, c: int)
    requires Agrees(n) && !OnDisk(n.tree, f, c) && m.index == n.index && OnDisk(m.tree, f, c)
    ensures !Agrees(m)
  {
    assert !Indexed(n.index, f, c);
  }

  /** Exactly the disciplined saves keep index and disk in agreement. */
  lemma SaveKeepsAgreementIff(n: Node, f: string, c: int, data: Bytes, w: Write)
    requires Consistent(n) && Agrees(n)
    ensures Save(n, f, c, data, w).1 != Undefined
    ensures Agrees(Save(n, f, c, data, w).0) <==> Disciplined(n, f, c, data, w)
  {
    ConsistentIsDefined(n, f, c, data, w);
    SoundParts(n);
    hide Consistent, Sound, Flat, Agrees;
    var m, had := Save(n, f, c, data, w).0, HasFiles(n.tree, f);
    if data != [] && !OnDisk(n.tree, f, c) {
      match w
      case OpenFails =>
        OpenFailsTree(n.tree, f);
        SameChunksAgree(n, m);
      case Wrote(k) =>
        if k < |data| {
          WriteTree(n.tree, f, c, data[..k]);
          HalfWrittenBreaksAgreement(n, m, f, c);
        } else {
          WriteTree(n.tree, f, c, data);
          InsertEffect(n.index, f, c, had);
          AgreementAfterWrite(n, m, f, c, Receiver(n.index, f, had));
        }
    }
  }

  lemma SameChunksAgree(n: Node, m: Node)
    requires Agrees(n) && m.index == n.index
    requires forall g, d :: OnDisk(m.tree, g, d) <==> OnDisk(n.tree, g, d)
    ensures Agrees(m)
  {
  }

  /** In an agreeing node the index-guarded lookup opens a chunk exactly when it is on disk, and yields its bytes. */
  lemma LookupIsLossless(n: Node, f: string, c: int)
    requires Flat(n.tree) && Agrees(n)
    ensures Lookup(n, f, c).Some? <==> OnDisk(n.tree, f, c)
    ensures OnDisk(n.tree, f, c) ==> n.tree[ChunkPath(f, c)] == Regular(Lookup(n, f, c).value)
  {
    assert Indexed(n.index, f, c) <==> OnDisk(n.tree, f, c);
  }

  // When the code is defined

  ghost predicate EverySaveIsDefined(n: Node) {
    forall f, c, data, w :: Save(n, f, c, data, w).1 != Undefined
  }

  function ChunksOf(t: Tree, f: string): set<int> {
    set p | p in t && |p| == 2 && p[0] == f :: Atoi(p[1])
  }

  lemma {:induction false} SomeIntOutside(s: set<int>) returns (x: int)
    ensures forall y :: y in s ==> y < x
    decreases s
  {
    x := 0;
    if y :| y in s {
      var z := SomeIntOutside(s - {y});
      x := if y < z then z else y + 1;
      assert forall u :: u in s ==> u == y || u in s - {y};
    }
  }

  /** A directory never holds all chunk ids. */
  lemma SomeChunkIsMissing(t: Tree, f: string) returns (c: int)
    ensures !OnDisk(t, f, c)
  {
    c := SomeIntOutside(ChunksOf(t, f));
    if OnDisk(t, f, c) {
      assert Atoi(ChunkPath(f, c)[1]) in ChunksOf(t, f);
    }
  }

  /** Every possible save is defined if and only if the index has an entry or no directory has a file. */
  lemma EverySaveIsDefinedIff(n: Node)
    ensures EverySaveIsDefined(n) <==> n.index != [] || forall f :: !HasFiles(n.tree, f)
  {
    if EverySaveIsDefined(n) && n.index == [] {
      forall f ensures !HasFiles(n.tree, f) {
        var c := SomeChunkIsMissing(n.tree, f);
        assert Save(n, f, c, [0], Wrote(1)).1 != Undefined;
      }
    }
  }

  /**
   The exact boundary of one save: from a consistent node the save itself is defined, and every save after it
   is defined if and only if this was not a short write of a missing chunk into a node with an empty index.
   */
  lemma NextSaveIsDefinedIff(n: Node, f: string, c: int, data: Bytes, w: Write)
    requires Consistent(n)
    ensures Save(n, f, c, data, w).1 != Undefined
    ensures EverySaveIsDefined(Save(n, f, c, data, w).0) <==>
      !(Partial(data, w) && !OnDisk(n.tree, f, c) && n.index == [])
  {
    var m := Save(n, f, c, data, w).0;
    ConsistentIsDefined(n, f, c, data, w);
    EverySaveIsDefinedIff(m);
    if Partial(data, w) && !OnDisk(n.tree, f, c) {
      SoundParts(n);
      WriteTree(n.tree, f, c, data[..w.count]);
      assert HasFiles(m.tree, f);
    } else if m.index == [] {
      DefinedUnlessOrphan(n, f, c, data, w);
    }
  }

  lemma DefinedUnlessOrphan(n: Node, f: string, c: int, data: Bytes, w: Write)
    requires Consistent(n) && !(Partial(data, w) && !OnDisk(n.tree, f, c))
    requires Save(n, f, c, data, w).0.index == []
    ensures forall g :: !HasFiles(Save(n, f, c, data, w).0.tree, g)
  {
    SoundParts(n);
    if OnDisk(n.tree, f, c) {
      HasFilesMeansOnDisk(n.tree, f);
    }
    SaveKeepsConsistentIff(n, f, c, data, w);
    var m := Save(n, f, c, data, w).0;
    forall g ensures !HasFiles(m.tree, g) {
      assert !Named(m.index, g);
    }
  }

  // What an operation does to the whole tree and the whole index

  /** Some regular file lies directly in the directory; subdirectories do not count. */
  lemma HasFilesIs(t: Tree, f: string)
    ensures HasFiles(t, f) <==> exists name: string :: [f, name] in t && t[[f, name]].Regular?
  {
    if HasFiles(t, f) {
      var p :| p in t && |p| == 2 && p[0] == f && t[p].Regular?;
      assert p == [f, p[1]];
    }
  }

  /** The save gets as far as creating the directory. */
  predicate Tried(n: Node, f: string, c: int, data: Bytes) {
    data != [] && [f, Decimal(c)] !in n.tree
  }

  /** It writes the whole chunk and finds the entry it needs. */
  predicate Filed(n: Node, f: string, c: int, data: Bytes, w: Write) {
    Tried(n, f, c, data) && w.Wrote? && w.count >= |data| && (HasFiles(n.tree, f) ==> n.index != [])
  }

  /** saveChunkToFile in full: the outcome, every path of the new tree, and the new index. */
  lemma SaveIs(n: Node, f: string, c: int, data: Bytes, w: Write)
    requires Flat(n.tree)
    ensures var (m, outcome) := Save(n, f, c, data, w);
      var (tried, filed, path) := (Tried(n, f, c, data), Filed(n, f, c, data, w), [f, Decimal(c)]);
      && (outcome == Stored <==> filed || (data != [] && path in n.tree))
      && (outcome == Undefined <==> tried && !filed && w.Wrote? && w.count >= |data|)
      && (forall p :: p in m.tree <==> p in n.tree || (tried && (p == [f] || (w.Wrote? && p == path))))
      && (forall p :: p in n.tree ==> m.tree[p] == n.tree[p])
      && (tried ==> m.tree[[f]] == Directory)
      && (tried && w.Wrote? ==> m.tree[path] == Regular(if w.count < |data| then data[..w.count] else data))
      && (!filed ==> m.index == n.index)
      && (filed && !HasFiles(n.tree, f) ==> m.index == n.index + [FileMapping(f, [c])])
      && (filed && HasFiles(n.tree, f) ==>
            var k := |n.index| - 1;
            && |m.index| == k + 1 && m.index[..k] == n.index[..k]
            && m.index[k] == FileMapping(n.index[k].filename, n.index[k].chunkIds + [c]))
  {
    assert ChunkPath(f, c) == [f, Decimal(c)];
    assert [] + [c] == [c];
  }

  /** delete_file in full: the directory and all below it are gone, every other path is as it was. */
  lemma DeleteIs(n: Node, f: string)
    requires Flat(n.tree)
    ensures var (m, ok) := Delete(n, f);
      && (ok <==> [f] in n.tree) && (!ok ==> m == n)
      && (forall p :: p in m.tree <==> p in n.tree && p[0] != f)
      && (forall p :: p in m.tree ==> m.tree[p] == n.tree[p])
      && m.index == if ok then RemoveEntry(n.index, f) else n.index
  {
    forall p | p in n.tree ensures [f] <= p <==> p[0] == f {}
    if [f] !in n.tree {
      forall p | p in n.tree ensures p[0] != f {
        assert if |p| == 1 then p == [p[0]] else [p[0]] in n.tree;
      }
    }
  }
}
