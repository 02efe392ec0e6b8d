/** The storage process: the reallocated index array and the file system it must follow. */
module StorageNode {
  import opened Common
  import opened FileTree
  import opened Storage
  import NodeRuns

  lemma FilesNeedTheirDirectory(t: Tree, f: string)
    requires WellFormed(t)
    ensures HasFiles(t, f) ==> IsDir(t, [f])
  {
    forall p | p in t && |p| == 2 && p[0] == f ensures IsDir(t, [f]) {
      assert p[..1] == [f];
    }
  }

  class NodeState {
    var entries: array<FileMapping>  // file_to_chunk_state, reallocated to its exact size
    var fileCount: nat               // num_file_count
    const fs: FileSystem

    ghost predicate Valid()
      reads this
    {
      entries.Length == fileCount
    }

    function Value(): Node
      reads this, entries, fs
    {
      Node(entries[..], fs.tree)
    }

    constructor ()
      ensures Valid() && Value() == EMPTY_NODE && fresh(entries) && fresh(fs)
    {
      entries := new FileMapping[0];
      fileCount := 0;
      fs := new FileSystem();
    }

    /** push_chunk_id on the entry at position i. */
    method PushChunkId(i: nat, c: int)
      requires i < entries.Length
      modifies entries
      ensures entries[..] ==
        old(entries[..])[i := FileMapping(old(entries[i]).filename, old(entries[i]).chunkIds + [c])]
    {
      entries[i] := FileMapping(entries[i].filename, entries[i].chunkIds + [c]);
    }

    /** realloc: a new block holding as many of the old entries as fit. */
    method Resize(n: nat)
      requires Valid()
      modifies this
      ensures fresh(entries) && entries.Length == n && fileCount == old(fileCount)
      ensures forall j :: 0 <= j < n && j < old(entries.Length) ==> entries[j] == old(entries[j])
    {
      var block := new FileMapping[n];
      forall j | 0 <= j < n && j < entries.Length {
        block[j] := entries[j];
      }
      entries := block;
    }

    method InsertToStruct(f: string, c: int, dirHasFiles: bool)
      requires Valid()
      requires dirHasFiles ==> fileCount > 0
      modifies this, entries
      ensures Valid() && (entries == old(entries) || fresh(entries))
      ensures entries[..] == Insert(old(entries[..]), f, c, dirHasFiles)
    {
      ghost var was := entries[..];
      if !dirHasFiles {
        Resize(fileCount + 1);
        entries[fileCount] := FileMapping(f, []);
        assert entries[..] == was + [FileMapping(f, [])];
        fileCount := fileCount + 1;
      }
      PushChunkId(fileCount - 1, c);
    }

    /** The shift loop: close the gap at position `gap`. */
    method ShiftDown(gap: nat)
      requires Valid() && gap < fileCount
      modifies entries
      ensures entries[..fileCount - 1] == old(entries[..gap] + entries[gap + 1..])
    {
      ghost var was := entries[..];
      var i := gap;
      while i < fileCount - 1
        invariant gap <= i <= fileCount - 1
        invariant forall j :: 0 <= j < gap ==> entries[j] == was[j]
        invariant forall j :: gap <= j < i ==> entries[j] == was[j + 1]
        invariant forall j :: i < j < fileCount ==> entries[j] == was[j]
      {
        entries[i] := entries[i + 1];
        i := i + 1;
      }
    }

    method RemoveFromStruct(f: string)
      requires Valid()
      modifies this, entries
      ensures Valid() && (entries == old(entries) || fresh(entries))
      ensures entries[..] == RemoveEntry(old(entries[..]), f)
    {
      hide RemoveEntry;
      var index := -1;
      var i := 0;
      while i < fileCount
        invariant 0 <= i <= fileCount
        invariant forall j :: 0 <= j < i ==> entries[j].filename != f
      {
        if entries[i].filename == f {
          index := i;
          break;
        }
        i := i + 1;
      }
      NodeRuns.RemovedAt(entries[..], f, i);
      if index == -1 {
        return;
      }
      ghost var was := entries[..];
      ShiftDown(index);
      Resize(fileCount - 1);
      fileCount := fileCount - 1;
      assert entries[..] == was[..index] + was[index + 1..];
    }

    /** The mappings of a health report: one per entry, in index order. */
    method Snapshot() returns (files: seq<FileMapping>)
      requires Valid()
      ensures files == Value().index
    {
      files := [];
      for i := 0 to fileCount
        invariant files == entries[..i]
      {
        files := files + [FileMapping(entries[i].filename, entries[i].chunkIds)];
      }
    }

    method DirectoryHasFiles(f: string) returns (found: bool)
      requires WellFormed(fs.tree)
      ensures found == HasFiles(fs.tree, f)
    {
      FilesNeedTheirDirectory(fs.tree, f);
      if !IsDir(fs.tree, [f]) {
        return false;
      }
      var names := fs.ReadDir([f]);
      forall j | 0 <= j < |names| ensures [f, names[j]] in fs.tree {
        assert [f] + [names[j]] == [f, names[j]] && names[j] in names;
      }
      for i := 0 to |names|
        invariant forall j :: 0 <= j < i ==> !fs.tree[[f, names[j]]].Regular?
      {
        if fs.tree[[f, names[i]]].Regular? {
          return true;
        }
      }
      forall p | p in fs.tree && |p| == 2 && p[0] == f ensures !fs.tree[p].Regular? {
        assert p == [f] + [p[1]];
        var j :| 0 <= j < |names| && names[j] == p[1];
        assert p == [f, names[j]];
      }
      return false;
    }

    /** Undefined stands for what the code goes on to do without an entry to push onto. */
    method SaveChunkToFile(f: string, data: Bytes, c: int, w: Write) returns (outcome: Outcome)
      requires Valid() && WellFormed(fs.tree)
      modifies this, entries, fs
      ensures Valid() && (entries == old(entries) || fresh(entries))
      ensures (Value(), outcome) == Save(old(Value()), f, c, data, w)
    {
      if data == [] {
        return Refused;
      }
      var path := ChunkPath(f, c);
      var existedBefore := path in fs.tree;
      var dirHasFiles := DirectoryHasFiles(f);
      if existedBefore {
        return Stored;
      }
      if [f] !in fs.tree {
        fs.tree := fs.tree[[f] := Directory];
      }
      if w.OpenFails? {
        return Refused;
      }
      var written := if w.count < |data| then w.count else |data|;
      fs.tree := fs.tree[path := Regular(data[..written])];
      if written != |data| {
        return Refused;
      }
      assert data[..written] == data;
      if dirHasFiles && fileCount == 0 {
        return Undefined;
      }
      InsertToStruct(f, c, dirHasFiles);
      return Stored;
    }

    method DeleteFile(f: string) returns (ok: bool)
      requires Valid() && WellFormed(fs.tree)
      modifies this, entries, fs
      ensures Valid() && (entries == old(entries) || fresh(entries))
      ensures (Value(), ok) == Delete(old(Value()), f)
    {
      var code := fs.RemoveDirectory([f]);
      if code != 0 {
        return false;
      }
      RemoveFromStruct(f);
      return true;
    }

    /** The descriptor's content, or None for fd == -1. */
    method GetFileDescriptor(f: string, c: int) returns (content: Option<Bytes>)
      requires Valid()
      ensures content == Lookup(Value(), f, c)
    {
      var path := ChunkPath(f, c);
      for i := 0 to fileCount
        invariant forall e :: e in entries[..i] ==> !(e.filename == f && c in e.chunkIds)
      {
        var entry := entries[i];
        if entry.filename == f {
          for j := 0 to |entry.chunkIds|
            invariant c !in entry.chunkIds[..j]
          {
            if c == entry.chunkIds[j] {
              assert entry in entries[..];
              if path in fs.tree && fs.tree[path].Regular? {
                return Some(fs.tree[path].data);
              }
              return None;
            }
          }
        }
        assert entries[..i + 1] == entries[..i] + [entry];
      }
      assert entries[..fileCount] == entries[..];
      return None;
    }
  }
}
