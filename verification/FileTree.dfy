/** The directory tree below data/, and the recursive removal of a directory. */
module FileTree {
  import opened Common

  /** Components below data/; the root [] itself always exists. */
  type Path = seq<string>

  datatype Inode = Directory | Regular(data: Bytes)

  type Tree = map<Path, Inode>

  predicate IsDir(t: Tree, p: Path) {
    p == [] || (p in t && t[p].Directory?)
  }

  ghost predicate WellFormed(t: Tree) {
    forall p :: p in t ==> p != [] && IsDir(t, p[..|p| - 1])
  }

  /** The tree without p and everything below it. */
  function Without(t: Tree, p: Path): Tree {
    map q | q in t && !(p <= q) :: t[q]
  }

  /** Nothing whose path starts with p is left, and every other path is as it was. */
  lemma WithoutIs(t: Tree, p: Path, q: Path)
    ensures q in Without(t, p) <==> q in t && (|q| < |p| || q[..|p|] != p)
    ensures q in Without(t, p) ==> Without(t, p)[q] == t[q]
  {
  }

  function Children(t: Tree, p: Path): set<string> {
    set q | q in t && |q| == |p| + 1 && p <= q :: q[|p|]
  }

  ghost function Below(t: Tree, p: Path): set<Path> {
    set q | q in t && p <= q
  }

  lemma ChildrenAre(t: Tree, p: Path, name: string)
    ensures name in Children(t, p) <==> p + [name] in t
  {
    if p + [name] in t {
      assert (p + [name])[|p|] == name;
    }
    if name in Children(t, p) {
      var q :| q in t && |q| == |p| + 1 && p <= q && q[|p|] == name;
      assert q == p + [name];
    }
  }

  /** Whatever lies below p lies below one of p's children. */
  lemma {:induction false} ChildTowards(t: Tree, p: Path, q: Path)
    requires WellFormed(t) && q in t && p < q
    ensures q[|p|] in Children(t, p)
    decreases |q|
  {
    if |q| == |p| + 1 {
      assert q == p + [q[|p|]];
      ChildrenAre(t, p, q[|p|]);
    } else {
      var parent := q[..|q| - 1];
      assert IsDir(t, parent) && p < parent;
      ChildTowards(t, p, parent);
    }
  }

  lemma {:induction false} LeafHasNothingBelow(t: Tree, p: Path, q: Path)
    requires WellFormed(t) && p in t && t[p].Regular? && p != []
    requires q in t && p <= q
    ensures q == p
    decreases |q|
  {
    if |q| > |p| {
      var parent := q[..|q| - 1];
      assert IsDir(t, parent) && p <= parent;
      LeafHasNothingBelow(t, p, parent);
    }
  }

  class FileSystem {
    var tree: Tree

    constructor ()
      ensures tree == map[]
    {
      tree := map[];
    }

    /** One pass of readdir, in no particular order. */
    method ReadDir(p: Path) returns (names: seq<string>)
      ensures NoDuplicates(names)
      ensures forall n :: n in names <==> p + [n] in tree
    {
      var rest := Children(tree, p);
      names := [];
      while rest != {}
        invariant NoDuplicates(names)
        invariant forall n :: n in rest ==> n !in names
        invariant forall n :: n in Children(tree, p) <==> n in rest || n in names
        decreases rest
      {
        var n :| n in rest;
        rest := rest - {n};
        names := names + [n];
      }
      forall n ensures n in names <==> p + [n] in tree {
        ChildrenAre(tree, p, n);
      }
    }

    /** remove_directory: 0 and the subtree gone, or -1 and nothing touched when p is no directory. */
    method RemoveDirectory(p: Path) returns (code: int)
      requires p != [] && WellFormed(tree)
      modifies this
      ensures code == (if old(IsDir(tree, p)) then 0 else -1)
      ensures tree == if code == 0 then Without(old(tree), p) else old(tree)
      decreases |Below(tree, p)|
    {
      if !(p in tree && tree[p].Directory?) {
        return -1;
      }
      hide WithoutChildren, Without, Below, WellFormed, Children;
      var names := ReadDir(p);
      ghost var before := tree;
      NoChildrenGone(before, p);
      assert names[..0] == [];
      var i := 0;
      while i < |names|
        invariant 0 <= i <= |names|
        invariant tree == WithoutChildren(before, p, names[..i])
      {
        var child := p + [names[i]];
        ChildStillThere(before, p, names, i);
        BelowChildIsSmaller(before, p, names, i);
        WithoutNextChild(before, p, names, i);
        if tree[child].Directory? {
          var inner := RemoveDirectory(child);
          if inner == -1 {
            return -1;
          }
        } else {
          LeafAlone(tree, child);
          tree := tree - {child};
        }
        i := i + 1;
      }
      assert names[..i] == names;
      OnlyTheDirectoryLeft(before, p, names);
      tree := tree - {p};
      return 0;
    }
  }

  ghost function WithoutChildren(t: Tree, p: Path, names: seq<string>): Tree {
    map q | q in t && !(exists n :: n in names && p + [n] <= q) :: t[q]
  }

  lemma WithoutKeepsWellFormed(t: Tree, p: Path, names: seq<string>)
    requires WellFormed(t)
    ensures WellFormed(WithoutChildren(t, p, names))
  {
    var u := WithoutChildren(t, p, names);
    forall q | q in u ensures q != [] && IsDir(u, q[..|q| - 1]) {
      forall n | n in names && p + [n] <= q[..|q| - 1] ensures p + [n] <= q {}
    }
  }

  lemma ChildStillThere(t: Tree, p: Path, names: seq<string>, i: nat)
    requires i < |names| && NoDuplicates(names) && p + [names[i]] in t && WellFormed(t)
    requires p in t && t[p].Directory?
    ensures p + [names[i]] in WithoutChildren(t, p, names[..i])
    ensures p in WithoutChildren(t, p, names[..i])
    ensures WellFormed(WithoutChildren(t, p, names[..i]))
  {
    WithoutKeepsWellFormed(t, p, names[..i]);
    if n :| n in names[..i] && p + [n] <= p + [names[i]] {
      assert (p + [n])[|p|] == (p + [names[i]])[|p|];
    }
  }

  lemma WithoutNextChild(t: Tree, p: Path, names: seq<string>, i: nat)
    requires i < |names|
    ensures Without(WithoutChildren(t, p, names[..i]), p + [names[i]]) == WithoutChildren(t, p, names[..i + 1])
  {
    var more := names[..i + 1];
    assert more == names[..i] + [names[i]];
    forall q {:trigger q in t}
      ensures (exists n :: n in more && p + [n] <= q)
         <==> (exists n :: n in names[..i] && p + [n] <= q) || p + [names[i]] <= q
    {
      assert names[i] in more;
      assert forall n :: n in more <==> n in names[..i] || n == names[i];
    }
  }

  lemma NoChildrenGone(t: Tree, p: Path)
    ensures WithoutChildren(t, p, []) == t
  {
  }

  lemma BelowChildIsSmaller(before: Tree, p: Path, names: seq<string>, i: nat)
    requires p in before && i < |names|
    ensures var t, child := WithoutChildren(before, p, names[..i]), p + [names[i]];
      |Below(t, child)| < |Below(before, p)|
  {
    var t, child := WithoutChildren(before, p, names[..i]), p + [names[i]];
    assert p in Below(before, p) && p !in Below(t, child);
    assert Below(t, child) <= Below(before, p) - {p};
    CardinalityMonotone(Below(t, child), Below(before, p) - {p});
  }

  lemma LeafAlone(t: Tree, p: Path)
    requires WellFormed(t) && p in t && t[p].Regular? && p != []
    ensures t - {p} == Without(t, p)
  {
    forall q | q in t && p <= q ensures q == p {
      LeafHasNothingBelow(t, p, q);
    }
  }

  lemma BelowIsBelowChild(t: Tree, p: Path, names: seq<string>, q: Path)
    requires WellFormed(t) && q in t && p < q
    requires forall n :: n in names <==> p + [n] in t
    ensures q !in WithoutChildren(t, p, names)
  {
    hide WellFormed;
    ChildTowards(t, p, q);
    ChildrenAre(t, p, q[|p|]);
    assert p + [q[|p|]] <= q;
  }

  lemma ElsewhereIsKept(t: Tree, p: Path, names: seq<string>, q: Path)
    requires q in t && !(p <= q)
    ensures q in WithoutChildren(t, p, names)
  {
    forall n ensures !(p + [n] <= q) {
      assert p <= p + [n];
    }
  }

  lemma OnlyTheDirectoryLeft(t: Tree, p: Path, names: seq<string>)
    requires WellFormed(t) && p in t && t[p].Directory?
    requires forall n :: n in names <==> p + [n] in t
    ensures WithoutChildren(t, p, names) - {p} == Without(t, p)
  {
    var u := WithoutChildren(t, p, names);
    assert forall q :: q in u ==> q in t && u[q] == t[q];
    hide WithoutChildren, WellFormed;
    forall q | q in t ensures (q in u && q != p) <==> !(p <= q) {
      if p <= q && q != p {
        BelowIsBelowChild(t, p, names, q);
      } else if !(p <= q) {
        ElsewhereIsKept(t, p, names, q);
      }
    }
  }
}
