/** Values shared by the storage nodes, the master and the client. */
module Common {

  newtype byte = x: int | 0 <= x < 256

  type Bytes = seq<byte>

  datatype Option<+T> = None | Some(value: T)

  /** One file's chunk list: an index entry of a node and, unchanged, a mapping in a health report. */
  datatype FileMapping = FileMapping(filename: string, chunkIds: seq<int>)

  predicate NoDuplicates<T(==)>(s: seq<T>) {
    forall i, j :: 0 <= i < j < |s| ==> s[i] != s[j]
  }

  predicate StrictlyIncreasing(s: seq<int>) {
    forall i, j :: 0 <= i < j < |s| ==> s[i] < s[j]
  }

  function Concat(parts: seq<Bytes>): Bytes {
    if parts == [] then [] else Concat(parts[..|parts| - 1]) + parts[|parts| - 1]
  }

  function Elements<T>(s: seq<T>): set<T> {
    set x | x in s
  }

  lemma {:induction false} DistinctCount<T>(s: seq<T>)
    requires NoDuplicates(s)
    ensures |Elements(s)| == |s|
  {
    if s != [] {
      var init, last := s[..|s| - 1], s[|s| - 1];
      DistinctCount(init);
      assert s == init + [last];
      assert Elements(s) == Elements(init) + {last};
      assert last !in init;
    }
  }

  lemma CardinalityMonotone<T>(a: set<T>, b: set<T>)
    requires a <= b
    ensures |a| <= |b|
  {
    assert b == a + (b - a);
  }

  lemma {:induction false} Smallest(s: set<int>, x: int) returns (k: int)
    requires x in s
    ensures k in s && forall j :: j in s ==> k <= j
    decreases s
  {
    k := x;
    if y :| y in s && y < x {
      k := Smallest(s - {x}, y);
      assert forall j :: j in s ==> j == x || j in s - {x};
    }
  }

  lemma CutElements<T>(s: seq<T>, i: nat)
    requires i < |s|
    ensures forall e :: e in s <==> e in s[..i] + s[i + 1..] || e == s[i]
  {
    var r := s[..i] + s[i + 1..];
    forall e | e in s && e != s[i] ensures e in r {
      var j :| 0 <= j < |s| && s[j] == e;
      assert r[if j < i then j else j - 1] == e;
    }
  }

  lemma LastIsMaximum(s: seq<int>)
    requires StrictlyIncreasing(s) && s != []
    ensures forall x :: x in s ==> x <= s[|s| - 1]
    ensures Elements(s[..|s| - 1]) == Elements(s) - {s[|s| - 1]}
  {
    var init, last := s[..|s| - 1], s[|s| - 1];
    assert s == init + [last];
  }

  /** A strictly increasing sequence is determined by its elements. */
  lemma {:induction false} IncreasingUnique(s: seq<int>, t: seq<int>)
    requires StrictlyIncreasing(s) && StrictlyIncreasing(t)
    requires Elements(s) == Elements(t)
    ensures s == t
  {
    DistinctCount(s);
    DistinctCount(t);
    if s != [] {
      var n := |s| - 1;
      LastIsMaximum(s);
      LastIsMaximum(t);
      assert s[n] in Elements(t) && t[n] in Elements(s);
      IncreasingUnique(s[..n], t[..n]);
      assert s == s[..n] + [s[n]] && t == t[..n] + [t[n]];
    }
  }
}
