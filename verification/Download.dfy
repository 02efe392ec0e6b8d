/** readFile: the chunk list, the locations, one fetch per chunk from some replica, appended in order. */
module Download {
  import opened Common
  import opened Registry

  /** Everything the outside decides during one readFile. */
  datatype Replies = Replies(
    prepared: bool,                                    // mkdir and the truncating write
    list: Option<seq<int>>,                            // POST /chunks
    locate: seq<int> -> Option<seq<seq<Addr>>>,        // POST /chunk-location-multiple
    random: nat -> real,                               // Math.random()
    fetch: (nat, Addr, int) -> Option<Bytes>,          // GET /chunk: request number, host, chunk id
    appended: nat -> bool)                             // appendFileSync

  /** The master answers with one location list per id, and Math.random() lies in [0, 1). */
  ghost predicate Sane(r: Replies) {
    && (forall ids :: r.locate(ids).Some? ==> |r.locate(ids).value| == |ids|)
    && (forall i :: 0.0 <= r.random(i) < 1.0)
  }

  lemma RandomIndexInRange(x: real, n: nat)
    requires 0.0 <= x < 1.0 && n > 0
    ensures 0 <= (x * n as real).Floor < n
  {
    assert 0.0 <= x * n as real < n as real;
  }

  /** replicas[Math.floor(Math.random() * replicas.length)]. */
  function Choose(replicas: seq<Addr>, x: real): (a: Addr)
    requires replicas != [] && 0.0 <= x < 1.0
    ensures a in replicas
  {
    RandomIndexInRange(x, |replicas|);
    replicas[(x * |replicas| as real).Floor]
  }

  /** The unit interval falls into as many equal parts as there are replicas, and the j-th part selects the j-th. */
  lemma ChooseIs(replicas: seq<Addr>, x: real, j: nat)
    requires 0.0 <= x < 1.0 && j < |replicas| && j as real <= x * |replicas| as real < (j + 1) as real
    ensures Choose(replicas, x) == replicas[j]
  {
  }

  /** Every guard up to the first fetch passes. */
  ghost predicate Begins(r: Replies) {
    && r.prepared && r.list.Some? && r.locate(r.list.value).Some?
    && r.locate(r.list.value).value != []
    && forall l :: l in r.locate(r.list.value).value ==> l != []
  }

  /** The answer to the i-th fetch. */
  ghost function Part(r: Replies, i: nat): Option<Bytes>
    requires Sane(r) && Begins(r) && i < |r.list.value|
  {
    var replicas := r.locate(r.list.value).value[i];
    assert replicas in r.locate(r.list.value).value;
    r.fetch(i, Choose(replicas, r.random(i)), r.list.value[i])
  }

  ghost predicate Succeeds(r: Replies)
    requires Sane(r)
  {
    Begins(r) && forall i: nat :: i < |r.list.value| ==> Part(r, i).Some? && r.appended(i)
  }

  ghost function Parts(r: Replies, n: nat): seq<Bytes>
    requires Sane(r) && Succeeds(r) && n <= |r.list.value|
  {
    seq(n, i requires 0 <= i < n => Part(r, i).value)
  }

  /** How many chunks are fetched and appended before readFile returns. */
  ghost function Appended(r: Replies, n: nat): (k: nat)
    requires Sane(r) && Begins(r) && n <= |r.list.value|
    ensures k <= n && (k < n ==> !(Part(r, k).Some? && r.appended(k)))
    ensures forall i: nat :: i < k ==> Part(r, i).Some? && r.appended(i)
  {
    if n == 0 then 0
    else if Appended(r, n - 1) < n - 1 then Appended(r, n - 1)
    else if Part(r, n - 1).Some? && r.appended(n - 1) then n else n - 1
  }

  ghost function PartsBefore(r: Replies, k: nat): seq<Bytes>
    requires Sane(r) && Begins(r) && k <= |r.list.value|
    requires forall i: nat :: i < k ==> Part(r, i).Some?
  {
    seq(k, i requires 0 <= i < k => Part(r, i).value)
  }

  /**
   True exactly when every guard, fetch and append succeeds. The output file holds the fetched parts in list
   order up to the first failure, and nothing if a guard fails.
   */
  method ReadFile(r: Replies) returns (ok: bool, output: Bytes)
    requires Sane(r)
    ensures ok <==> Succeeds(r)
    ensures ok ==> output == Concat(Parts(r, |r.list.value|))
    ensures !Begins(r) ==> output == []
    ensures Begins(r) ==> output == Concat(PartsBefore(r, Appended(r, |r.list.value|)))
    ensures ok ==> r.prepared && r.list.Some? && r.list.value != []
  {
    hide Choose;
    output := [];
    if !r.prepared || r.list.None? {
      return false, output;
    }
    var chunkIds := r.list.value;
    var answer := r.locate(chunkIds);
    if answer.None? || |answer.value| == 0 {
      return false, output;
    }
    var locations := answer.value;
    for j := 0 to |locations|
      invariant forall l :: l in locations[..j] ==> l != []
    {
      assert locations[j] in locations;
      if |locations[j]| == 0 {
        return false, output;
      }
      assert locations[..j + 1] == locations[..j] + [locations[j]];
    }
    assert locations[..|locations|] == locations;
    var i := 0;
    while i < |locations|
      invariant 0 <= i <= |locations|
      invariant forall j: nat :: j < i ==> Part(r, j).Some? && r.appended(j)
      invariant output == Concat(PartsBefore(r, i))
    {
      assert locations[i] in locations;
      var nodeHost := Choose(locations[i], r.random(i));
      var data := r.fetch(i, nodeHost, chunkIds[i]);
      assert data == Part(r, i);
      if data.None? {
        StoppedAt(r, i);
        return false, output;
      }
      if !r.appended(i) {
        StoppedAt(r, i);
        return false, output;
      }
      assert PartsBefore(r, i + 1)[..i] == PartsBefore(r, i);
      output := output + data.value;
      i := i + 1;
    }
    assert PartsBefore(r, i) == Parts(r, i);
    return true, output;
  }

  lemma StoppedAt(r: Replies, k: nat)
    requires Sane(r) && Begins(r) && k < |r.list.value|
    requires forall i: nat :: i < k ==> Part(r, i).Some? && r.appended(i)
    requires !(Part(r, k).Some? && r.appended(k))
    ensures Appended(r, |r.list.value|) == k
  {
  }
}
