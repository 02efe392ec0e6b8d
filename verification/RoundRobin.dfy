/** Every history of the master: cursor safety, fairness of the write cursor, and replica sets. */
module RoundRobin {
  import opened Common
  import opened Registry

  datatype MasterOp =
    | DoInsert(id: Id, ip: Addr)
    | DoRemove(id: Id)
    | DoUpdate(id: Id, files: seq<FileMapping>)
    | DoIncrement

  function Apply(m: Master, op: MasterOp): Master {
    match op
    case DoInsert(id, ip) => Insert(m, id, ip)
    case DoRemove(id) => Remove(m, id)
    case DoUpdate(id, files) => Update(m, id, files)
    case DoIncrement => Increment(m).0
  }

  function After(ops: seq<MasterOp>): Master {
    if ops == [] then NEW_MASTER else Apply(After(ops[..|ops| - 1]), ops[|ops| - 1])
  }

  /** Every master that a history goes through. */
  function Masters(ops: seq<MasterOp>): set<Master> {
    if ops == [] then {NEW_MASTER} else Masters(ops[..|ops| - 1]) + {After(ops)}
  }

  lemma OneMoreMaster(ops: seq<MasterOp>, op: MasterOp)
    ensures After(ops + [op]) == Apply(After(ops), op)
    ensures Masters(ops + [op]) == Masters(ops) + {After(ops + [op])}
  {
    assert (ops + [op])[..|ops|] == ops;
  }

  lemma {:induction false} PrefixesAreMasters(ops: seq<MasterOp>, k: nat)
    requires k <= |ops|
    ensures After(ops[..k]) in Masters(ops)
  {
    if k < |ops| {
      assert ops[..|ops| - 1][..k] == ops[..k];
      PrefixesAreMasters(ops[..|ops| - 1], k);
    } else {
      assert ops[..k] == ops;
    }
  }

  lemma OnlyInsertsFill(m: Master, op: MasterOp)
    ensures op.DoInsert? ==> Apply(m, op).conns != []
    ensures m.conns == [] && !op.DoInsert? ==> Apply(m, op).conns == []
  {
  }

  /** Nothing was ever inserted exactly when the registry was always empty. */
  lemma {:induction false} NeverInsertedIff(ops: seq<MasterOp>)
    ensures (forall i :: 0 <= i < |ops| ==> !ops[i].DoInsert?) <==> forall m :: m in Masters(ops) ==> m.conns == []
    ensures After(ops) in Masters(ops)
  {
    if ops != [] {
      var k := |ops| - 1;
      NeverInsertedIff(ops[..k]);
      OnlyInsertsFill(After(ops[..k]), ops[k]);
      assert Masters(ops) == Masters(ops[..k]) + {After(ops)};
      assert (forall i :: 0 <= i < |ops| ==> !ops[i].DoInsert?) <==>
        (forall i :: 0 <= i < k ==> !ops[..k][i].DoInsert?) && !ops[k].DoInsert?;
    }
  }

  // The cursor over all histories

  lemma {:induction false} RetainShrinks(conns: seq<Connection>, id: Id)
    ensures |Retain(conns, id)| <= |conns|
    ensures forall x :: x in Retain(conns, id) <==> x in conns && x.id != id
  {
    if conns != [] {
      RetainShrinks(conns[1..], id);
      assert conns == [conns[0]] + conns[1..];
    }
  }

  /**
   If there are never more than `limit` connections, the cursor stays below `limit`; it is -1 exactly
   while nothing was ever inserted; and an increment serves a live connection unless there is none.
   */
  lemma {:induction false} CursorSafety(ops: seq<MasterOp>, limit: nat)
    requires limit >= 1
    requires forall k :: 0 <= k <= |ops| ==> |After(ops[..k]).conns| <= limit
    ensures -1 <= After(ops).cursor < limit
    ensures After(ops).cursor == -1 <==> forall i :: 0 <= i < |ops| ==> !ops[i].DoInsert?
    ensures After(ops).cursor == -1 ==> After(ops).conns == []
    ensures var (m, served) := Increment(After(ops));
      && (served.Some? <==> After(ops).conns != [])
      && (served.Some? ==> exists x :: x in m.conns && x.ip == served.value)
  {
    if ops != [] {
      var k := |ops| - 1;
      var init := ops[..k];
      forall i | 0 <= i <= k ensures |After(init[..i]).conns| <= limit {
        assert init[..i] == ops[..i];
      }
      CursorSafety(init, limit);
      var m := After(init);
      assert init == ops[..k] && ops[..k + 1] == ops;
      assert |m.conns| <= limit;
      match ops[k]
      case DoInsert(id, ip) =>
      case DoRemove(id) => RetainShrinks(m.conns, id);
      case DoUpdate(id, files) =>
      case DoIncrement =>
        if m.conns != [] {
          assert NextPosition(m.cursor, |m.conns|) < |m.conns|;
        }
    }
    var n := After(ops);
    if n.conns != [] {
      assert n.conns[NextPosition(n.cursor, |n.conns|)] in n.conns;
    }
  }

  // Fairness

  predicate KeepsMembership(op: MasterOp) {
    op.DoUpdate? || op.DoIncrement?
  }

  function RunFrom(m: Master, ops: seq<MasterOp>): Master {
    if ops == [] then m else Apply(RunFrom(m, ops[..|ops| - 1]), ops[|ops| - 1])
  }

  /** The registry positions chosen by the increments of a run. */
  function Picks(m: Master, ops: seq<MasterOp>): seq<int> {
    if ops == [] then []
    else
      var k := |ops| - 1;
      if ops[k].DoIncrement? then Picks(m, ops[..k]) + [RunFrom(m, ops).cursor] else Picks(m, ops[..k])
  }

  function Count(p: seq<int>, x: int): nat {
    if p == [] then 0 else Count(p[..|p| - 1], x) + if p[|p| - 1] == x then 1 else 0
  }

  /** The position after p among n. */
  function Succ(p: int, n: nat): int {
    if p + 1 == n then 0 else p + 1
  }

  ghost predicate Cyclic(p: seq<int>, n: nat) {
    && (forall i :: 0 <= i < |p| ==> 0 <= p[i] < n)
    && (forall i :: 0 <= i < |p| - 1 ==> p[i + 1] == Succ(p[i], n))
  }

  lemma {:induction false} UpdateKeepsMembership(m: Master, id: Id, files: seq<FileMapping>)
    ensures var u := Update(m, id, files);
      && |u.conns| == |m.conns| && u.cursor == m.cursor
      && forall i :: 0 <= i < |m.conns| ==> u.conns[i].id == m.conns[i].id && u.conns[i].ip == m.conns[i].ip
  {
  }

  lemma NextPositionWraps(cursor: int, n: nat)
    requires n > 0
    ensures 0 <= NextPosition(cursor, n) < n
    ensures 0 <= cursor < n ==> NextPosition(cursor, n) == Succ(cursor, n)
  {
  }

  ghost predicate SameMembers(m: Master, u: Master) {
    && |u.conns| == |m.conns|
    && forall i :: 0 <= i < |m.conns| ==> u.conns[i].id == m.conns[i].id && u.conns[i].ip == m.conns[i].ip
  }

  /** With fixed membership the chosen positions walk the registry in a circle, wherever the cursor was. */
  lemma {:induction false} PicksAreCyclic(m: Master, ops: seq<MasterOp>)
    requires m.conns != [] && forall i :: 0 <= i < |ops| ==> KeepsMembership(ops[i])
    ensures SameMembers(m, RunFrom(m, ops))
    ensures Cyclic(Picks(m, ops), |m.conns|)
    ensures Picks(m, ops) != [] ==> RunFrom(m, ops).cursor == Picks(m, ops)[|Picks(m, ops)| - 1]
  {
    if ops != [] {
      var k := |ops| - 1;
      PicksAreCyclic(m, ops[..k]);
      var u := RunFrom(m, ops[..k]);
      if ops[k].DoUpdate? {
        UpdateKeepsMembership(u, ops[k].id, ops[k].files);
      } else {
        NextPositionWraps(u.cursor, |m.conns|);
        assert RunFrom(m, ops).cursor == NextPosition(u.cursor, |m.conns|);
        CyclicExtends(Picks(m, ops[..k]), RunFrom(m, ops).cursor, |m.conns|);
      }
    }
  }

  /** Only a write step moves the cursor, apart from the very first join. */
  lemma OthersKeepCursor(m: Master, op: MasterOp)
    requires !op.DoIncrement?
    ensures m.cursor >= 0 ==> Apply(m, op).cursor == m.cursor
    ensures m.cursor < 0 && Apply(m, op).cursor != m.cursor ==> op.DoInsert? && Apply(m, op).cursor == 0
  {
  }

  lemma {:induction false} FirstPick(m: Master, ops: seq<MasterOp>)
    requires m.conns != [] && forall i :: 0 <= i < |ops| ==> KeepsMembership(ops[i])
    ensures Picks(m, ops) == [] ==> RunFrom(m, ops).cursor == m.cursor
    ensures Picks(m, ops) != [] ==> Picks(m, ops)[0] == NextPosition(m.cursor, |m.conns|)
  {
    if ops != [] {
      var k := |ops| - 1;
      FirstPick(m, ops[..k]);
      PicksAreCyclic(m, ops[..k]);
    }
  }

  /** The step number at which a cursor stands: the next pick is position 0 modulo n from a cursor never set. */
  function StepsTaken(cursor: int): nat {
    if cursor < 0 then 0 else cursor + 1
  }

  /**
   Exactly which positions are chosen: with fixed membership of n the k-th pick after a cursor c is c + 1 + k up
   to whole rounds, also when c lies beyond the end of a registry that has shrunk.
   */
  lemma {:induction false} PicksFromCursor(m: Master, ops: seq<MasterOp>, k: nat) returns (q: int)
    requires m.conns != [] && forall i :: 0 <= i < |ops| ==> KeepsMembership(ops[i])
    requires k < |Picks(m, ops)|
    ensures 0 <= Picks(m, ops)[k] < |m.conns|
    ensures StepsTaken(m.cursor) + k == q * |m.conns| + Picks(m, ops)[k]
  {
    var n, p := |m.conns|, Picks(m, ops);
    PicksAreCyclic(m, ops);
    if k == 0 {
      FirstPick(m, ops);
      q := NextPositionIs(m.cursor, n);
      q := if m.cursor < 0 then 0 else q;
    } else {
      q := PicksFromCursor(m, ops, k - 1);
      assert p[k] == Succ(p[k - 1], n);
      if p[k] == 0 {
        assert (q + 1) * n == q * n + n;
        q := q + 1;
      }
    }
  }

  lemma CyclicExtends(p: seq<int>, x: int, n: nat)
    requires Cyclic(p, n) && 0 <= x < n
    requires p != [] ==> x == Succ(p[|p| - 1], n)
    ensures Cyclic(p + [x], n)
  {
  }

  /** How far x lies ahead of the start of the walk. */
  function Ahead(start: int, x: int, n: nat): int {
    if x >= start then x - start else x - start + n
  }

  lemma {:induction false} CountOnCycle(p: seq<int>, n: nat, x: int) returns (q: nat, r: nat)
    requires p != [] && Cyclic(p, n) && 0 <= x < n
    ensures |p| == q * n + r && r < n
    ensures Count(p, x) == q + if Ahead(p[0], x, n) < r then 1 else 0
    ensures Succ(p[|p| - 1], n) == if p[0] + r < n then p[0] + r else p[0] + r - n
  {
    var k := |p| - 1;
    var init := p[..k];
    if k == 0 {
      assert Count(init, x) == 0;
      q, r := if n == 1 then 1 else 0, if n == 1 then 0 else 1;
    } else {
      var q0, r0 := CountOnCycle(init, n, x);
      assert p[k] == Succ(p[k - 1], n);
      if r0 + 1 == n {
        q, r := q0 + 1, 0;
        assert (q0 + 1) * n == q0 * n + n;
      } else {
        q, r := q0, r0 + 1;
      }
    }
  }

  lemma QuotientBounds(k: nat, q: nat, r: nat, n: nat)
    requires n > 0 && k == q * n + r && r < n
    ensures k / n == q
    ensures (k + n - 1) / n == if r == 0 then q else q + 1
  {
    Quotient(k, q, r, n);
    if r == 0 {
      Quotient(k + n - 1, q, n - 1, n);
    } else {
      assert (q + 1) * n == q * n + n;
      Quotient(k + n - 1, q + 1, r - 1, n);
    }
  }

  lemma Quotient(k: nat, q: nat, r: nat, n: nat)
    requires n > 0 && k == q * n + r && r < n
    ensures k / n == q
  {
    var d := k / n - q;
    assert k == (k / n) * n + k % n;
    assert d * n == (k / n) * n - q * n == r - k % n;
    MultiplesAreApart(d, n);
  }

  lemma MultiplesAreApart(d: int, n: int)
    requires n > 0
    ensures d >= 1 ==> d * n >= n
    ensures d <= -1 ==> d * n <= -n
  {
  }

  /**
   Fairness: whichever requests the increments belong to, and wherever the cursor started, k increments
   choose every connection floor(k/n) or ceil(k/n) times.
   */
  lemma RoundRobinIsFair(m: Master, ops: seq<MasterOp>, position: nat)
    requires forall i :: 0 <= i < |ops| ==> KeepsMembership(ops[i])
    requires position < |m.conns|
    ensures SameMembers(m, RunFrom(m, ops))
    ensures var (k, n) := (|Picks(m, ops)|, |m.conns|);
      k / n <= Count(Picks(m, ops), position) <= (k + n - 1) / n
  {
    PicksAreCyclic(m, ops);
    CyclesAreFair(Picks(m, ops), |m.conns|, position);
  }

  lemma CyclesAreFair(p: seq<int>, n: nat, x: nat)
    requires Cyclic(p, n) && x < n
    ensures |p| / n <= Count(p, x) <= (|p| + n - 1) / n
  {
    if p == [] {
      QuotientBounds(0, 0, 0, n);
    } else {
      var q, r := CountOnCycle(p, n, x);
      QuotientBounds(|p|, q, r, n);
    }
  }

  // Replica sets

  /** The uninterrupted increments of one write request. */
  function Increments(r: nat): seq<MasterOp> {
    seq(r, _ => DoIncrement)
  }

  lemma {:induction false} PicksOfIncrements(m: Master, r: nat)
    ensures |Picks(m, Increments(r))| == r
  {
    if r > 0 {
      assert Increments(r)[..r - 1] == Increments(r - 1);
      PicksOfIncrements(m, r - 1);
    }
  }

  function AfterIncrements(m: Master, r: nat): Master {
    if r == 0 then m else Increment(AfterIncrements(m, r - 1)).0
  }

  /** The addresses the request collects in its hash set. */
  function Replicas(m: Master, r: nat): set<Addr> {
    if r == 0 then {}
    else match Increment(AfterIncrements(m, r - 1)).1
      case Some(a) => Replicas(m, r - 1) + {a}
      case None => Replicas(m, r - 1)
  }

  ghost function Ips(m: Master, p: seq<int>): seq<Addr>
    requires Cyclic(p, |m.conns|)
  {
    seq(|p|, i requires 0 <= i < |p| => m.conns[p[i]].ip)
  }

  predicate DistinctAddresses(m: Master) {
    forall i, j :: 0 <= i < j < |m.conns| ==> m.conns[i].ip != m.conns[j].ip
  }

  lemma {:induction false} CountPositiveIffIn(p: seq<int>, x: int)
    ensures Count(p, x) > 0 <==> x in p
  {
    if p != [] {
      CountPositiveIffIn(p[..|p| - 1], x);
      assert p == p[..|p| - 1] + [p[|p| - 1]];
    }
  }

  lemma {:induction false} AtMostOnceIsDistinct(p: seq<int>)
    requires forall x :: x in p ==> Count(p, x) <= 1
    ensures NoDuplicates(p)
  {
    if p != [] {
      var init, last := p[..|p| - 1], p[|p| - 1];
      assert p == init + [last];
      forall x | x in init ensures Count(init, x) <= 1 {
        assert x in p;
      }
      AtMostOnceIsDistinct(init);
      CountPositiveIffIn(init, last);
      assert last in p;
      assert last !in init;
    }
  }

  lemma OneMoreIp(m: Master, p: seq<int>, x: int)
    requires Cyclic(p, |m.conns|) && Cyclic(p + [x], |m.conns|)
    ensures 0 <= x < |m.conns|
    ensures Elements(Ips(m, p + [x])) == Elements(Ips(m, p)) + {m.conns[x].ip}
  {
    assert (p + [x])[|p|] == x;
    assert Ips(m, p + [x]) == Ips(m, p) + [m.conns[x].ip];
  }

  lemma {:induction false} ReplicasArePicked(m: Master, r: nat)
    requires m.conns != []
    ensures AfterIncrements(m, r) == RunFrom(m, Increments(r))
    ensures Cyclic(Picks(m, Increments(r)), |m.conns|)
    ensures Replicas(m, r) == Elements(Ips(m, Picks(m, Increments(r))))
  {
    PicksAreCyclic(m, Increments(r));
    if r > 0 {
      ReplicasArePicked(m, r - 1);
      PicksAreCyclic(m, Increments(r - 1));
      assert Increments(r)[..r - 1] == Increments(r - 1);
      var p, p0 := Picks(m, Increments(r)), Picks(m, Increments(r - 1));
      var u := RunFrom(m, Increments(r - 1));
      var x := NextPosition(u.cursor, |u.conns|);
      assert p == p0 + [x] && Increment(u).1 == Some(m.conns[x].ip);
      OneMoreIp(m, p0, x);
    }
  }

  lemma FewPicksAreDistinct(m: Master, p: seq<int>)
    requires Cyclic(p, |m.conns|) && DistinctAddresses(m)
    requires forall x :: 0 <= x < |m.conns| ==> Count(p, x) <= 1
    ensures |Elements(Ips(m, p))| == |p|
  {
    forall x | x in p ensures Count(p, x) <= 1 {
      assert 0 <= x < |m.conns|;
    }
    AtMostOnceIsDistinct(p);
    DistinctCount(Ips(m, p));
  }

  lemma ManyPicksCoverAll(m: Master, p: seq<int>)
    requires Cyclic(p, |m.conns|) && DistinctAddresses(m)
    requires forall x :: 0 <= x < |m.conns| ==> Count(p, x) >= 1
    ensures |Elements(Ips(m, p))| == |m.conns|
  {
    var all := seq(|m.conns|, i requires 0 <= i < |m.conns| => m.conns[i].ip);
    DistinctCount(all);
    forall a ensures a in Elements(Ips(m, p)) <==> a in Elements(all) {
      if a in Elements(all) {
        var i :| 0 <= i < |all| && all[i] == a;
        CountPositiveIffIn(p, i);
        assert i in p;
        var j :| 0 <= j < |p| && p[j] == i;
        assert Ips(m, p)[j] == a;
      }
      if a in Elements(Ips(m, p)) {
        var j :| 0 <= j < |p| && Ips(m, p)[j] == a;
        assert all[p[j]] == a;
      }
    }
    assert Elements(Ips(m, p)) == Elements(all);
  }

  /** A write request that nobody interleaves gets min(r, n) distinct addresses, even from a stale cursor. */
  lemma ReplicaSetSize(m: Master, r: nat)
    requires m.conns != [] && DistinctAddresses(m)
    ensures |Replicas(m, r)| == if r <= |m.conns| then r else |m.conns|
  {
    ReplicasArePicked(m, r);
    PicksOfIncrements(m, r);
    CountsInOneRequest(m, r);
    if r <= |m.conns| {
      FewPicksAreDistinct(m, Picks(m, Increments(r)));
    } else {
      ManyPicksCoverAll(m, Picks(m, Increments(r)));
    }
  }

  lemma CountsInOneRequest(m: Master, r: nat)
    ensures forall x :: 0 <= x < |m.conns| ==>
      && (r <= |m.conns| ==> Count(Picks(m, Increments(r)), x) <= 1)
      && (r >= |m.conns| ==> Count(Picks(m, Increments(r)), x) >= 1)
  {
    PicksOfIncrements(m, r);
    forall x | 0 <= x < |m.conns|
      ensures r <= |m.conns| ==> Count(Picks(m, Increments(r)), x) <= 1
      ensures r >= |m.conns| ==> Count(Picks(m, Increments(r)), x) >= 1
    {
      RoundRobinIsFair(m, Increments(r), x);
      if r <= |m.conns| {
        AtMostOne(r, |m.conns|);
      }
      if r >= |m.conns| {
        AtLeastOne(r, |m.conns|);
      }
    }
  }

  lemma AtMostOne(k: nat, n: nat)
    requires k <= n && n > 0
    ensures (k + n - 1) / n <= 1
  {
    if k < n {
      QuotientBounds(k, 0, k, n);
    } else {
      QuotientBounds(k, 1, 0, n);
    }
  }

  lemma AtLeastOne(k: nat, n: nat)
    requires k >= n > 0
    ensures k / n >= 1
  {
    assert k == (k / n) * n + k % n;
  }

  /** With at least one connection and r >= 1, every returned address is a live connection's, and there is one. */
  lemma ReplicasAreLive(m: Master, r: nat)
    requires m.conns != [] && r >= 1
    ensures Replicas(m, r) != {}
    ensures forall a :: a in Replicas(m, r) ==> exists x :: x in m.conns && x.ip == a
  {
    ReplicasArePicked(m, r);
    PicksOfIncrements(m, r);
    var ips := Ips(m, Picks(m, Increments(r)));
    assert ips[0] in Replicas(m, r);
    forall a | a in Replicas(m, r) ensures exists x :: x in m.conns && x.ip == a {
      var j :| 0 <= j < |ips| && ips[j] == a;
      assert m.conns[Picks(m, Increments(r))[j]] in m.conns;
    }
  }

  // A write request whose locked increments other threads interleave

  /** The master after one increment per round, each preceded by whatever the others did since the last. */
  function Interleaved(m: Master, others: seq<seq<MasterOp>>): Master {
    if others == [] then m
    else Increment(RunFrom(Interleaved(m, others[..|others| - 1]), others[|others| - 1])).0
  }

  /** The addresses such a request collects. */
  function Collected(m: Master, others: seq<seq<MasterOp>>): set<Addr> {
    if others == [] then {}
    else
      var k := |others| - 1;
      match Increment(RunFrom(Interleaved(m, others[..k]), others[k])).1
      case Some(a) => Collected(m, others[..k]) + {a}
      case None => Collected(m, others[..k])
  }

  /** The request's increments and the others' operations in the order in which they take the lock. */
  function Schedule(others: seq<seq<MasterOp>>): seq<MasterOp> {
    if others == [] then [] else Schedule(others[..|others| - 1]) + others[|others| - 1] + [DoIncrement]
  }

  lemma {:induction false} RunsCompose(m: Master, a: seq<MasterOp>, b: seq<MasterOp>)
    ensures RunFrom(m, a + b) == RunFrom(RunFrom(m, a), b)
  {
    if b == [] {
      assert a + b == a;
    } else {
      var c, init := a + b, b[..|b| - 1];
      RunsCompose(m, a, init);
      assert c[..|c| - 1] == a + init && c[|c| - 1] == b[|b| - 1];
    }
  }

  /** An interleaved request is the run of that schedule, so fairness and cursor laws apply to it. */
  lemma {:induction false} InterleavedIsRun(m: Master, others: seq<seq<MasterOp>>)
    ensures Interleaved(m, others) == RunFrom(m, Schedule(others))
  {
    if others != [] {
      var init, last := others[..|others| - 1], others[|others| - 1];
      InterleavedIsRun(m, init);
      RunsCompose(m, Schedule(init), last);
      var before := Schedule(init) + last;
      assert Schedule(others) == before + [DoIncrement];
      assert (before + [DoIncrement])[..|before|] == before;
    }
  }

  /** The registry that round i of the request meets. */
  function Met(m: Master, others: seq<seq<MasterOp>>, i: nat): Master
    requires i < |others|
  {
    RunFrom(Interleaved(m, others[..i]), others[i])
  }

  ghost predicate HasAddress(m: Master, a: Addr) {
    exists x :: x in m.conns && x.ip == a
  }

  /** The address that round i gets, if any. */
  function ServedIn(m: Master, others: seq<seq<MasterOp>>, i: nat): Option<Addr>
    requires i < |others|
  {
    Increment(Met(m, others, i)).1
  }

  lemma EarlierRounds(m: Master, others: seq<seq<MasterOp>>, k: nat)
    requires k <= |others|
    ensures forall i :: 0 <= i < k ==> Met(m, others[..k], i) == Met(m, others, i)
  {
    assert forall i :: 0 <= i < k ==> others[..k][..i] == others[..i];
  }

  lemma EarlierServed(m: Master, others: seq<seq<MasterOp>>, k: nat)
    requires k <= |others|
    ensures forall i :: 0 <= i < k ==> ServedIn(m, others[..k], i) == ServedIn(m, others, i)
  {
    hide Met, Increment;
    EarlierRounds(m, others, k);
  }

  /** The request collects exactly what its rounds get. */
  lemma {:induction false} CollectedIff(m: Master, others: seq<seq<MasterOp>>, a: Addr)
    ensures a in Collected(m, others) <==> exists i :: 0 <= i < |others| && ServedIn(m, others, i) == Some(a)
    ensures |Collected(m, others)| <= |others|
  {
    if others != [] {
      var k := |others| - 1;
      CollectedIff(m, others[..k], a);
      LastRound(m, others);
      EarlierServed(m, others, k);
      hide Collected, ServedIn;
      if a in Collected(m, others[..k]) {
        var i :| 0 <= i < k && ServedIn(m, others[..k], i) == Some(a);
        assert ServedIn(m, others, i) == Some(a);
      }
      if i :| 0 <= i < |others| && ServedIn(m, others, i) == Some(a) {
        assert i < k ==> ServedIn(m, others[..k], i) == Some(a);
      }
    }
  }

  lemma LastRound(m: Master, others: seq<seq<MasterOp>>)
    requires others != []
    ensures var k := |others| - 1;
      var served := ServedIn(m, others, k);
      && Collected(m, others) == Collected(m, others[..k]) + (if served.None? then {} else {served.value})
      && |Collected(m, others)| <= |Collected(m, others[..k])| + 1
  {
  }

  /**
   Under any interleaving a request collects at most one address per round, each of them live in the round
   that collected it, and it collects nothing only if every round met an empty registry.
   */
  lemma CollectedWereLive(m: Master, others: seq<seq<MasterOp>>)
    ensures |Collected(m, others)| <= |others|
    ensures forall a :: a in Collected(m, others) ==> exists i :: 0 <= i < |others| && HasAddress(Met(m, others, i), a)
    ensures Collected(m, others) == {} <==> forall i :: 0 <= i < |others| ==> Met(m, others, i).conns == []
  {
    hide Collected, Met, HasAddress, Increment;
    CollectedIff(m, others, "");
    forall i | 0 <= i < |others|
      ensures ServedIn(m, others, i).None? <==> Met(m, others, i).conns == []
      ensures ServedIn(m, others, i).Some? ==> HasAddress(Met(m, others, i), ServedIn(m, others, i).value)
    {
      ServedIsLive(Met(m, others, i));
    }
    forall a ensures a in Collected(m, others) <==> exists i :: 0 <= i < |others| && ServedIn(m, others, i) == Some(a) {
      CollectedIff(m, others, a);
    }
    if i :| 0 <= i < |others| && Met(m, others, i).conns != [] {
      assert ServedIn(m, others, i) == Some(ServedIn(m, others, i).value);
      assert ServedIn(m, others, i).value in Collected(m, others);
    }
  }

  lemma ServedIsLive(m: Master)
    ensures Increment(m).1.None? <==> m.conns == []
    ensures Increment(m).1.Some? ==> HasAddress(m, Increment(m).1.value)
  {
    if m.conns != [] {
      assert m.conns[NextPosition(m.cursor, |m.conns|)] in m.conns;
    }
  }

  /** Without other threads this is the uninterrupted request. */
  lemma {:induction false} AloneIsUninterrupted(m: Master, others: seq<seq<MasterOp>>)
    requires forall i :: 0 <= i < |others| ==> others[i] == []
    ensures Interleaved(m, others) == AfterIncrements(m, |others|)
    ensures Collected(m, others) == Replicas(m, |others|)
  {
    if others != [] {
      AloneIsUninterrupted(m, others[..|others| - 1]);
    }
  }
}
