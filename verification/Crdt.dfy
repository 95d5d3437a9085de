/** The grow-only counter and the positive-negative counter built from two of them. */
module Crdt {
  import opened Bits
  import opened Lists

  type Id = string
  type Counts = map<Id, nat>

  /** A Go map yields zero for an absent key. */
  function Get(m: Counts, id: Id): nat {
    if id in m then m[id] else 0
  }

  /** An increment of one entry, wrapping at 64 bits. */
  function Bumped(m: Counts, id: Id, delta: nat): Counts {
    var v: nat := (Get(m, id) + delta) % WORD;
    m[id := v]
  }

  /** Merge writes only entries that grow, so it never adds a zero entry. */
  function Joined(a: Counts, b: Counts): Counts {
    map id | id in a.Keys + b.Keys && (id in a || b[id] > 0) :: Max(Get(a, id), Get(b, id))
  }

  ghost function Sum(m: Counts): nat {
    if m.Keys == {} then 0
    else
      var k :| k in m;
      m[k] + Sum(m - {k})
  }

  // ----- Sums do not depend on the order of iteration -----

  lemma {:induction false} SumTakes(m: Counts, k: Id)
    requires k in m
    ensures Sum(m) == m[k] + Sum(m - {k})
    decreases m.Keys
  {
    var j :| j in m && Sum(m) == m[j] + Sum(m - {j});
    if j != k {
      SumTakes(m - {j}, k);
      SumTakes(m - {k}, j);
      assert m - {j} - {k} == m - {k} - {j};
    }
  }

  /** Two maps that agree on every key, absent keys counting as zero, have the same sum. */
  lemma {:induction false} SumSame(a: Counts, b: Counts)
    requires forall id :: Get(a, id) == Get(b, id)
    ensures Sum(a) == Sum(b)
    decreases a.Keys + b.Keys
  {
    if a.Keys + b.Keys == {} {
      assert a.Keys <= a.Keys + b.Keys && b.Keys <= a.Keys + b.Keys;
    } else {
      var k :| k in a.Keys + b.Keys;
      var a', b' := a - {k}, b - {k};
      assert Get(a, k) == Get(b, k);
      forall id ensures Get(a', id) == Get(b', id) { assert Get(a, id) == Get(b, id); }
      assert k !in a'.Keys + b'.Keys;
      SumSame(a', b');
      if k in a { SumTakes(a, k); } else { assert a' == a; }
      if k in b { SumTakes(b, k); } else { assert b' == b; }
    }
  }

  lemma SumGrows(m: Counts, k: Id, d: nat)
    ensures Sum(m[k := Get(m, k) + d]) == Sum(m) + d
  {
    var m' := m[k := Get(m, k) + d];
    SumTakes(m', k);
    if k in m {
      SumTakes(m, k);
      assert m' - {k} == m - {k};
    } else {
      assert m' - {k} == m;
    }
  }

  // ----- Merge is a join -----

  lemma JoinedGet(a: Counts, b: Counts, id: Id)
    ensures Get(Joined(a, b), id) == Max(Get(a, id), Get(b, id))
  {}

  /** Commutative, associative and idempotent in every entry; an upper bound, and the least one. */
  lemma JoinLaws(a: Counts, b: Counts, c: Counts, id: Id)
    ensures Get(Joined(a, b), id) == Get(Joined(b, a), id)
    ensures Get(Joined(Joined(a, b), c), id) == Get(Joined(a, Joined(b, c)), id)
    ensures Joined(a, a) == a
    ensures Get(a, id) <= Get(Joined(a, b), id) && Get(b, id) <= Get(Joined(a, b), id)
    ensures Get(a, id) <= Get(c, id) && Get(b, id) <= Get(c, id) ==> Get(Joined(a, b), id) <= Get(c, id)
  {
    JoinedGet(a, b, id);
    JoinedGet(b, a, id);
    JoinedGet(Joined(a, b), c, id);
    JoinedGet(a, Joined(b, c), id);
    JoinedGet(b, c, id);
  }

  /** Every replica that merges the same two states counts the same, whichever way round. */
  lemma CountCommutes(a: Counts, b: Counts)
    ensures Sum(Joined(a, b)) == Sum(Joined(b, a))
  {
    forall id ensures Get(Joined(a, b), id) == Get(Joined(b, a), id) { JoinLaws(a, b, a, id); }
    SumSame(Joined(a, b), Joined(b, a));
  }

  /** The underlying maps, though, are equal both ways round exactly if each side also has the keys
      that the other holds at zero. */
  lemma MapsCommuteIff(a: Counts, b: Counts)
    ensures Joined(a, b) == Joined(b, a) <==>
            && (forall id :: id in a && a[id] == 0 ==> id in b)
            && (forall id :: id in b && b[id] == 0 ==> id in a)
  {
    var l, r := Joined(a, b), Joined(b, a);
    forall id | id in a && a[id] == 0 && id !in b ensures id in l && id !in r {}
    forall id | id in b && b[id] == 0 && id !in a ensures id in r && id !in l {}
    if (forall id :: id in a && a[id] == 0 ==> id in b) && (forall id :: id in b && b[id] == 0 ==> id in a) {
      assert l.Keys == r.Keys;
    }
  }

  // ----- The counters -----

  lemma AddWraps(a: nat, b: nat)
    ensures (a % WORD + b) % WORD == (a + b) % WORD
  {}

  class GCounter {
    const id: Id
    var counts: Counts

    constructor (id: Id)
      ensures this.id == id && counts == map[]
    {
      this.id := id;
      counts := map[];
    }

    method Inc(delta: nat)
      requires delta < WORD
      modifies this
      ensures counts == Bumped(old(counts), id, delta)
    {
      counts := counts[id := (Get(counts, id) + delta) % WORD];
    }

    /** The sum of all entries, wrapping at 64 bits, in whatever order the map is iterated. */
    method Count() returns (total: nat)
      ensures total == Sum(counts) % WORD
    {
      total := 0;
      var rest := counts;
      while rest.Keys != {}
        invariant (total + Sum(rest)) % WORD == Sum(counts) % WORD && total < WORD
        decreases rest.Keys
      {
        var k :| k in rest;
        SumTakes(rest, k);
        AddWraps(total + rest[k], Sum(rest - {k}));
        total := (total + rest[k]) % WORD;
        rest := rest - {k};
      }
    }

    /** Every entry becomes the larger of the two; a missing other changes nothing. */
    method Merge(other: GCounter?)
      modifies this
      ensures counts == if other == null then old(counts) else Joined(old(counts), old(other.counts))
    {
      if other == null {
        return;
      }
      var theirs := other.counts;
      ghost var mine := counts;
      var todo := theirs.Keys;
      while todo != {}
        invariant todo <= theirs.Keys
        invariant counts == Joined(mine, theirs - todo)
        decreases todo
      {
        var k :| k in todo;
        if theirs[k] > Get(counts, k) {
          counts := counts[k := theirs[k]];
        }
        MergeOne(mine, theirs, todo, k);
        todo := todo - {k};
      }
      assert theirs - {} == theirs;
    }
  }

  lemma MergeOne(mine: Counts, theirs: Counts, todo: set<Id>, k: Id)
    requires k in todo && todo <= theirs.Keys
    ensures var m := Joined(mine, theirs - todo);
            Joined(mine, theirs - (todo - {k})) == if theirs[k] > Get(m, k) then m[k := theirs[k]] else m
  {
    var done, next := theirs - todo, theirs - (todo - {k});
    assert next.Keys == done.Keys + {k};
  }

  class PNCounter {
    const p: GCounter
    const n: GCounter

    constructor (id: Id)
      ensures fresh(p) && fresh(n) && p != n
      ensures p.id == n.id == id && p.counts == n.counts == map[]
    {
      p := new GCounter(id);
      n := new GCounter(id);
    }

    method Inc(delta: nat)
      requires delta < WORD
      modifies p
      ensures p.counts == Bumped(old(p.counts), p.id, delta)
    {
      p.Inc(delta);
    }

    method Dec(delta: nat)
      requires delta < WORD
      modifies n
      ensures n.counts == Bumped(old(n.counts), n.id, delta)
    {
      n.Inc(delta);
    }

    /** Increments minus decrements in 64-bit arithmetic: exactly the true difference whenever that
        difference is a 64-bit integer, even if a sum alone is not, and never otherwise. */
    method Count() returns (r: int)
      ensures r == Wrapped(Sum(p.counts) - Sum(n.counts))
      ensures r == Sum(p.counts) - Sum(n.counts)
              <==> -(WORD / 2) <= Sum(p.counts) - Sum(n.counts) < WORD / 2
    {
      var a := p.Count();
      var b := n.Count();
      r := Wrapped(Signed(a) - Signed(b));
      WrapsOnce(Sum(p.counts), Sum(n.counts));
      WrappedIff(Sum(p.counts) - Sum(n.counts));
    }

    method Merge(other: PNCounter)
      requires {p, n} !! {other.p, other.n} && p != n
      modifies p, n
      ensures p.counts == Joined(old(p.counts), old(other.p.counts))
      ensures n.counts == Joined(old(n.counts), old(other.n.counts))
    {
      p.Merge(other.p);
      n.Merge(other.n);
    }
  }

  lemma WrapsOnce(a: nat, b: nat)
    ensures Wrapped(Signed(a % WORD) - Signed(b % WORD)) == Wrapped(a - b)
  {}

  // ----- Runs of one polarity among replicas with distinct ids -----

  datatype Op = Inc(at: Id, delta: nat) | Merge(at: Id, from: Id)

  ghost predicate Among(ops: seq<Op>, ids: set<Id>) {
    forall i :: 0 <= i < |ops| ==> ops[i].at in ids && (ops[i].Merge? ==> ops[i].from in ids)
  }

  /** The entries of every replica after a run, with 64-bit increments. */
  ghost function Run(ids: set<Id>, ops: seq<Op>): (s: map<Id, Counts>)
    requires Among(ops, ids)
    ensures s.Keys == ids
  {
    if ops == [] then map r | r in ids :: map[]
    else
      var s, op := Run(ids, ops[..|ops| - 1]), ops[|ops| - 1];
      match op
      case Inc(r, d) => s[r := Bumped(s[r], r, d)]
      case Merge(r, q) => s[r := Joined(s[r], s[q])]
  }

  /** What replica x was asked to add, in unbounded arithmetic. */
  function Asked(ops: seq<Op>, x: Id): nat {
    if ops == [] then 0
    else
      var op := ops[|ops| - 1];
      Asked(ops[..|ops| - 1], x) + (if op.Inc? && op.at == x then op.delta else 0)
  }

  function AskedOfAll(ops: seq<Op>): nat {
    if ops == [] then 0
    else
      var op := ops[|ops| - 1];
      AskedOfAll(ops[..|ops| - 1]) + (if op.Inc? then op.delta else 0)
  }

  ghost predicate NoOverflow(ops: seq<Op>, ids: set<Id>) {
    forall x :: x in ids ==> Asked(ops, x) < WORD
  }

  /** What replica r may hold: never more about a replica than that one was asked, and about itself
      exactly what it was asked. */
  ghost predicate Knows(m: Counts, ops: seq<Op>, ids: set<Id>, r: Id) {
    && (forall x :: x in ids ==> Get(m, x) <= Asked(ops, x))
    && Get(m, r) == Asked(ops, r)
    && m.Keys <= ids
  }

  ghost predicate Consistent(s: map<Id, Counts>, ops: seq<Op>, ids: set<Id>) {
    s.Keys == ids && forall r :: r in ids ==> Knows(s[r], ops, ids, r)
  }

  lemma AskedAppend(ops: seq<Op>, op: Op, x: Id)
    ensures Asked(ops + [op], x) == Asked(ops, x) + (if op.Inc? && op.at == x then op.delta else 0)
    ensures AskedOfAll(ops + [op]) == AskedOfAll(ops) + (if op.Inc? then op.delta else 0)
  {
    assert (ops + [op])[..|ops|] == ops;
  }

  lemma BumpedGet(m: Counts, id: Id, d: nat, x: Id)
    requires Get(m, id) + d < WORD
    ensures Get(Bumped(m, id, d), x) == Get(m, x) + (if x == id then d else 0)
  {
    assert (Get(m, id) + d) % WORD == Get(m, id) + d;
  }

  lemma OwnInc(m: Counts, ops: seq<Op>, ids: set<Id>, r: Id, d: nat)
    requires Knows(m, ops, ids, r) && r in ids && Asked(ops, r) + d < WORD
    ensures Knows(Bumped(m, r, d), ops + [Inc(r, d)], ids, r)
  {
    forall x ensures Get(Bumped(m, r, d), x) == Get(m, x) + (if x == r then d else 0) { BumpedGet(m, r, d, x); }
    forall x { AskedAppend(ops, Inc(r, d), x); }
  }

  lemma OthersInc(m: Counts, ops: seq<Op>, ids: set<Id>, q: Id, op: Op)
    requires Knows(m, ops, ids, q) && (op.Inc? ==> op.at != q)
    ensures Knows(m, ops + [op], ids, q)
  {
    forall x { AskedAppend(ops, op, x); }
  }

  lemma OwnMerge(a: Counts, b: Counts, ops: seq<Op>, ids: set<Id>, r: Id, q: Id)
    requires Knows(a, ops, ids, r) && Knows(b, ops, ids, q) && r in ids
    ensures Knows(Joined(a, b), ops + [Merge(r, q)], ids, r)
  {
    forall x ensures Get(Joined(a, b), x) == Max(Get(a, x), Get(b, x)) { JoinedGet(a, b, x); }
    forall x { AskedAppend(ops, Merge(r, q), x); }
  }

  lemma {:induction false} RunConsistent(ids: set<Id>, ops: seq<Op>)
    requires Among(ops, ids) && NoOverflow(ops, ids)
    ensures Consistent(Run(ids, ops), ops, ids)
  {
    if ops == [] {
    } else {
      var before, op := ops[..|ops| - 1], ops[|ops| - 1];
      assert before + [op] == ops;
      forall x { AskedAppend(before, op, x); }
      RunConsistent(ids, before);
      var s := Run(ids, before);
      forall r | r in ids ensures Knows(Run(ids, ops)[r], ops, ids, r) {
        if r != op.at {
          OthersInc(s[r], before, ids, r, op);
        } else if op.Inc? {
          OwnInc(s[r], before, ids, r, op.delta);
        } else {
          OwnMerge(s[r], s[op.from], before, ids, r, op.from);
        }
      }
    }
  }

  ghost function Exact(ids: set<Id>, ops: seq<Op>): Counts {
    map x | x in ids :: Asked(ops, x)
  }

  lemma {:induction false} SumZero(m: Counts)
    requires forall k :: k in m ==> m[k] == 0
    ensures Sum(m) == 0
    decreases m.Keys
  {
    if m.Keys == {} {
    } else {
      var k :| k in m;
      SumTakes(m, k);
      SumZero(m - {k});
    }
  }

  lemma {:induction false} ExactTotal(ids: set<Id>, ops: seq<Op>)
    requires Among(ops, ids)
    ensures Sum(Exact(ids, ops)) == AskedOfAll(ops)
  {
    if ops == [] {
      SumZero(Exact(ids, ops));
    } else {
      var before, op := ops[..|ops| - 1], ops[|ops| - 1];
      ExactTotal(ids, before);
      var e := Exact(ids, before);
      if op.Inc? {
        SumGrows(e, op.at, op.delta);
        assert Exact(ids, ops) == e[op.at := Get(e, op.at) + op.delta];
      } else {
        assert Exact(ids, ops) == e;
      }
    }
  }

  /** Replica r has seen each replica's own entry. */
  ghost predicate Absorbed(s: map<Id, Counts>, ids: set<Id>, r: Id)
    requires s.Keys == ids && r in ids
  {
    forall x :: x in ids ==> Get(s[r], x) >= Get(s[x], x)
  }

  /** In every run, a replica that has absorbed all the others counts exactly everything asked of
      anyone; so any two such replicas agree. */
  lemma AbsorbedCountsAll(ids: set<Id>, ops: seq<Op>, r: Id)
    requires Among(ops, ids) && NoOverflow(ops, ids) && r in ids
    requires Absorbed(Run(ids, ops), ids, r)
    ensures Sum(Run(ids, ops)[r]) == AskedOfAll(ops)
  {
    RunConsistent(ids, ops);
    var m := Run(ids, ops)[r];
    forall id ensures Get(m, id) == Get(Exact(ids, ops), id) {}
    SumSame(m, Exact(ids, ops));
    ExactTotal(ids, ops);
  }

  function MergeFrom(r: Id, qs: seq<Id>): seq<Op> {
    seq(|qs|, i requires 0 <= i < |qs| => Merge(r, qs[i]))
  }

  lemma {:induction false} MergesAskNothing(ids: set<Id>, ops: seq<Op>, r: Id, qs: seq<Id>)
    requires Among(ops, ids) && r in ids && Elements(qs) <= ids
    ensures Among(ops + MergeFrom(r, qs), ids)
    ensures AskedOfAll(ops + MergeFrom(r, qs)) == AskedOfAll(ops)
    ensures forall x :: Asked(ops + MergeFrom(r, qs), x) == Asked(ops, x)
  {
    if qs == [] {
      assert ops + MergeFrom(r, qs) == ops;
    } else {
      var init, q := qs[..|qs| - 1], qs[|qs| - 1];
      MergeFromSnoc(ops, r, qs);
      MergesAskNothing(ids, ops, r, init);
      forall x { AskedAppend(ops + MergeFrom(r, init), Merge(r, q), x); }
    }
  }

  lemma RunSync(ids: set<Id>, ops: seq<Op>, r: Id, q: Id, x: Id)
    requires Among(ops, ids) && r in ids && q in ids
    ensures Among(ops + [Merge(r, q)], ids)
    ensures var s := Run(ids, ops);
            Get(Run(ids, ops + [Merge(r, q)])[r], x) == Max(Get(s[r], x), Get(s[q], x))
  {
    assert (ops + [Merge(r, q)])[..|ops|] == ops;
    JoinedGet(Run(ids, ops)[r], Run(ids, ops)[q], x);
  }

  lemma MergeFromSnoc(ops: seq<Op>, r: Id, qs: seq<Id>)
    requires qs != []
    ensures ops + MergeFrom(r, qs) == ops + MergeFrom(r, qs[..|qs| - 1]) + [Merge(r, qs[|qs| - 1])]
    ensures Elements(qs[..|qs| - 1]) <= Elements(qs) && qs[|qs| - 1] in Elements(qs)
    ensures forall x :: x in qs ==> x in qs[..|qs| - 1] || x == qs[|qs| - 1]
  {}

  lemma {:induction false} MergesAccumulate(ids: set<Id>, ops: seq<Op>, r: Id, qs: seq<Id>, x: Id)
    requires Among(ops, ids) && NoOverflow(ops, ids) && r in ids && Elements(qs) <= ids && x in qs
    requires Among(ops + MergeFrom(r, qs), ids)
    ensures Get(Run(ids, ops + MergeFrom(r, qs))[r], x) >= Asked(ops, x)
  {
    var init, q := qs[..|qs| - 1], qs[|qs| - 1];
    MergeFromSnoc(ops, r, qs);
    MergesAskNothing(ids, ops, r, init);
    RunSync(ids, ops + MergeFrom(r, init), r, q, x);
    if x == q {
      RunConsistent(ids, ops + MergeFrom(r, init));
    } else {
      MergesAccumulate(ids, ops, r, init, x);
    }
  }

  /** After any run, a replica that merges from every replica once, in any order, counts everything
      asked of anyone. */
  lemma MergingAllConverges(ids: set<Id>, ops: seq<Op>, r: Id, qs: seq<Id>)
    requires Among(ops, ids) && NoOverflow(ops, ids) && r in ids && Elements(qs) == ids
    ensures Among(ops + MergeFrom(r, qs), ids)
    ensures Sum(Run(ids, ops + MergeFrom(r, qs))[r]) == AskedOfAll(ops)
  {
    var all := ops + MergeFrom(r, qs);
    MergesAskNothing(ids, ops, r, qs);
    RunConsistent(ids, all);
    forall x | x in ids ensures Get(Run(ids, all)[r], x) >= Get(Run(ids, all)[x], x) {
      assert x in Elements(qs);
      MergesAccumulate(ids, ops, r, qs, x);
    }
    AbsorbedCountsAll(ids, all, r);
  }

  // ----- Increments and decrements together -----

  datatype PNOp = Up(at: Id, delta: nat) | Down(at: Id, delta: nat) | Sync(at: Id, from: Id)

  /** The run as the counter of increments sees it, or the counter of decrements. */
  function Side(ops: seq<PNOp>, ups: bool): seq<Op> {
    if ops == [] then []
    else
      var rest := Side(ops[..|ops| - 1], ups);
      match ops[|ops| - 1]
      case Up(r, d) => if ups then rest + [Inc(r, d)] else rest
      case Down(r, d) => if ups then rest else rest + [Inc(r, d)]
      case Sync(r, q) => rest + [Merge(r, q)]
  }

  function Net(ops: seq<PNOp>): int {
    if ops == [] then 0
    else
      var net := Net(ops[..|ops| - 1]);
      match ops[|ops| - 1]
      case Up(_, d) => net + d
      case Down(_, d) => net - d
      case Sync(_, _) => net
  }

  lemma {:induction false} NetIsDifference(ops: seq<PNOp>)
    ensures Net(ops) == AskedOfAll(Side(ops, true)) - AskedOfAll(Side(ops, false))
  {
    if ops == [] {
    } else {
      var before, op := ops[..|ops| - 1], ops[|ops| - 1];
      NetIsDifference(before);
      match op
      case Up(r, d) => AskedAppend(Side(before, true), Inc(r, d), r);
      case Down(r, d) => AskedAppend(Side(before, false), Inc(r, d), r);
      case Sync(r, q) =>
        AskedAppend(Side(before, true), Merge(r, q), r);
        AskedAppend(Side(before, false), Merge(r, q), r);
    }
  }

  /** In every run without overflow of a single entry, a replica that has absorbed all others reports
      increments minus decrements exactly if that number is a 64-bit integer. */
  lemma PNCountsNet(ids: set<Id>, ops: seq<PNOp>, r: Id)
    requires Among(Side(ops, true), ids) && NoOverflow(Side(ops, true), ids)
    requires Among(Side(ops, false), ids) && NoOverflow(Side(ops, false), ids)
    requires r in ids
    requires Absorbed(Run(ids, Side(ops, true)), ids, r) && Absorbed(Run(ids, Side(ops, false)), ids, r)
    ensures var p, n := Run(ids, Side(ops, true))[r], Run(ids, Side(ops, false))[r];
            && Sum(p) - Sum(n) == Net(ops)
            && (Wrapped(Sum(p) - Sum(n)) == Net(ops) <==> -(WORD / 2) <= Net(ops) < WORD / 2)
  {
    var p, n := Run(ids, Side(ops, true))[r], Run(ids, Side(ops, false))[r];
    assert Sum(p) - Sum(n) == Net(ops) by {
      AbsorbedCountsAll(ids, Side(ops, true), r);
      AbsorbedCountsAll(ids, Side(ops, false), r);
      NetIsDifference(ops);
    }
    WrappedIff(Net(ops));
  }
}
