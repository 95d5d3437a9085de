/** The gather phase of the sharded vector search: a bounded min-heap keeps the best results, which
    are then popped into a slice from back to front. */
module ScatterGather {
  import opened Lists
  import opened MinHeap

  datatype Result = Result(id: string, score: real)

  /** How many results score at least t. */
  function CountGE(rs: seq<Result>, t: real): nat {
    if rs == [] then 0 else CountGE(rs[..|rs| - 1], t) + (if rs[|rs| - 1].score >= t then 1 else 0)
  }

  /** top holds k best results of pool, or all of them: at every level t it has as many results as the
      pool has, but at most k; and it holds nothing that is not in the pool. */
  ghost predicate BestOf(top: seq<Result>, k: nat, pool: seq<Result>) {
    && |top| == Min(k, |pool|)
    && multiset(top) <= multiset(pool)
    && forall t :: CountGE(top, t) == Min(k, CountGE(pool, t))
  }

  ghost predicate Descending(rs: seq<Result>) {
    forall i, j :: 0 <= i < j < |rs| ==> rs[i].score >= rs[j].score
  }

  // ----- Counting -----

  lemma CountAppend(rs: seq<Result>, r: Result, t: real)
    ensures CountGE(rs + [r], t) == CountGE(rs, t) + (if r.score >= t then 1 else 0)
  {
    assert (rs + [r])[..|rs|] == rs;
  }

  lemma {:induction false} CountConcat(a: seq<Result>, b: seq<Result>, t: real)
    ensures CountGE(a + b, t) == CountGE(a, t) + CountGE(b, t)
  {
    if b == [] {
      assert a + b == a;
    } else {
      assert a + b == (a + b[..|b| - 1]) + [b[|b| - 1]];
      CountAppend(a + b[..|b| - 1], b[|b| - 1], t);
      CountConcat(a, b[..|b| - 1], t);
    }
  }

  lemma {:induction false} CountBound(rs: seq<Result>, t: real)
    ensures CountGE(rs, t) <= |rs|
    ensures (forall r :: r in rs ==> r.score >= t) ==> CountGE(rs, t) == |rs|
    ensures (exists r :: r in rs && r.score < t) ==> CountGE(rs, t) < |rs|
  {
    if rs == [] {
    } else {
      var init, last := rs[..|rs| - 1], rs[|rs| - 1];
      CountBound(init, t);
      assert rs == init + [last];
    }
  }

  lemma CountRemove(rs: seq<Result>, i: nat, t: real)
    requires i < |rs|
    ensures CountGE(rs, t) == CountGE(rs[..i] + rs[i + 1..], t) + (if rs[i].score >= t then 1 else 0)
  {
    assert rs == rs[..i] + [rs[i]] + rs[i + 1..];
    CountConcat(rs[..i] + [rs[i]], rs[i + 1..], t);
    CountAppend(rs[..i], rs[i], t);
    CountConcat(rs[..i], rs[i + 1..], t);
  }

  lemma TakeOut<T>(b: seq<T>, x: T) returns (i: nat)
    requires x in multiset(b)
    ensures i < |b| && b[i] == x && multiset(b[..i] + b[i + 1..]) == multiset(b) - multiset{x}
  {
    i :| 0 <= i < |b| && b[i] == x;
    assert b == b[..i] + [x] + b[i + 1..];
  }

  /** Counts depend only on what is there, and grow with it. */
  lemma {:induction false} CountMonotone(a: seq<Result>, b: seq<Result>, t: real)
    requires multiset(a) <= multiset(b)
    ensures CountGE(a, t) <= CountGE(b, t)
    decreases |a|
  {
    if a == [] {
    } else {
      var init, last := a[..|a| - 1], a[|a| - 1];
      assert a == init + [last];
      assert multiset(a) == multiset(init) + multiset{last};
      var i := TakeOut(b, last);
      CountRemove(b, i, t);
      CountMonotone(init, b[..i] + b[i + 1..], t);
    }
  }

  lemma CountPermuted(a: seq<Result>, b: seq<Result>, t: real)
    requires multiset(a) == multiset(b)
    ensures CountGE(a, t) == CountGE(b, t)
  {
    CountMonotone(a, b, t);
    CountMonotone(b, a, t);
  }

  // ----- What best results mean -----

  /** Everything left out scores no better than anything kept. */
  lemma LeftOutIsNoBetter(top: seq<Result>, k: nat, pool: seq<Result>, out: Result, kept: Result)
    requires BestOf(top, k, pool)
    requires out in multiset(pool) - multiset(top) && kept in top
    ensures out.score <= kept.score
  {
    var t := out.score;
    CountAppend(top, out, t);
    assert multiset(top + [out]) == multiset(top) + multiset{out};
    CountMonotone(top + [out], pool, t);
    CountBound(top, t);
  }

  /** In a descending list, the entry at index i reaches t exactly if more than i entries do. */
  lemma CountInDescending(rs: seq<Result>, i: nat, t: real)
    requires Descending(rs) && i < |rs|
    ensures rs[i].score >= t <==> CountGE(rs, t) > i
  {
    if rs[i].score >= t {
      var head := rs[..i + 1];
      assert forall r :: r in head ==> r.score >= t;
      CountBound(head, t);
      SplitCount(rs, i + 1, t);
    } else {
      var tail := rs[i..];
      assert forall r :: r in tail ==> r.score < t;
      CountBound(rs[..i], t);
      CountNone(tail, t);
      SplitCount(rs, i, t);
    }
  }

  lemma SplitCount(rs: seq<Result>, i: nat, t: real)
    requires i <= |rs|
    ensures CountGE(rs, t) == CountGE(rs[..i], t) + CountGE(rs[i..], t)
  {
    assert rs == rs[..i] + rs[i..];
    CountConcat(rs[..i], rs[i..], t);
  }

  lemma {:induction false} CountNone(rs: seq<Result>, t: real)
    ensures (forall r :: r in rs ==> r.score < t) ==> CountGE(rs, t) == 0
  {
    if rs == [] {
    } else {
      CountNone(rs[..|rs| - 1], t);
      assert rs == rs[..|rs| - 1] + [rs[|rs| - 1]];
    }
  }

  /** Two descending selections of the k best from pools with the same content have the same scores:
      the order in which results arrive does not matter. */
  lemma ScoresAreDetermined(a: seq<Result>, b: seq<Result>, k: nat, pool: seq<Result>, pool': seq<Result>, i: nat)
    requires BestOf(a, k, pool) && BestOf(b, k, pool') && Descending(a) && Descending(b)
    requires multiset(pool) == multiset(pool')
    requires i < |a|
    ensures |b| == |a| && a[i].score == b[i].score
  {
    assert |pool| == |multiset(pool)| == |pool'|;
    CountPermuted(pool, pool', a[i].score);
    CountPermuted(pool, pool', b[i].score);
    CountInDescending(a, i, a[i].score);
    CountInDescending(a, i, b[i].score);
    CountInDescending(b, i, a[i].score);
    CountInDescending(b, i, b[i].score);
  }

  function Concat(shards: seq<seq<Result>>): seq<Result> {
    if shards == [] then [] else Concat(shards[..|shards| - 1]) + shards[|shards| - 1]
  }

  ghost predicate ShardsAnswered(answers: seq<seq<Result>>, k: nat, data: seq<seq<Result>>) {
    |answers| == |data| && forall i :: 0 <= i < |data| ==> BestOf(answers[i], k, data[i])
  }

  lemma {:induction false} ShardCounts(answers: seq<seq<Result>>, k: nat, data: seq<seq<Result>>, t: real)
    requires ShardsAnswered(answers, k, data)
    ensures CountGE(Concat(answers), t) <= CountGE(Concat(data), t)
    ensures Min(k, CountGE(Concat(answers), t)) == Min(k, CountGE(Concat(data), t))
  {
    if data == [] {
    } else {
      var l := |data| - 1;
      ShardCounts(answers[..l], k, data[..l], t);
      CountConcat(Concat(answers[..l]), answers[l], t);
      CountConcat(Concat(data[..l]), data[l], t);
      assert CountGE(answers[l], t) == Min(k, CountGE(data[l], t));
    }
  }

  lemma {:induction false} ShardSizes(answers: seq<seq<Result>>, k: nat, data: seq<seq<Result>>)
    requires ShardsAnswered(answers, k, data)
    ensures |Concat(answers)| <= |Concat(data)|
    ensures Min(k, |Concat(answers)|) == Min(k, |Concat(data)|)
    ensures multiset(Concat(answers)) <= multiset(Concat(data))
  {
    if data == [] {
    } else {
      ShardSizes(answers[..|data| - 1], k, data[..|data| - 1]);
    }
  }

  /** If every shard answered with the k best of its own data, the k best of the answers are the k best
      of all the data. */
  lemma ShardsCompose(top: seq<Result>, k: nat, answers: seq<seq<Result>>, data: seq<seq<Result>>)
    requires ShardsAnswered(answers, k, data) && BestOf(top, k, Concat(answers))
    ensures BestOf(top, k, Concat(data))
  {
    forall t ensures CountGE(top, t) == Min(k, CountGE(Concat(data), t)) {
      ShardCounts(answers, k, data, t);
    }
    ShardSizes(answers, k, data);
  }

  // ----- One result at a time -----

  lemma AddWithRoom(top: seq<Result>, k: nat, pool: seq<Result>, r: Result, top': seq<Result>)
    requires BestOf(top, k, pool) && |top| < k
    requires multiset(top') == multiset(top) + multiset{r} && |top'| == |top| + 1
    ensures BestOf(top', k, pool + [r])
  {
    forall t ensures CountGE(top', t) == Min(k, CountGE(pool + [r], t)) {
      CountPermuted(top', top + [r], t);
      CountAppend(top, r, t);
      CountAppend(pool, r, t);
      CountBound(pool, t);
    }
  }

  lemma AddByReplacing(
    top: seq<Result>, k: nat, pool: seq<Result>, r: Result, worst: Result, rest: seq<Result>, top': seq<Result>)
    requires BestOf(top, k, pool) && |top| == k
    requires worst in top && forall x :: x in top ==> worst.score <= x.score
    requires multiset(top) == multiset(rest + [worst])
    requires r.score > worst.score && multiset(top') == multiset(rest + [r]) && |top'| == |top|
    ensures BestOf(top', k, pool + [r])
  {
    forall t ensures CountGE(top', t) == Min(k, CountGE(pool + [r], t)) {
      CountPermuted(top, rest + [worst], t);
      CountPermuted(top', rest + [r], t);
      CountAppend(rest, worst, t);
      CountAppend(rest, r, t);
      CountAppend(pool, r, t);
      CountBound(top, t);
      CountBound(pool, t);
    }
    assert multiset(rest) <= multiset(top) by {
      assert multiset(rest + [worst]) == multiset(rest) + multiset{worst};
    }
    assert multiset(top') == multiset(rest) + multiset{r};
  }

  lemma SkipWorse(top: seq<Result>, k: nat, pool: seq<Result>, r: Result)
    requires BestOf(top, k, pool) && |top| == k && forall x :: x in top ==> r.score <= x.score
    ensures BestOf(top, k, pool + [r])
  {
    forall t ensures CountGE(top, t) == Min(k, CountGE(pool + [r], t)) {
      CountAppend(pool, r, t);
      CountBound(top, t);
      CountBound(pool, t);
    }
  }

  // ----- The heap's content as results -----

  function Values(items: seq<Item<Result>>): seq<Result> {
    if items == [] then [] else Values(items[..|items| - 1]) + [items[|items| - 1].value]
  }

  ghost predicate Genuine(items: seq<Item<Result>>) {
    forall x :: x in items ==> x.score == x.value.score
  }

  lemma {:induction false} ValuesCount(items: seq<Item<Result>>, r: Result)
    requires Genuine(items)
    ensures |Values(items)| == |items|
    ensures multiset(Values(items))[r] == multiset(items)[Item(r, r.score)]
  {
    if items == [] {
    } else {
      var init, last := items[..|items| - 1], items[|items| - 1];
      assert items == init + [last];
      assert forall x :: x in init ==> x in items;
      assert last in items && last == Item(last.value, last.value.score);
      ValuesCount(init, r);
    }
  }

  lemma ValuesMember(items: seq<Item<Result>>, r: Result)
    requires Genuine(items)
    ensures r in Values(items) <==> Item(r, r.score) in items
  {
    ValuesCount(items, r);
    assert r in Values(items) <==> multiset(Values(items))[r] > 0;
    assert Item(r, r.score) in items <==> multiset(items)[Item(r, r.score)] > 0;
  }

  lemma ValuesAdd(a: seq<Item<Result>>, r: Result, b: seq<Item<Result>>)
    requires Genuine(a) && multiset(b) == multiset(a) + multiset{Item(r, r.score)}
    ensures Genuine(b) && |b| == |a| + 1 && multiset(Values(b)) == multiset(Values(a)) + multiset{r}
  {
    assert |multiset(b)| == |b| && |multiset(a)| == |a|;
    forall x | x in b ensures x.score == x.value.score {
      assert x in multiset(b);
      assert x in multiset(a) || x == Item(r, r.score);
    }
    forall y: Result ensures multiset(Values(b))[y] == (multiset(Values(a)) + multiset{r})[y] {
      ValuesCount(a, y);
      ValuesCount(b, y);
    }
  }

  // ----- The gather loop -----

  /** A limit below one admits results with a positive score only and then acts like a limit of one. */
  function Bound(limit: int): nat {
    if limit < 1 then 1 else limit
  }

  function Eligible(limit: int, rs: seq<Result>): seq<Result> {
    if rs == [] then []
    else
      var init, last := Eligible(limit, rs[..|rs| - 1]), rs[|rs| - 1];
      if limit >= 1 || last.score > 0.0 then init + [last] else init
  }

  ghost predicate Holds(items: seq<Item<Result>>, limit: int, seen: seq<Result>) {
    && Genuine(items)
    && |Values(items)| == |items|
    && BestOf(Values(items), Bound(limit), Eligible(limit, seen))
    && (limit < 1 ==> forall x :: x in items ==> x.score > 0.0)
  }

  lemma EligibleAppend(limit: int, seen: seq<Result>, res: Result)
    ensures Eligible(limit, seen + [res])
         == if limit >= 1 || res.score > 0.0 then Eligible(limit, seen) + [res] else Eligible(limit, seen)
  {
    assert (seen + [res])[..|seen|] == seen;
  }

  /** One pass of the inner loop. */
  method Offer(h: Heap<Result>, res: Result, limit: int, ghost seen: seq<Result>)
    requires h.Valid() && Holds(h.items, limit, seen)
    modifies h
    ensures h.Valid() && Holds(h.items, limit, seen + [res])
  {
    ghost var before := h.items;
    if |h.items| < limit {
      h.PushItem(res, res.score);
      OfferAdded(before, limit, seen, res, h.items);
    } else {
      var top := h.Peek();
      var minScore := if top.Some? then top.value.score else 0.0;
      if res.score > minScore {
        var popped := h.PopItem();
        ghost var rest := h.items;
        h.PushItem(res, res.score);
        if popped.None? {
          OfferAdded(before, limit, seen, res, h.items);
        } else {
          OfferReplaced(before, limit, seen, res, popped.value, rest, h.items);
        }
      } else {
        OfferSkipped(before, limit, seen, res);
      }
    }
  }

  lemma OfferAdded(before: seq<Item<Result>>, limit: int, seen: seq<Result>, res: Result, after: seq<Item<Result>>)
    requires Holds(before, limit, seen) && |before| < Bound(limit)
    requires multiset(after) == multiset(before) + multiset{Item(res, res.score)}
    requires limit >= 1 || res.score > 0.0
    ensures Holds(after, limit, seen + [res])
  {
    EligibleAppend(limit, seen, res);
    ValuesAdd(before, res, after);
    ValuesCount(after, res);
    AddWithRoom(Values(before), Bound(limit), Eligible(limit, seen), res, Values(after));
    assert forall x :: x in after ==> x in multiset(after);
  }

  lemma SubGenuine(rest: seq<Item<Result>>, before: seq<Item<Result>>)
    requires multiset(rest) <= multiset(before) && Genuine(before)
    ensures Genuine(rest) && forall x :: x in rest ==> x in before
  {
    forall x | x in rest ensures x in before { assert x in multiset(rest) && x in multiset(before); }
  }

  lemma ReplacedValues(before: seq<Item<Result>>, res: Result, popped: Item<Result>,
                       rest: seq<Item<Result>>, after: seq<Item<Result>>)
    requires Genuine(before) && popped in before
    requires multiset(rest) == multiset(before) - multiset{popped}
    requires multiset(after) == multiset(rest) + multiset{Item(res, res.score)}
    ensures Genuine(after) && |after| == |before| == |Values(before)| == |Values(after)|
    ensures multiset(Values(before)) == multiset(Values(rest) + [popped.value])
    ensures multiset(Values(after)) == multiset(Values(rest) + [res])
    ensures forall x :: x in after ==> x in before || x == Item(res, res.score)
  {
    SubGenuine(rest, before);
    assert popped in multiset(before);
    assert multiset(before) == multiset(rest) + multiset{popped};
    ValuesAdd(rest, popped.value, before);
    ValuesAdd(rest, res, after);
    ValuesCount(before, res);
    ValuesCount(after, res);
    forall x | x in after ensures x in before || x == Item(res, res.score) {
      assert x in multiset(after);
      assert x in multiset(rest) || x == Item(res, res.score);
    }
  }

  lemma OfferReplaced(before: seq<Item<Result>>, limit: int, seen: seq<Result>, res: Result,
                      popped: Item<Result>, rest: seq<Item<Result>>, after: seq<Item<Result>>)
    requires Holds(before, limit, seen) && |before| >= limit
    requires popped in before && multiset(rest) == multiset(before) - multiset{popped}
    requires res.score > popped.score && forall x :: x in before ==> popped.score <= x.score
    requires multiset(after) == multiset(rest) + multiset{Item(res, res.score)}
    ensures Holds(after, limit, seen + [res])
  {
    EligibleAppend(limit, seen, res);
    ReplacedValues(before, res, popped, rest, after);
    ValuesMember(before, popped.value);
    forall x | x in Values(before) ensures popped.value.score <= x.score { ValuesMember(before, x); }
    AddByReplacing(Values(before), Bound(limit), Eligible(limit, seen), res, popped.value, Values(rest), Values(after));
  }

  lemma OfferSkipped(before: seq<Item<Result>>, limit: int, seen: seq<Result>, res: Result)
    requires Holds(before, limit, seen) && |before| >= limit
    requires before == [] ==> res.score <= 0.0
    requires forall x :: x in before ==> res.score <= x.score
    ensures Holds(before, limit, seen + [res])
  {
    EligibleAppend(limit, seen, res);
    forall x | x in Values(before) ensures res.score <= x.score { ValuesMember(before, x); }
    if before != [] {
      SkipWorse(Values(before), Bound(limit), Eligible(limit, seen), res);
    }
  }

  /** tail, the filled part of the slice, is in order and no better than what is left in the heap;
      together they are all the results. */
  ghost predicate Draining(items: seq<Item<Result>>, tail: seq<Result>, all: multiset<Result>) {
    && Genuine(items) && Descending(tail)
    && (forall y, x :: y in tail && x in items ==> y.score <= x.score)
    && multiset(tail) + multiset(Values(items)) == all
  }

  lemma PoppedContent(before: seq<Item<Result>>, rest: seq<Item<Result>>, p: Item<Result>)
    requires Genuine(before) && p in before && multiset(rest) == multiset(before) - multiset{p}
    ensures Genuine(rest) && (forall x :: x in rest ==> x in before)
    ensures multiset(Values(before)) == multiset(Values(rest)) + multiset{p.value}
  {
    SubGenuine(rest, before);
    assert p in multiset(before);
    assert multiset(before) == multiset(rest) + multiset{p};
    ValuesAdd(rest, p.value, before);
  }

  lemma PoppedOrder(before: seq<Item<Result>>, p: Item<Result>, tail: seq<Result>)
    requires Genuine(before) && Descending(tail) && p in before
    requires forall y, x :: y in tail && x in before ==> y.score <= x.score
    ensures Descending([p.value] + tail)
  {
    var t := [p.value] + tail;
    assert p.score == p.value.score;
    forall i, j | 0 <= i < j < |t| ensures t[i].score >= t[j].score {
      assert t[j] in tail;
    }
  }

  lemma Popped(
    before: seq<Item<Result>>, rest: seq<Item<Result>>, p: Item<Result>, tail: seq<Result>, all: multiset<Result>)
    requires Draining(before, tail, all)
    requires p in before && multiset(rest) == multiset(before) - multiset{p}
    requires forall x :: x in before ==> p.score <= x.score
    ensures Draining(rest, [p.value] + tail, all)
  {
    PoppedContent(before, rest, p);
    PoppedOrder(before, p, tail);
    assert multiset([p.value] + tail) == multiset{p.value} + multiset(tail);
  }

  /** Pops everything into a slice from back to front: best first. */
  method Drain(h: Heap<Result>) returns (final: array<Result>)
    requires h.Valid() && Genuine(h.items)
    modifies h
    ensures fresh(final)
    ensures Descending(final[..]) && multiset(final[..]) == multiset(Values(old(h.items)))
  {
    ghost var all := multiset(Values(h.items));
    var n := |h.items|;
    final := new Result[n](_ => Result("", 0.0));
    ghost var tail: seq<Result> := [];
    for i := n downto 0
      invariant h.Valid() && |h.items| == i && final[i..] == tail
      invariant Draining(h.items, tail, all)
    {
      ghost var before := h.items;
      var p := h.PopItem();
      final[i] := p.value.value;
      Popped(before, h.items, p.value, tail, all);
      assert final[i..] == [p.value.value] + final[i + 1..];
      tail := [p.value.value] + tail;
    }
    assert final[..] == final[0..];
    assert Values(h.items) == [];
  }

  lemma OneMore<T>(a: seq<T>, b: seq<T>, r: nat)
    requires r < |b|
    ensures a + b[..r + 1] == a + b[..r] + [b[r]]
  {}

  /** The inner loop, over the answer of one shard. */
  method CollectShard(h: Heap<Result>, shard: seq<Result>, limit: int, ghost start: seq<Result>)
    requires h.Valid() && Holds(h.items, limit, start)
    modifies h
    ensures h.Valid() && Holds(h.items, limit, start + shard)
  {
    ghost var seen := start;
    assert seen == start + shard[..0];
    for r := 0 to |shard|
      invariant seen == start + shard[..r]
      invariant h.Valid() && Holds(h.items, limit, seen)
    {
      Offer(h, shard[r], limit, seen);
      OneMore(start, shard, r);
      seen := seen + [shard[r]];
    }
    assert seen == start + shard;
  }

  /** The outer loop, over the answers in arrival order. */
  method Collect(h: Heap<Result>, shards: seq<seq<Result>>, limit: int)
    requires h.Valid() && h.items == []
    modifies h
    ensures h.Valid() && Holds(h.items, limit, Concat(shards))
  {
    for s := 0 to |shards|
      invariant h.Valid() && Holds(h.items, limit, Concat(shards[..s]))
    {
      CollectShard(h, shards[s], limit, Concat(shards[..s]));
      assert shards[..s + 1][..s] == shards[..s];
    }
    assert shards[..|shards|] == shards;
  }

  /** Gathering the shard answers in arrival order yields, best first, the best of what is eligible. */
  method Gather(shards: seq<seq<Result>>, limit: int) returns (final: array<Result>)
    ensures Descending(final[..])
    ensures BestOf(final[..], Bound(limit), Eligible(limit, Concat(shards)))
  {
    var h := new Heap<Result>();
    Collect(h, shards, limit);
    ghost var items := h.items;
    final := Drain(h);
    BestPermuted(Values(items), final[..], Bound(limit), Eligible(limit, Concat(shards)));
  }

  lemma BestPermuted(a: seq<Result>, b: seq<Result>, k: nat, pool: seq<Result>)
    requires BestOf(a, k, pool) && multiset(a) == multiset(b)
    ensures BestOf(b, k, pool)
  {
    assert |multiset(a)| == |a| && |multiset(b)| == |b|;
    forall t ensures CountGE(b, t) == Min(k, CountGE(pool, t)) {
      CountPermuted(a, b, t);
    }
  }

  lemma {:induction false} EveryoneEligible(limit: int, rs: seq<Result>)
    ensures limit >= 1 ==> Eligible(limit, rs) == rs
    ensures limit < 1 ==> (Eligible(limit, rs) == [] <==> forall r :: r in rs ==> r.score <= 0.0)
  {
    if rs == [] {
    } else {
      var init, last := rs[..|rs| - 1], rs[|rs| - 1];
      EveryoneEligible(limit, init);
      assert rs == init + [last];
      assert forall r :: r in rs <==> r in init || r == last;
    }
  }

  /** For a limit of at least one, gathering answers that are each the best of their shard gives the
      best of all shard data, whatever the arrival order. */
  lemma GatherIsGlobalBest(final: seq<Result>, limit: int, answers: seq<seq<Result>>, data: seq<seq<Result>>)
    requires limit >= 1 && ShardsAnswered(answers, limit, data)
    requires BestOf(final, Bound(limit), Eligible(limit, Concat(answers)))
    ensures BestOf(final, limit, Concat(data))
  {
    EveryoneEligible(limit, Concat(answers));
    ShardsCompose(final, limit, answers, data);
  }

  /** For a limit below one the answer ought to be empty. It is so exactly if no result has a positive
      score; otherwise one result comes back. */
  lemma NonPositiveLimit(final: seq<Result>, limit: int, pool: seq<Result>)
    requires limit < 1 && BestOf(final, Bound(limit), Eligible(limit, pool))
    ensures |final| <= 1
    ensures final == [] <==> forall r :: r in pool ==> r.score <= 0.0
  {
    EveryoneEligible(limit, pool);
  }

  lemma {:induction false} ConcatAppend(a: seq<seq<Result>>, b: seq<seq<Result>>)
    ensures Concat(a + b) == Concat(a) + Concat(b)
  {
    if b == [] {
      assert a + b == a;
    } else {
      var l := |b| - 1;
      ConcatAppend(a, b[..l]);
      assert (a + b)[..|a + b| - 1] == a + b[..l];
    }
  }

  lemma ConcatAround(x: seq<seq<Result>>, m: seq<Result>, y: seq<seq<Result>>)
    ensures Concat(x + [m] + y) == Concat(x) + m + Concat(y)
  {
    ConcatAppend(x + [m], y);
    assert (x + [m])[..|x|] == x;
  }

  lemma ConcatInsert(x: seq<seq<Result>>, m: seq<Result>, y: seq<seq<Result>>)
    ensures multiset(Concat(x + [m] + y)) == multiset(Concat(x + y)) + multiset(m)
  {
    ConcatAround(x, m, y);
    ConcatAppend(x, y);
    Middle(Concat(x), m, Concat(y));
  }

  lemma Middle<T>(x: seq<T>, m: seq<T>, y: seq<T>)
    ensures multiset(x + m + y) == multiset(x + y) + multiset(m)
  {}

  lemma Cut<T>(b: seq<T>, e: T) returns (x: seq<T>, y: seq<T>)
    requires e in multiset(b)
    ensures b == x + [e] + y && multiset(x + y) == multiset(b) - multiset{e}
  {
    var i := TakeOut(b, e);
    x, y := b[..i], b[i + 1..];
  }

  lemma {:induction false} ConcatPermuted(a: seq<seq<Result>>, b: seq<seq<Result>>)
    requires multiset(a) == multiset(b)
    ensures multiset(Concat(a)) == multiset(Concat(b))
  {
    if a == [] {
      assert |multiset(b)| == 0;
    } else {
      var init, last := a[..|a| - 1], a[|a| - 1];
      assert multiset(a) == multiset(init) + multiset{last} by { assert a == init + [last]; }
      var x, y := Cut(b, last);
      ConcatPermuted(init, x + y);
      ConcatInsert(x, last, y);
    }
  }

  lemma {:induction false} EligibleCount(limit: int, rs: seq<Result>, r: Result)
    ensures multiset(Eligible(limit, rs))[r] == if limit >= 1 || r.score > 0.0 then multiset(rs)[r] else 0
  {
    if rs == [] {
    } else {
      EligibleCount(limit, rs[..|rs| - 1], r);
      assert rs == rs[..|rs| - 1] + [rs[|rs| - 1]];
    }
  }

  lemma EligiblePermuted(limit: int, a: seq<Result>, b: seq<Result>)
    requires multiset(a) == multiset(b)
    ensures multiset(Eligible(limit, a)) == multiset(Eligible(limit, b))
  {
    forall r ensures multiset(Eligible(limit, a))[r] == multiset(Eligible(limit, b))[r] {
      EligibleCount(limit, a, r);
      EligibleCount(limit, b, r);
    }
  }

  /** Two gatherings of the same answers, arriving in different orders, agree on every score. */
  lemma ArrivalOrderIrrelevant(a: seq<seq<Result>>, b: seq<seq<Result>>, limit: int, x: seq<Result>, y: seq<Result>)
    requires multiset(a) == multiset(b)
    requires Descending(x) && BestOf(x, Bound(limit), Eligible(limit, Concat(a)))
    requires Descending(y) && BestOf(y, Bound(limit), Eligible(limit, Concat(b)))
    ensures |x| == |y| && forall i :: 0 <= i < |x| ==> x[i].score == y[i].score
  {
    ConcatPermuted(a, b);
    EligiblePermuted(limit, Concat(a), Concat(b));
    forall i | 0 <= i < |x| ensures |y| == |x| && x[i].score == y[i].score {
      ScoresAreDetermined(x, y, Bound(limit), Eligible(limit, Concat(a)), Eligible(limit, Concat(b)), i);
    }
    forall i | 0 <= i < |y| ensures |x| == |y| && y[i].score == x[i].score {
      ScoresAreDetermined(y, x, Bound(limit), Eligible(limit, Concat(b)), Eligible(limit, Concat(a)), i);
    }
  }
}
