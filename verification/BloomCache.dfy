/** The cache accelerated by a Bloom filter, against the plain cache it wraps. */
module BloomCache {
  import Bits
  import opened Lists
  import opened BloomFilter

  /** Go strings and stored values are byte sequences. A missing expiry means none. */
  type Key = Data
  datatype Item = Item(value: Data, expiresAt: Option<int>)
  type Items = map<Key, Item>

  /** JSON: which stored values decode into the destination, and integers to and from their encoding. */
  datatype Codec = Codec(decodes: Data -> bool, parse: Data -> int, format: int -> Data)

  datatype Op =
    | Get(key: Key)
    | Exists(key: Key)
    | MGet(keys: seq<Key>)
    | Set(key: Key, value: Option<Data>, ttl: int)
    | Delete(key: Key)
    | MSet(pairs: seq<(Key, Option<Data>)>, ttl: int)
    | Incr(key: Key, delta: int)
    | Expire(key: Key, ttl: int)

  /** An operation at a time, with a context that may already be cancelled. A value of None is one that
      cannot be encoded; the pairs of MSet are in the order the map is iterated. */
  datatype Call = Call(op: Op, now: int, alive: bool)

  datatype Status = Fine | Cancelled | KeyNotFound | KeyExpired | BadValue

  datatype Reply = Reply(status: Status, values: map<Key, Data>, number: int)

  function Just(status: Status): Reply { Reply(status, map[], 0) }

  const DAY: int := 24 * 3600 * 1_000_000_000

  // ----- The plain cache, as the in-memory adapter implements it -----

  predicate Expired(item: Item, now: int) {
    item.expiresAt.Some? && now > item.expiresAt.value
  }

  predicate Live(items: Items, key: Key, now: int) {
    key in items && !Expired(items[key], now)
  }

  function Until(now: int, ttl: int): Option<int> {
    if ttl > 0 then Some(now + ttl) else None
  }

  /** The number an increment starts from. */
  function Counter(codec: Codec, items: Items, key: Key, now: int): int {
    if Live(items, key, now) then codec.parse(items[key].value) else 0
  }

  function GetMany(codec: Codec, items: Items, keys: seq<Key>, now: int): Reply {
    GetManyInto(codec, items, keys, now, map[])
  }

  /** Stops at the first live value that does not decode, keeping what was read before it. */
  function GetManyInto(codec: Codec, items: Items, keys: seq<Key>, now: int, found: map<Key, Data>): Reply
    decreases |keys|
  {
    if keys == [] then Reply(Fine, found, 0)
    else if !Live(items, keys[0], now) then GetManyInto(codec, items, keys[1..], now, found)
    else if !codec.decodes(items[keys[0]].value) then Reply(BadValue, found, 0)
    else GetManyInto(codec, items, keys[1..], now, found[keys[0] := items[keys[0]].value])
  }

  function SetMany(items: Items, pairs: seq<(Key, Option<Data>)>, expiry: Option<int>): (Items, Reply)
    decreases |pairs|
  {
    if pairs == [] then (items, Just(Fine))
    else if pairs[0].1.None? then (items, Just(BadValue))
    else SetMany(items[pairs[0].0 := Item(pairs[0].1.value, expiry)], pairs[1..], expiry)
  }

  function Plain(codec: Codec, items: Items, c: Call): (Items, Reply) {
    if !c.alive then (items, Just(Cancelled))
    else match c.op
      case Get(key) =>
        (items,
         if key !in items then Just(KeyNotFound)
         else if Expired(items[key], c.now) then Just(KeyExpired)
         else if !codec.decodes(items[key].value) then Just(BadValue)
         else Reply(Fine, map[key := items[key].value], 0))
      case Exists(key) => (items, Reply(Fine, map[], if Live(items, key, c.now) then 1 else 0))
      case MGet(keys) => (items, GetMany(codec, items, keys, c.now))
      case Set(key, value, ttl) =>
        if value.None? then (items, Just(BadValue))
        else (items[key := Item(value.value, Until(c.now, ttl))], Just(Fine))
      case Delete(key) => (items - {key}, Just(Fine))
      case MSet(pairs, ttl) => SetMany(items, pairs, Until(c.now, ttl))
      case Incr(key, delta) =>
        var live := Live(items, key, c.now);
        var n := Bits.Wrapped(Counter(codec, items, key, c.now) + delta);
        var expiry := if live then items[key].expiresAt else Some(c.now + DAY);
        (items[key := Item(codec.format(n), expiry)], Reply(Fine, map[], n))
      case Expire(key, ttl) =>
        if !Live(items, key, c.now) then (items, Just(KeyNotFound))
        else (items[key := items[key].(expiresAt := Until(c.now, ttl))], Just(Fine))
  }

  /** The replies of the plain cache to a whole sequence of calls, and what it holds afterwards. */
  function PlainRun(codec: Codec, items: Items, calls: seq<Call>): (Items, seq<Reply>) {
    if calls == [] then (items, [])
    else
      var (before, replies) := PlainRun(codec, items, calls[..|calls| - 1]);
      var (after, reply) := Plain(codec, before, calls[|calls| - 1]);
      (after, replies + [reply])
  }

  /** An increment replies the sum exactly if the sum is a 64-bit integer. */
  lemma IncrExactIff(codec: Codec, items: Items, key: Key, delta: int, now: int)
    ensures var sum := Counter(codec, items, key, now) + delta;
            Plain(codec, items, Call(Incr(key, delta), now, true)).1.number == sum
            <==> -(Bits.WORD / 2) <= sum < Bits.WORD / 2
  {
    Bits.WrappedIff(Counter(codec, items, key, now) + delta);
  }

  // ----- What the plain cache promises: every reply follows from the earlier calls on the same key -----

  /** Whether a call can have any bearing on what is stored under k. */
  predicate Concerns(c: Call, k: Key) {
    c.alive && match c.op
      case Set(key, _, _) => key == k
      case Delete(key) => key == k
      case Incr(key, _) => key == k
      case Expire(key, _) => key == k
      case MSet(pairs, _) => exists i :: 0 <= i < |pairs| && pairs[i].0 == k
      case _ => false
  }

  /** The value a multi-set gives k: the last one before the first pair that cannot be encoded. */
  function Given(pairs: seq<(Key, Option<Data>)>, k: Key): Option<Data> {
    if pairs == [] || pairs[0].1.None? then None
    else if Given(pairs[1..], k).Some? then Given(pairs[1..], k)
    else if pairs[0].0 == k then pairs[0].1 else None
  }

  function Deadline(now: int, ttl: int): Option<int> {
    if ttl > 0 then Some(now + ttl) else None
  }

  /** Stored, and its deadline, if it has one, not passed. */
  predicate Usable(item: Option<Item>, now: int) {
    item.Some? && (item.value.expiresAt.Some? ==> now <= item.value.expiresAt.value)
  }

  /** What is stored under k after some calls, looking at nothing but the calls that concern k. */
  function Fate(codec: Codec, start: Option<Item>, calls: seq<Call>, k: Key): Option<Item> {
    if calls == [] then start
    else
      var before, c := Fate(codec, start, calls[..|calls| - 1], k), calls[|calls| - 1];
      if !Concerns(c, k) then before
      else match c.op
        case Set(_, value, ttl) => if value.Some? then Some(Item(value.value, Deadline(c.now, ttl))) else before
        case MSet(pairs, ttl) =>
          if Given(pairs, k).Some? then Some(Item(Given(pairs, k).value, Deadline(c.now, ttl))) else before
        case Delete(_) => None
        case Incr(_, delta) =>
          if Usable(before, c.now)
          then Some(before.value.(value := codec.format(Bits.Wrapped(codec.parse(before.value.value) + delta))))
          else Some(Item(codec.format(Bits.Wrapped(delta)), Some(c.now + DAY)))
        case Expire(_, ttl) =>
          if Usable(before, c.now) then Some(before.value.(expiresAt := Deadline(c.now, ttl))) else before
        case _ => before
  }

  function Lookup(items: Items, k: Key): Option<Item> {
    if k in items then Some(items[k]) else None
  }

  /** The reply to a Get of k, given what is stored under k. */
  function GetAnswer(codec: Codec, stored: Option<Item>, k: Key, now: int): Reply {
    if stored.None? then Just(KeyNotFound)
    else if !Usable(stored, now) then Just(KeyExpired)
    else if !codec.decodes(stored.value.value) then Just(BadValue)
    else Reply(Fine, map[k := stored.value.value], 0)
  }

  lemma {:induction false} SetManyGives(items: Items, pairs: seq<(Key, Option<Data>)>, expiry: Option<int>, k: Key)
    ensures Lookup(SetMany(items, pairs, expiry).0, k)
         == if Given(pairs, k).Some? then Some(Item(Given(pairs, k).value, expiry)) else Lookup(items, k)
    ensures SetMany(items, pairs, expiry).1
         == Just(if forall i :: 0 <= i < |pairs| ==> pairs[i].1.Some? then Fine else BadValue)
    decreases |pairs|
  {
    if pairs == [] || pairs[0].1.None? {
    } else {
      SetManyGives(items[pairs[0].0 := Item(pairs[0].1.value, expiry)], pairs[1..], expiry, k);
      assert forall i :: 0 < i < |pairs| ==> pairs[i] == pairs[1..][i - 1];
    }
  }

  lemma {:induction false} GivenIsNamed(pairs: seq<(Key, Option<Data>)>, k: Key)
    requires Given(pairs, k).Some?
    ensures exists i :: 0 <= i < |pairs| && pairs[i].0 == k
  {
    if Given(pairs[1..], k).Some? {
      GivenIsNamed(pairs[1..], k);
      var i :| 0 <= i < |pairs[1..]| && pairs[1..][i].0 == k;
      assert pairs[i + 1].0 == k;
    }
  }

  /** One call does to each key what Fate says of that key. */
  lemma PlainFate(codec: Codec, items: Items, c: Call, k: Key)
    ensures Lookup(Plain(codec, items, c).0, k) == Fate(codec, Lookup(items, k), [c], k)
  {
    assert [c][..0] == [];
    if c.alive && c.op.MSet? {
      SetManyGives(items, c.op.pairs, Until(c.now, c.op.ttl), k);
      if Given(c.op.pairs, k).Some? { GivenIsNamed(c.op.pairs, k); }
    }
  }

  lemma FateMore(codec: Codec, start: Option<Item>, calls: seq<Call>, c: Call, k: Key)
    ensures Fate(codec, start, calls + [c], k) == Fate(codec, Fate(codec, start, calls, k), [c], k)
  {
    assert (calls + [c])[..|calls|] == calls;
    assert [c][..0] == [];
  }

  /** After every sequence of calls, what is stored under each key is its fate. */
  lemma {:induction false} StoredIsFate(codec: Codec, items: Items, calls: seq<Call>, k: Key)
    ensures Lookup(PlainRun(codec, items, calls).0, k) == Fate(codec, Lookup(items, k), calls, k)
  {
    if calls == [] {
    } else {
      var init, c := calls[..|calls| - 1], calls[|calls| - 1];
      assert calls == init + [c];
      StoredIsFate(codec, items, init, k);
      PlainFate(codec, PlainRun(codec, items, init).0, c, k);
      FateMore(codec, Lookup(items, k), init, c, k);
    }
  }

  /** Calls that do not concern k do not matter for k. */
  lemma {:induction false} FateSkips(codec: Codec, start: Option<Item>, calls: seq<Call>, n: nat, k: Key)
    requires n <= |calls| && forall i :: n <= i < |calls| ==> !Concerns(calls[i], k)
    ensures Fate(codec, start, calls, k) == Fate(codec, start, calls[..n], k)
  {
    if n == |calls| {
      assert calls[..n] == calls;
    } else {
      assert calls[..|calls| - 1][..n] == calls[..n];
      FateSkips(codec, start, calls[..|calls| - 1], n, k);
    }
  }

  lemma {:induction false} RepliesAt(codec: Codec, items: Items, calls: seq<Call>, i: nat)
    requires i < |calls|
    ensures |PlainRun(codec, items, calls).1| == |calls|
    ensures PlainRun(codec, items, calls).1[i] == Plain(codec, PlainRun(codec, items, calls[..i]).0, calls[i]).1
    decreases |calls|
  {
    var init := calls[..|calls| - 1];
    if i < |init| {
      RepliesAt(codec, items, init, i);
      assert init[..i] == calls[..i];
    } else if init != [] {
      RepliesAt(codec, items, init, 0);
    }
  }

  /** A multi-get fails exactly if some usable value does not decode; otherwise it finds exactly the usable
      keys, and whatever it finds is what is stored. */
  ghost predicate FindsUsable(codec: Codec, stored: Key -> Option<Item>, keys: seq<Key>, now: int, r: Reply) {
    && r.number == 0
    && r.status == (if forall k :: k in keys && Usable(stored(k), now) ==> codec.decodes(stored(k).value.value)
                    then Fine else BadValue)
    && (forall k :: k in r.values ==> k in keys && Usable(stored(k), now) && r.values[k] == stored(k).value.value)
    && (r.status == Fine ==> forall k :: k in keys && Usable(stored(k), now) ==> k in r.values)
  }

  lemma {:induction false} GetManyFinds(
    codec: Codec, items: Items, done: seq<Key>, keys: seq<Key>, now: int, found: map<Key, Data>)
    requires forall k :: k in done && Usable(Lookup(items, k), now) ==> codec.decodes(items[k].value) && k in found
    requires forall k :: k in found ==> k in done && Usable(Lookup(items, k), now) && found[k] == items[k].value
    ensures FindsUsable(codec, k => Lookup(items, k), done + keys, now, GetManyInto(codec, items, keys, now, found))
    decreases |keys|
  {
    if keys == [] {
      assert done + keys == done;
    } else {
      var k := keys[0];
      assert done + keys == (done + [k]) + keys[1..];
      assert k in done + keys;
      assert forall x :: x in done + [k] <==> x in done || x == k;
      if !Live(items, k, now) {
        GetManyFinds(codec, items, done + [k], keys[1..], now, found);
      } else if codec.decodes(items[k].value) {
        GetManyFinds(codec, items, done + [k], keys[1..], now, found[k := items[k].value]);
      } else {
        assert Usable(Lookup(items, k), now);
      }
    }
  }

  function KeyOf(op: Op): Key {
    match op
    case Get(k) => k
    case Exists(k) => k
    case Set(k, _, _) => k
    case Delete(k) => k
    case Incr(k, _) => k
    case Expire(k, _) => k
    case _ => []
  }

  /** The reply to a call on one key, given what is stored under that key. */
  ghost predicate AnswersFor(codec: Codec, c: Call, stored: Option<Item>, r: Reply) {
    match c.op
    case Get(k) => r == GetAnswer(codec, stored, k, c.now)
    case Exists(_) => r == Reply(Fine, map[], if Usable(stored, c.now) then 1 else 0)
    case Set(_, value, _) => r == Just(if value.Some? then Fine else BadValue)
    case Delete(_) => r == Just(Fine)
    case Incr(_, delta) =>
      var count := if Usable(stored, c.now) then codec.parse(stored.value.value) else 0;
      r == Reply(Fine, map[], Bits.Wrapped(count + delta))
    case Expire(_, _) => r == Just(if Usable(stored, c.now) then Fine else KeyNotFound)
    case MSet(pairs, _) => r == Just(if forall j :: 0 <= j < |pairs| ==> pairs[j].1.Some? then Fine else BadValue)
    case MGet(_) => true
  }

  /** The reply to call i, if its context is live, follows from what became of the keys it names in the
      calls before it. */
  ghost predicate FollowsHistory(codec: Codec, items: Items, calls: seq<Call>, i: nat, r: Reply)
    requires i < |calls|
  {
    var before := calls[..i];
    calls[i].alive ==>
      && AnswersFor(codec, calls[i], Fate(codec, Lookup(items, KeyOf(calls[i].op)), before, KeyOf(calls[i].op)), r)
      && (calls[i].op.MGet? ==>
            FindsUsable(codec, k => Fate(codec, Lookup(items, k), before, k), calls[i].op.keys, calls[i].now, r))
  }

  lemma FindsSame(codec: Codec, f: Key -> Option<Item>, g: Key -> Option<Item>, keys: seq<Key>, now: int, r: Reply)
    requires FindsUsable(codec, f, keys, now, r) && forall k :: f(k) == g(k)
    ensures FindsUsable(codec, g, keys, now, r)
  {}

  lemma MultiGetLaw(codec: Codec, items: Items, calls: seq<Call>, keys: seq<Key>, now: int)
    ensures FindsUsable(codec, k => Fate(codec, Lookup(items, k), calls, k), keys, now,
                        GetMany(codec, PlainRun(codec, items, calls).0, keys, now))
  {
    var after := PlainRun(codec, items, calls).0;
    GetManyFinds(codec, after, [], keys, now, map[]);
    assert [] + keys == keys;
    forall k ensures Lookup(after, k) == Fate(codec, Lookup(items, k), calls, k) {
      StoredIsFate(codec, items, calls, k);
    }
    FindsSame(codec, k => Lookup(after, k), k => Fate(codec, Lookup(items, k), calls, k), keys, now,
              GetMany(codec, after, keys, now));
  }

  /** What every call with a live context is answered follows from the earlier calls alone. */
  lemma ReplyLaw(codec: Codec, items: Items, calls: seq<Call>, i: nat)
    requires i < |calls|
    ensures |PlainRun(codec, items, calls).1| == |calls|
    ensures FollowsHistory(codec, items, calls, i, PlainRun(codec, items, calls).1[i])
  {
    var before := PlainRun(codec, items, calls[..i]).0;
    RepliesAt(codec, items, calls, i);
    StoredIsFate(codec, items, calls[..i], KeyOf(calls[i].op));
    match calls[i].op
    case MGet(keys) => MultiGetLaw(codec, items, calls[..i], keys, calls[i].now);
    case MSet(pairs, ttl) => SetManyGives(before, pairs, Until(calls[i].now, ttl), []);
    case _ =>
  }

  /** A Get is answered by the last Set of its key: with the value, or that it has expired. */
  lemma SetThenGet(codec: Codec, items: Items, calls: seq<Call>, j: nat, i: nat, k: Key, v: Data, ttl: int)
    requires j < i < |calls| && calls[i].op == Get(k) && calls[i].alive
    requires calls[j].op == Set(k, Some(v), ttl) && calls[j].alive
    requires forall n :: j < n < i ==> !Concerns(calls[n], k)
    ensures |PlainRun(codec, items, calls).1| == |calls|
    ensures PlainRun(codec, items, calls).1[i]
         == if ttl > 0 && calls[i].now > calls[j].now + ttl then Just(KeyExpired)
            else if !codec.decodes(v) then Just(BadValue)
            else Reply(Fine, map[k := v], 0)
  {
    ReplyLaw(codec, items, calls, i);
    FateSkips(codec, Lookup(items, k), calls[..i], j + 1, k);
    assert calls[..i][..j + 1] == calls[..j] + [calls[j]];
    FateMore(codec, Lookup(items, k), calls[..j], calls[j], k);
  }

  /** A key that was deleted, or was never there, and has not been written since is not found. */
  lemma GoneUntilWritten(codec: Codec, items: Items, calls: seq<Call>, n: nat, i: nat, k: Key)
    requires n <= i < |calls| && calls[i].op == Get(k) && calls[i].alive
    requires if n == 0 then k !in items else calls[n - 1].op == Delete(k) && calls[n - 1].alive
    requires forall m :: n <= m < i ==> !Concerns(calls[m], k)
    ensures |PlainRun(codec, items, calls).1| == |calls|
    ensures PlainRun(codec, items, calls).1[i] == Just(KeyNotFound)
  {
    ReplyLaw(codec, items, calls, i);
    FateSkips(codec, Lookup(items, k), calls[..i], n, k);
    assert calls[..i][..n] == calls[..n];
    if n > 0 { assert calls[..n][..n - 1] == calls[..n - 1]; }
  }

  // ----- What makes the shortcut sound -----

  /** The keys an operation may bring in. */
  function Written(op: Op): set<Key> {
    match op
    case Set(key, _, _) => {key}
    case Incr(key, _) => {key}
    case MSet(pairs, _) => set p | p in pairs :: p.0
    case _ => {}
  }

  lemma {:induction false} SetManyKeys(items: Items, pairs: seq<(Key, Option<Data>)>, expiry: Option<int>)
    ensures SetMany(items, pairs, expiry).0.Keys <= items.Keys + (set p | p in pairs :: p.0)
    decreases |pairs|
  {
    if pairs == [] || pairs[0].1.None? {
    } else {
      SetManyKeys(items[pairs[0].0 := Item(pairs[0].1.value, expiry)], pairs[1..], expiry);
      assert pairs[0] in pairs;
      assert forall p :: p in pairs[1..] ==> p in pairs;
    }
  }

  lemma PlainKeys(codec: Codec, items: Items, c: Call)
    ensures Plain(codec, items, c).0.Keys <= items.Keys + Written(c.op)
  {
    if c.op.MSet? {
      SetManyKeys(items, c.op.pairs, Until(c.now, c.op.ttl));
    }
  }

  /** Leaving out keys that are not there does not change the answer. */
  lemma {:induction false} SkipAbsent(
    codec: Codec, items: Items, a: seq<Key>, k: Key, b: seq<Key>, now: int, found: map<Key, Data>)
    requires k !in items
    ensures GetManyInto(codec, items, a + [k] + b, now, found) == GetManyInto(codec, items, a + b, now, found)
    decreases |a|
  {
    if a == [] {
      assert a + [k] + b == [k] + b && a + b == b;
    } else {
      assert (a + [k] + b)[1..] == a[1..] + [k] + b && (a + b)[1..] == a[1..] + b;
      SkipAbsent(codec, items, a[1..], k, b, now, found);
      if Live(items, a[0], now) {
        SkipAbsent(codec, items, a[1..], k, b, now, found[a[0] := items[a[0]].value]);
      }
    }
  }

  class Cache {
    const codec: Codec
    const prefix: Data
    const bloom: Filter
    var items: Items            // the wrapped cache's state

    /** Everything in the wrapped cache is in the filter. */
    ghost predicate Coherent()
      reads this, bloom, bloom.bits
    {
      bloom.Valid() && forall k :: k in items ==> prefix + k in bloom.members
    }

    /** Wraps a cache in whatever state it is, with an empty filter: only an empty cache is coherent
        from the start. */
    constructor (codec: Codec, items: Items, prefix: Data, numBits: nat, numHash: nat)
      requires 0 < numBits && numBits + 63 < Bits.WORD
      ensures fresh(bloom) && fresh(bloom.bits) && bloom.Valid() && bloom.members == {}
      ensures this.codec == codec && this.prefix == prefix && this.items == items
      ensures Coherent() <==> items == map[]
    {
      this.codec := codec;
      this.prefix := prefix;
      this.items := items;
      bloom := new Filter(numBits, numHash);
      new;
      assert items == map[] <==> forall k :: k !in items;
    }

    /** The answer of the plain cache, except exactly when the context is cancelled and the filter
        already says no: then the key is reported missing instead of the cancellation. */
    method GetKey(key: Key, now: int, alive: bool) returns (r: Reply)
      requires Coherent()
      ensures r == Plain(codec, items, Call(Get(key), now, alive)).1
              <==> alive || MayContain(bloom.shape, bloom.members, prefix + key)
      ensures !alive && !MayContain(bloom.shape, bloom.members, prefix + key) ==> r == Just(KeyNotFound)
    {
      var maybe := bloom.Contains(prefix + key);
      if !maybe {
        Absent(key);
        return Just(KeyNotFound);
      }
      return Plain(codec, items, Call(Get(key), now, alive)).1;
    }

    lemma Absent(key: Key)
      requires Coherent() && !MayContain(bloom.shape, bloom.members, prefix + key)
      ensures key !in items
    {
      if key in items {
        NoFalseNegatives(bloom.shape, bloom.members, prefix + key);
      }
    }

    method KeyExists(key: Key, now: int, alive: bool) returns (r: Reply)
      requires Coherent()
      ensures r == Plain(codec, items, Call(Exists(key), now, alive)).1
              <==> alive || MayContain(bloom.shape, bloom.members, prefix + key)
      ensures !alive && !MayContain(bloom.shape, bloom.members, prefix + key) ==> r == Reply(Fine, map[], 0)
    {
      var maybe := bloom.Contains(prefix + key);
      if !maybe {
        Absent(key);
        return Reply(Fine, map[], 0);
      }
      return Plain(codec, items, Call(Exists(key), now, alive)).1;
    }

    /** The answer of the plain cache, always. */
    method GetKeys(keys: seq<Key>, now: int, alive: bool) returns (r: Reply)
      requires Coherent()
      ensures r == Plain(codec, items, Call(MGet(keys), now, alive)).1
    {
      var filtered: seq<Key> := [];
      assert filtered + keys[0..] == keys;
      for i := 0 to |keys|
        invariant GetMany(codec, items, filtered + keys[i..], now) == GetMany(codec, items, keys, now)
      {
        assert filtered + keys[i..] == filtered + [keys[i]] + keys[i + 1..];
        var maybe := bloom.Contains(prefix + keys[i]);
        if maybe {
          filtered := filtered + [keys[i]];
        } else {
          Absent(keys[i]);
          SkipAbsent(codec, items, filtered, keys[i], keys[i + 1..], now, map[]);
        }
      }
      assert filtered + keys[|keys|..] == filtered;
      return Plain(codec, items, Call(MGet(filtered), now, alive)).1;
    }

    /** Forwards a call that writes keys the filter already has. */
    method Forward(c: Call) returns (r: Reply)
      requires Coherent() && forall k :: k in Written(c.op) ==> prefix + k in bloom.members
      modifies this`items
      ensures Coherent() && (items, r) == Plain(codec, old(items), c)
    {
      PlainKeys(codec, items, c);
      var (after, reply) := Plain(codec, items, c);
      items := after;
      r := reply;
    }

    method SetKey(key: Key, value: Option<Data>, ttl: int, now: int, alive: bool) returns (r: Reply)
      requires Coherent()
      modifies this`items, bloom`count, bloom`members, bloom.bits
      ensures Coherent() && (items, r) == Plain(codec, old(items), Call(Set(key, value, ttl), now, alive))
    {
      bloom.Add(prefix + key);
      r := Forward(Call(Set(key, value, ttl), now, alive));
    }

    method DeleteKey(key: Key, now: int, alive: bool) returns (r: Reply)
      requires Coherent()
      modifies this`items
      ensures Coherent() && (items, r) == Plain(codec, old(items), Call(Delete(key), now, alive))
    {
      r := Forward(Call(Delete(key), now, alive));
    }

    method SetKeys(pairs: seq<(Key, Option<Data>)>, ttl: int, now: int, alive: bool) returns (r: Reply)
      requires Coherent()
      modifies this`items, bloom`count, bloom`members, bloom.bits
      ensures Coherent() && (items, r) == Plain(codec, old(items), Call(MSet(pairs, ttl), now, alive))
    {
      for i := 0 to |pairs|
        invariant Coherent() && items == old(items)
        invariant forall j :: 0 <= j < i ==> prefix + pairs[j].0 in bloom.members
      {
        bloom.Add(prefix + pairs[i].0);
      }
      r := Forward(Call(MSet(pairs, ttl), now, alive));
    }

    method IncrKey(key: Key, delta: int, now: int, alive: bool) returns (r: Reply)
      requires Coherent()
      modifies this`items, bloom`count, bloom`members, bloom.bits
      ensures Coherent() && (items, r) == Plain(codec, old(items), Call(Incr(key, delta), now, alive))
    {
      bloom.Add(prefix + key);
      r := Forward(Call(Incr(key, delta), now, alive));
    }

    method ExpireKey(key: Key, ttl: int, now: int, alive: bool) returns (r: Reply)
      requires Coherent()
      modifies this`items
      ensures Coherent() && (items, r) == Plain(codec, old(items), Call(Expire(key, ttl), now, alive))
    {
      r := Forward(Call(Expire(key, ttl), now, alive));
    }

    /** Registers keys the wrapped cache already held; warming all of them makes the cache coherent. */
    method Warm(keys: seq<Key>)
      requires bloom.Valid()
      modifies bloom`count, bloom`members, bloom.bits
      ensures bloom.Valid() && items == old(items)
      ensures bloom.members == old(bloom.members) + set k | k in keys :: prefix + k
      ensures (forall k :: k in items ==> k in keys) ==> Coherent()
    {
      for i := 0 to |keys|
        invariant bloom.Valid() && items == old(items)
        invariant bloom.members == old(bloom.members) + set j | 0 <= j < i :: prefix + keys[j]
      {
        bloom.Add(prefix + keys[i]);
      }
      assert (set j | 0 <= j < |keys| :: prefix + keys[j]) == (set k | k in keys :: prefix + k);
    }

    /** One call through the accelerator. */
    method Perform(c: Call) returns (r: Reply)
      requires Coherent()
      modifies this`items, bloom`count, bloom`members, bloom.bits
      ensures Coherent() && items == Plain(codec, old(items), c).0
      ensures c.alive ==> r == Plain(codec, old(items), c).1
    {
      match c.op
      case Get(key) => r := GetKey(key, c.now, c.alive);
      case Exists(key) => r := KeyExists(key, c.now, c.alive);
      case MGet(keys) => r := GetKeys(keys, c.now, c.alive);
      case Set(key, value, ttl) => r := SetKey(key, value, ttl, c.now, c.alive);
      case Delete(key) => r := DeleteKey(key, c.now, c.alive);
      case MSet(pairs, ttl) => r := SetKeys(pairs, ttl, c.now, c.alive);
      case Incr(key, delta) => r := IncrKey(key, delta, c.now, c.alive);
      case Expire(key, ttl) => r := ExpireKey(key, ttl, c.now, c.alive);
    }

    /** Any sequence of calls on a coherent cache, deletions included: the wrapped cache ends up as if
        used directly, and every call with a live context gets the plain cache's reply. */
    method PerformAll(calls: seq<Call>) returns (replies: seq<Reply>)
      requires Coherent()
      modifies this`items, bloom`count, bloom`members, bloom.bits
      ensures Coherent() && items == PlainRun(codec, old(items), calls).0
      ensures |replies| == |calls| == |PlainRun(codec, old(items), calls).1|
      ensures forall i :: 0 <= i < |calls| && calls[i].alive ==> replies[i] == PlainRun(codec, old(items), calls).1[i]
      ensures forall i :: 0 <= i < |calls| ==> FollowsHistory(codec, old(items), calls, i, replies[i])
    {
      replies := [];
      for n := 0 to |calls|
        invariant Coherent() && items == PlainRun(codec, old(items), calls[..n]).0
        invariant |replies| == n == |PlainRun(codec, old(items), calls[..n]).1|
        invariant forall i :: 0 <= i < n && calls[i].alive ==>
                    replies[i] == PlainRun(codec, old(items), calls[..n]).1[i]
      {
        assert calls[..n + 1][..n] == calls[..n];
        var r := Perform(calls[n]);
        replies := replies + [r];
      }
      assert calls[..|calls|] == calls;
      forall i | 0 <= i < |calls| ensures FollowsHistory(codec, old(items), calls, i, replies[i]) {
        ReplyLaw(codec, old(items), calls, i);
      }
    }
  }
}
