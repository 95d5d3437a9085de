/** Usage metering: events summarised, and events grouped into fixed-width periods. */
module Metering {
  import Bits
  import opened Lists

  /** at is the timestamp in nanoseconds since the Unix epoch, None for Go's zero time. */
  datatype Usage = Usage(tenant: string, resource: string, quantity: real, at: Option<int>)

  datatype Key = Key(start: int, resource: string, tenant: string)

  datatype Bucket = Bucket(start: int, end: int, tenant: string, resource: string, quantity: real, count: nat) {
    function KeyOf(): Key { Key(start, resource, tenant) }
  }

  datatype Summary = Summary(total: real, count: nat, byResource: map<string, real>)

  /** Go's remainder takes the sign of the dividend. */
  function GoRem(a: int, b: int): int
    requires b > 0
  {
    if a >= 0 then a % b else -((-a) % b)
  }

  function StartOf(ts: int, period: int): int
    requires period > 0
  {
    ts - GoRem(ts, period)
  }

  function KeyFor(e: Usage, period: int): Key
    requires period > 0 && e.at.Some?
  {
    Key(StartOf(e.at.value, period), e.resource, e.tenant)
  }

  // ----- Which period an event falls into -----

  /** The computed period contains the event exactly if the event is not before the epoch, or lies on a
      period boundary. */
  lemma InItsPeriodIff(ts: int, period: int)
    requires period > 0
    ensures StartOf(ts, period) <= ts < StartOf(ts, period) + period <==> ts >= 0 || GoRem(ts, period) == 0
  {}

  /** The start of the period that contains ts, before the epoch as well as after it. */
  function TrueStart(ts: int, period: int): int
    requires period > 0
  {
    ts - ts % period
  }

  /** Exactly one multiple of the period starts a period that contains ts. */
  lemma OnlyPeriod(ts: int, period: int, m: int)
    requires period > 0
    ensures m * period <= ts < m * period + period <==> m * period == TrueStart(ts, period)
  {
    var q := ts / period;
    assert ts == q * period + ts % period;
    if m * period <= ts < m * period + period {
      assert (m - q) * period == m * period - q * period;
      if m != q { Bits.BigMultiple(m - q, period); }
    }
  }

  /** The code's start is a multiple of the period too, though not always that one. */
  lemma StartIsMultiple(ts: int, period: int) returns (m: int)
    requires period > 0
    ensures StartOf(ts, period) == m * period
  {
    if ts >= 0 {
      m := ts / period;
      assert ts == m * period + ts % period;
    } else {
      var q := (-ts) / period;
      assert -ts == q * period + (-ts) % period;
      m := -q;
      assert m * period == -(q * period);
    }
  }

  // ----- What a bucket must hold -----

  predicate Falls(e: Usage, period: int, k: Key)
    requires period > 0
  {
    e.at.Some? && KeyFor(e, period) == k
  }

  function QuantityFor(events: seq<Usage>, period: int, k: Key): real
    requires period > 0
  {
    if events == [] then 0.0
    else
      var e := events[|events| - 1];
      QuantityFor(events[..|events| - 1], period, k) + (if Falls(e, period, k) then e.quantity else 0.0)
  }

  function CountFor(events: seq<Usage>, period: int, k: Key): nat
    requires period > 0
  {
    if events == [] then 0
    else
      var e := events[|events| - 1];
      CountFor(events[..|events| - 1], period, k) + (if Falls(e, period, k) then 1 else 0)
  }

  function BucketFor(events: seq<Usage>, period: int, k: Key): Bucket
    requires period > 0
  {
    Bucket(k.start, k.start + period, k.tenant, k.resource, QuantityFor(events, period, k), CountFor(events, period, k))
  }

  lemma ForAppend(events: seq<Usage>, e: Usage, period: int, k: Key)
    requires period > 0
    ensures QuantityFor(events + [e], period, k)
         == QuantityFor(events, period, k) + (if Falls(e, period, k) then e.quantity else 0.0)
    ensures CountFor(events + [e], period, k)
         == CountFor(events, period, k) + (if Falls(e, period, k) then 1 else 0)
  {
    assert (events + [e])[..|events|] == events;
  }

  lemma {:induction false} NobodyThere(events: seq<Usage>, period: int, k: Key)
    requires period > 0
    ensures CountFor(events, period, k) == 0 ==> QuantityFor(events, period, k) == 0.0
    ensures CountFor(events, period, k) > 0 <==> exists e :: e in events && Falls(e, period, k)
  {
    if events == [] {
    } else {
      NobodyThere(events[..|events| - 1], period, k);
      assert events == events[..|events| - 1] + [events[|events| - 1]];
    }
  }

  // ----- Order of the result -----

  /** Byte-wise lexicographic order. */
  predicate LexLeq(a: string, b: string) {
    a == [] || (b != [] && (a[0] < b[0] || (a[0] == b[0] && LexLeq(a[1..], b[1..]))))
  }

  /** Not after b: by start, then by resource. */
  predicate Leq(a: Bucket, b: Bucket) {
    a.start < b.start || (a.start == b.start && LexLeq(a.resource, b.resource))
  }

  lemma {:induction false} LexTotal(a: string, b: string)
    ensures LexLeq(a, b) || LexLeq(b, a)
  {
    if a == [] || b == [] {
    } else {
      LexTotal(a[1..], b[1..]);
    }
  }

  lemma {:induction false} LexTransitive(a: string, b: string, c: string)
    requires LexLeq(a, b) && LexLeq(b, c)
    ensures LexLeq(a, c)
  {
    if a == [] || a[0] != b[0] || b[0] != c[0] {
    } else {
      LexTransitive(a[1..], b[1..], c[1..]);
    }
  }

  /** Alphabetical order: a prefix comes first, otherwise the first difference decides. */
  ghost predicate NotAfter(a: string, b: string) {
    a <= b || exists n :: 0 <= n < |a| && n < |b| && a[..n] == b[..n] && a[n] < b[n]
  }

  lemma {:induction false} LexIsNotAfter(a: string, b: string)
    requires LexLeq(a, b)
    ensures NotAfter(a, b)
  {
    if a == [] || a[0] < b[0] {
      assert a == [] || (a[..0] == b[..0] && a[0] < b[0]);
    } else {
      LexIsNotAfter(a[1..], b[1..]);
      if n :| 0 <= n < |a[1..]| && n < |b[1..]| && a[1..][..n] == b[1..][..n] && a[1..][n] < b[1..][n] {
        assert a[..n + 1] == [a[0]] + a[1..][..n] && b[..n + 1] == [b[0]] + b[1..][..n];
      }
    }
  }

  /** Starts never decrease, and buckets of one start come in alphabetical order of their resources. */
  ghost predicate InSequence(bs: seq<Bucket>) {
    forall i, j :: 0 <= i < j < |bs| ==>
      bs[i].start <= bs[j].start && (bs[i].start == bs[j].start ==> NotAfter(bs[i].resource, bs[j].resource))
  }

  lemma OrderedIsInSequence(bs: seq<Bucket>)
    requires Ordered(bs)
    ensures InSequence(bs)
  {
    forall i, j | 0 <= i < j < |bs| && bs[i].start == bs[j].start
      ensures NotAfter(bs[i].resource, bs[j].resource)
    {
      assert Leq(bs[i], bs[j]);
      LexIsNotAfter(bs[i].resource, bs[j].resource);
    }
    assert forall i, j :: 0 <= i < j < |bs| ==> Leq(bs[i], bs[j]);
  }

  ghost predicate Ordered(bs: seq<Bucket>) {
    forall i, j :: 0 <= i < j < |bs| ==> Leq(bs[i], bs[j])
  }

  /** Places one bucket; any correct sort agrees up to the order of ties. */
  function Insert(b: Bucket, bs: seq<Bucket>): seq<Bucket> {
    if bs == [] || Leq(b, bs[0]) then [b] + bs else [bs[0]] + Insert(b, bs[1..])
  }

  lemma {:induction false} InsertCuts(b: Bucket, bs: seq<Bucket>) returns (i: nat)
    ensures i <= |bs| && Insert(b, bs) == bs[..i] + [b] + bs[i..]
  {
    if bs == [] || Leq(b, bs[0]) {
      i := 0;
    } else {
      var j := InsertCuts(b, bs[1..]);
      i := j + 1;
      assert bs[..i] == [bs[0]] + bs[1..][..j] && bs[1..][j..] == bs[i..];
    }
  }

  lemma {:induction false} InsertKeepsOrder(b: Bucket, bs: seq<Bucket>)
    requires Ordered(bs)
    ensures Ordered(Insert(b, bs))
  {
    if bs == [] {
    } else if Leq(b, bs[0]) {
      forall j | 0 <= j < |bs| ensures Leq(b, bs[j]) {
        if j > 0 && b.start == bs[j].start { LexTransitive(b.resource, bs[0].resource, bs[j].resource); }
      }
    } else {
      LexTotal(b.resource, bs[0].resource);
      InsertKeepsOrder(b, bs[1..]);
      var i := InsertCuts(b, bs[1..]);
      var r := Insert(b, bs[1..]);
      forall j | 0 <= j < |r| ensures Leq(bs[0], r[j]) {
        assert r[j] == b || r[j] in bs[1..];
      }
    }
  }

  // ----- The two aggregations -----

  ghost predicate Accumulated(acc: map<Key, Bucket>, events: seq<Usage>, period: int)
    requires period > 0
  {
    && (forall k :: k in acc <==> CountFor(events, period, k) > 0)
    && (forall k :: k in acc ==> acc[k] == BucketFor(events, period, k))
  }

  /** The accumulation loop: one bucket per key that has events, with their sum and number. */
  method Accumulate(events: seq<Usage>, period: int) returns (acc: map<Key, Bucket>)
    requires period > 0
    ensures Accumulated(acc, events, period)
  {
    acc := map[];
    for i := 0 to |events|
      invariant Accumulated(acc, events[..i], period)
    {
      var e := events[i];
      assert events[..i + 1] == events[..i] + [e];
      forall k { ForAppend(events[..i], e, period, k); }
      if e.at.Some? {
        var k := KeyFor(e, period);
        NobodyThere(events[..i], period, k);
        if k !in acc {
          acc := acc[k := Bucket(k.start, k.start + period, e.tenant, e.resource, 0.0, 0)];
        }
        var b := acc[k];
        acc := acc[k := b.(quantity := b.quantity + e.quantity, count := b.count + 1)];
      }
    }
    assert events[..|events|] == events;
  }

  ghost predicate SameBuckets(out: seq<Bucket>, acc: map<Key, Bucket>) {
    && DistinctKeys(out)
    && (forall b :: b in out ==> b.KeyOf() in acc && acc[b.KeyOf()] == b)
    && (forall k :: k in acc ==> acc[k] in out)
  }

  ghost predicate DistinctKeys(out: seq<Bucket>) {
    forall i, j :: 0 <= i < j < |out| ==> out[i].KeyOf() != out[j].KeyOf()
  }

  lemma InsertMembers(b: Bucket, out: seq<Bucket>)
    ensures forall x :: x in Insert(b, out) <==> x in out || x == b
  {
    var i := InsertCuts(b, out);
    assert out == out[..i] + out[i..];
  }

  lemma {:induction false} InsertKeepsKeys(b: Bucket, out: seq<Bucket>)
    requires DistinctKeys(out) && forall x :: x in out ==> x.KeyOf() != b.KeyOf()
    ensures DistinctKeys(Insert(b, out))
  {
    if out == [] || Leq(b, out[0]) {
    } else {
      InsertKeepsKeys(b, out[1..]);
      InsertMembers(b, out[1..]);
      var r := Insert(b, out[1..]);
      forall j | 0 <= j < |r| ensures r[j].KeyOf() != out[0].KeyOf() {
        assert r[j] == b || r[j] in out[1..];
      }
    }
  }

  lemma AddBucket(out: seq<Bucket>, acc: map<Key, Bucket>, b: Bucket)
    requires SameBuckets(out, acc) && b.KeyOf() !in acc
    ensures SameBuckets(Insert(b, out), acc[b.KeyOf() := b])
  {
    InsertKeepsKeys(b, out);
    InsertMembers(b, out);
  }

  /** The buckets have different keys, each is exactly the sum and number of the events of its key, and
      every event with a timestamp has its bucket. */
  ghost predicate Grouped(events: seq<Usage>, period: int, out: seq<Bucket>)
    requires period > 0
  {
    && DistinctKeys(out)
    && (forall b :: b in out ==> b.count > 0 && b == BucketFor(events, period, b.KeyOf()))
    && (forall e :: e in events && e.at.Some? ==> BucketFor(events, period, KeyFor(e, period)) in out)
  }

  // ----- Which buckets contain an event -----

  /** The bucket is of the event's tenant and resource, and its period contains the event. */
  predicate Covers(b: Bucket, e: Usage) {
    e.at.Some? && b.tenant == e.tenant && b.resource == e.resource && b.start <= e.at.value < b.end
  }

  ghost predicate ExactlyOneCovers(out: seq<Bucket>, e: Usage) {
    exists i :: 0 <= i < |out| && Covers(out[i], e) && forall j :: 0 <= j < |out| && Covers(out[j], e) ==> j == i
  }

  /** A bucket of the result starts where one of its events was put. */
  lemma BucketHasEvent(events: seq<Usage>, period: int, out: seq<Bucket>, b: Bucket) returns (f: Usage)
    requires period > 0 && Grouped(events, period, out) && b in out
    ensures f in events && Falls(f, period, b.KeyOf()) && b.end == b.start + period
  {
    NobodyThere(events, period, b.KeyOf());
    f :| f in events && Falls(f, period, b.KeyOf());
  }

  /** A bucket of the result covers an event exactly if it is of its tenant and resource and starts where
      the period containing the event starts. */
  lemma CoversIff(events: seq<Usage>, period: int, out: seq<Bucket>, b: Bucket, e: Usage)
    requires period > 0 && Grouped(events, period, out) && b in out && e.at.Some?
    ensures Covers(b, e) <==> b.KeyOf() == Key(TrueStart(e.at.value, period), e.resource, e.tenant)
  {
    var f := BucketHasEvent(events, period, out, b);
    var m := StartIsMultiple(f.at.value, period);
    OnlyPeriod(e.at.value, period, m);
  }

  /** Whether or not it lies before the epoch, no event lies in two buckets, and it lies in one exactly if
      some event of its tenant and resource was put where its own period starts. */
  lemma CoveredIff(events: seq<Usage>, period: int, out: seq<Bucket>, e: Usage)
    requires period > 0 && Grouped(events, period, out) && e.at.Some?
    ensures forall i, j :: 0 <= i < |out| && 0 <= j < |out| && Covers(out[i], e) && Covers(out[j], e) ==> i == j
    ensures ExactlyOneCovers(out, e) <==>
            exists f :: f in events && Falls(f, period, Key(TrueStart(e.at.value, period), e.resource, e.tenant))
  {
    var k := Key(TrueStart(e.at.value, period), e.resource, e.tenant);
    forall i | 0 <= i < |out| ensures Covers(out[i], e) <==> out[i].KeyOf() == k {
      CoversIff(events, period, out, out[i], e);
    }
    if f :| f in events && Falls(f, period, k) {
      var b := BucketFor(events, period, k);
      var i :| 0 <= i < |out| && out[i] == b;
      assert Covers(out[i], e);
    }
    if i :| 0 <= i < |out| && Covers(out[i], e) {
      var f := BucketHasEvent(events, period, out, out[i]);
    }
  }

  /** Every event from the epoch on lies in exactly one bucket of its tenant and resource, whatever events
      lie before the epoch. */
  lemma ExactlyOneBucket(events: seq<Usage>, period: int, out: seq<Bucket>, e: Usage)
    requires period > 0 && Grouped(events, period, out)
    requires e in events && e.at.Some? && e.at.value >= 0
    ensures ExactlyOneCovers(out, e)
  {
    assert Falls(e, period, Key(TrueStart(e.at.value, period), e.resource, e.tenant));
    CoveredIff(events, period, out, e);
  }

  /** Nothing for a period that is not positive; otherwise the grouping, ordered by start and resource, in
      which every event from the epoch on lies in exactly one bucket. */
  method BucketEvents(events: seq<Usage>, period: int) returns (out: seq<Bucket>)
    ensures period <= 0 ==> out == []
    ensures Ordered(out) && InSequence(out)
    ensures period > 0 ==> Grouped(events, period, out)
    ensures period > 0 ==> forall e :: e in events && e.at.Some? && e.at.value >= 0 ==> ExactlyOneCovers(out, e)
  {
    out := [];
    if period <= 0 {
      return;
    }
    var acc := Accumulate(events, period);
    var todo := acc;
    ghost var done: map<Key, Bucket> := map[];
    while todo.Keys != {}
      invariant forall k :: k in acc <==> k in todo || k in done
      invariant forall k :: k in todo ==> k !in done && acc[k] == todo[k]
      invariant forall k :: k in done ==> acc[k] == done[k]
      invariant SameBuckets(out, done) && Ordered(out)
      decreases todo.Keys
    {
      var k :| k in todo;
      AddBucket(out, done, todo[k]);
      InsertKeepsOrder(todo[k], out);
      out := Insert(todo[k], out);
      done := done[k := todo[k]];
      todo := todo - {k};
    }
    assert done == acc;
    OrderedIsInSequence(out);
    forall e | e in events && e.at.Some? ensures BucketFor(events, period, KeyFor(e, period)) in out {
      NobodyThere(events, period, KeyFor(e, period));
      assert Falls(e, period, KeyFor(e, period));
    }
    forall e | e in events && e.at.Some? && e.at.value >= 0 ensures ExactlyOneCovers(out, e) {
      ExactlyOneBucket(events, period, out, e);
    }
  }

  function Total(events: seq<Usage>): real {
    if events == [] then 0.0 else Total(events[..|events| - 1]) + events[|events| - 1].quantity
  }

  function ResourceTotal(events: seq<Usage>, resource: string): real {
    if events == [] then 0.0
    else
      var e := events[|events| - 1];
      ResourceTotal(events[..|events| - 1], resource) + (if e.resource == resource then e.quantity else 0.0)
  }

  method SummarizeEvents(events: seq<Usage>) returns (sum: Summary)
    ensures sum.total == Total(events) && sum.count == |events|
    ensures forall r :: r in sum.byResource <==> exists e :: e in events && e.resource == r
    ensures forall r :: r in sum.byResource ==> sum.byResource[r] == ResourceTotal(events, r)
  {
    sum := Summary(0.0, 0, map[]);
    for i := 0 to |events|
      invariant sum.total == Total(events[..i]) && sum.count == i
      invariant forall r :: r in sum.byResource <==> exists e :: e in events[..i] && e.resource == r
      invariant forall r :: (if r in sum.byResource then sum.byResource[r] else 0.0) == ResourceTotal(events[..i], r)
    {
      var e := events[i];
      assert events[..i + 1] == events[..i] + [e];
      assert events[..i + 1][..i] == events[..i];
      var before := if e.resource in sum.byResource then sum.byResource[e.resource] else 0.0;
      sum := Summary(sum.total + e.quantity, sum.count + 1, sum.byResource[e.resource := before + e.quantity]);
    }
    assert events[..|events|] == events;
  }

  // ----- Nothing is lost or counted twice -----

  function BucketQuantity(bs: seq<Bucket>, resource: string): real {
    if bs == [] then 0.0
    else
      var b := bs[|bs| - 1];
      BucketQuantity(bs[..|bs| - 1], resource) + (if b.resource == resource then b.quantity else 0.0)
  }

  function BucketCount(bs: seq<Bucket>): nat {
    if bs == [] then 0 else BucketCount(bs[..|bs| - 1]) + bs[|bs| - 1].count
  }

  function Timestamped(events: seq<Usage>): seq<Usage> {
    if events == [] then []
    else
      var init, e := Timestamped(events[..|events| - 1]), events[|events| - 1];
      if e.at.Some? then init + [e] else init
  }

  /** The buckets of given keys for a prefix of the events. */
  function BucketsFor(events: seq<Usage>, period: int, ks: seq<Key>): (bs: seq<Bucket>)
    requires period > 0
    ensures |bs| == |ks|
  {
    if ks == [] then [] else BucketsFor(events, period, ks[..|ks| - 1]) + [BucketFor(events, period, ks[|ks| - 1])]
  }

  /** One more event adds its quantity and itself to exactly one of several different buckets. */
  lemma {:induction false} OneMoreEvent(events: seq<Usage>, e: Usage, period: int, ks: seq<Key>, resource: string)
    requires period > 0 && Distinct(ks)
    ensures var before, after := BucketsFor(events, period, ks), BucketsFor(events + [e], period, ks);
            var hit := e.at.Some? && KeyFor(e, period) in ks;
            && BucketQuantity(after, resource)
               == BucketQuantity(before, resource) + (if hit && e.resource == resource then e.quantity else 0.0)
            && BucketCount(after) == BucketCount(before) + (if hit then 1 else 0)
  {
    if ks == [] {
    } else {
      var init, k := ks[..|ks| - 1], ks[|ks| - 1];
      OneMoreEvent(events, e, period, init, resource);
      ForAppend(events, e, period, k);
      assert ks == init + [k] && k !in init;
    }
  }

  lemma {:induction false} NoEvents(period: int, ks: seq<Key>, resource: string)
    requires period > 0
    ensures BucketQuantity(BucketsFor([], period, ks), resource) == 0.0 && BucketCount(BucketsFor([], period, ks)) == 0
  {
    if ks == [] {
    } else {
      NoEvents(period, ks[..|ks| - 1], resource);
    }
  }

  lemma {:induction false} EventsInBuckets(events: seq<Usage>, period: int, ks: seq<Key>, resource: string)
    requires period > 0 && Distinct(ks)
    requires forall e :: e in events && e.at.Some? ==> KeyFor(e, period) in ks
    ensures BucketQuantity(BucketsFor(events, period, ks), resource) == ResourceTotal(Timestamped(events), resource)
    ensures BucketCount(BucketsFor(events, period, ks)) == |Timestamped(events)|
  {
    if events == [] {
      NoEvents(period, ks, resource);
    } else {
      var init, e := events[..|events| - 1], events[|events| - 1];
      assert events == init + [e];
      EventsInBuckets(init, period, ks, resource);
      OneMoreEvent(init, e, period, ks, resource);
      if e.at.Some? {
        assert (Timestamped(init) + [e])[..|Timestamped(init)|] == Timestamped(init);
      }
    }
  }

  function KeysOf(bs: seq<Bucket>): (ks: seq<Key>)
    ensures |ks| == |bs| && forall i :: 0 <= i < |bs| ==> ks[i] == bs[i].KeyOf()
  {
    if bs == [] then [] else KeysOf(bs[..|bs| - 1]) + [bs[|bs| - 1].KeyOf()]
  }

  lemma {:induction false} Rebuilt(events: seq<Usage>, period: int, bs: seq<Bucket>)
    requires period > 0 && forall b :: b in bs ==> b == BucketFor(events, period, b.KeyOf())
    ensures BucketsFor(events, period, KeysOf(bs)) == bs
  {
    if bs == [] {
    } else {
      var init, b := bs[..|bs| - 1], bs[|bs| - 1];
      assert bs == init + [b];
      Rebuilt(events, period, init);
      assert KeysOf(bs)[..|bs| - 1] == KeysOf(init);
    }
  }

  /** Conservation: per resource, the buckets hold the same quantity as the summary of the timestamped
      events, and together as many events; they hold as many as there are events in all exactly if
      every event has a timestamp. */
  lemma BucketsConserve(events: seq<Usage>, period: int, out: seq<Bucket>, resource: string)
    requires period > 0 && Grouped(events, period, out)
    ensures BucketQuantity(out, resource) == ResourceTotal(Timestamped(events), resource)
    ensures BucketCount(out) == |Timestamped(events)|
    ensures BucketCount(out) == |events| <==> forall e :: e in events ==> e.at.Some?
  {
    var ks := KeysOf(out);
    Rebuilt(events, period, out);
    forall e | e in events && e.at.Some? ensures KeyFor(e, period) in ks {
      var b := BucketFor(events, period, KeyFor(e, period));
      var i :| 0 <= i < |out| && out[i] == b;
      assert ks[i] == b.KeyOf();
    }
    EventsInBuckets(events, period, ks, resource);
    AllTimestamped(events);
  }

  lemma {:induction false} AllTimestamped(events: seq<Usage>)
    ensures |Timestamped(events)| <= |events|
    ensures |Timestamped(events)| == |events| <==> forall e :: e in events ==> e.at.Some?
  {
    if events == [] {
    } else {
      AllTimestamped(events[..|events| - 1]);
      assert events == events[..|events| - 1] + [events[|events| - 1]];
    }
  }
}
