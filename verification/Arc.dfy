/** The Adaptive Replacement Cache. Lists hold keys, front first; the entry of a key is in `items`. */
module Arc {
  import opened Lists
  import Dbl = DoubleLru

  datatype ListId = T1 | T2 | B1 | B2

  datatype Entry<V> = Entry(value: V, isGhost: bool, listID: ListId)

  datatype State<K(==), V> = State(
    capacity: nat, p: int,
    t1: seq<K>, t2: seq<K>, b1: seq<K>, b2: seq<K>,
    items: map<K, Entry<V>>)
  {
    function List(id: ListId): seq<K> {
      match id case T1 => t1 case T2 => t2 case B1 => b1 case B2 => b2
    }

    predicate Resident(k: K) {
      k in items && !items[k].isGhost
    }

    ghost function Directory(): Dbl.Directory<K> {
      Dbl.Directory(t1 + b1, t2 + b2)
    }
  }

  function Initial<K(==), V>(capacity: int): State<K, V> {
    State(if capacity <= 0 then 1 else capacity, 0, [], [], [], [], map[])
  }

  // ----- Operations on states -----

  /** Takes k off the list its entry names; the entry itself stays. */
  function Unlink<K(==), V>(s: State<K, V>, k: K): State<K, V>
    requires k in s.items
  {
    match s.items[k].listID
    case T1 => s.(t1 := Without(s.t1, k))
    case T2 => s.(t2 := Without(s.t2, k))
    case B1 => s.(b1 := Without(s.b1, k))
    case B2 => s.(b2 := Without(s.b2, k))
  }

  /** Moves k, from whichever list, to the front of T2 with the given value. */
  function Promote<K(==), V>(s: State<K, V>, k: K, v: V): State<K, V>
    requires k in s.items
  {
    var u := Unlink(s, k);
    u.(t2 := [k] + u.t2, items := u.items[k := Entry(v, false, T2)])
  }

  /** Turns the least recent resident of T1 or T2 into a ghost. */
  function Replace<K(==), V>(s: State<K, V>, zero: V, current: Option<K>): State<K, V>
    requires current.Some? ==> current.value in s.items
  {
    if |s.t1| > 0 && (|s.t1| > s.p || (current.Some? && s.items[current.value].listID == B2 && |s.t1| == s.p))
    then
      var k := s.t1[|s.t1| - 1];
      s.(t1 := s.t1[..|s.t1| - 1], b1 := [k] + s.b1, items := s.items[k := Entry(zero, true, B1)])
    else if |s.t2| > 0 then
      var k := s.t2[|s.t2| - 1];
      s.(t2 := s.t2[..|s.t2| - 1], b2 := [k] + s.b2, items := s.items[k := Entry(zero, true, B2)])
    else s
  }

  /** Drops the least recent key of one list together with its entry. */
  function EvictLru<K(==), V>(s: State<K, V>, id: ListId): State<K, V> {
    var l := s.List(id);
    if l == [] then s
    else
      var u := s.(items := s.items - {l[|l| - 1]});
      match id
      case T1 => u.(t1 := l[..|l| - 1])
      case T2 => u.(t2 := l[..|l| - 1])
      case B1 => u.(b1 := l[..|l| - 1])
      case B2 => u.(b2 := l[..|l| - 1])
  }

  function InsertNew<K(==), V>(s: State<K, V>, k: K, v: V): State<K, V> {
    s.(t1 := [k] + s.t1, items := s.items[k := Entry(v, false, T1)])
  }

  function GetStep<K(==), V>(s: State<K, V>, k: K): State<K, V> {
    if s.Resident(k) then Promote(s, k, s.items[k].value) else s
  }

  /** How far a ghost hit moves the target: the ratio of the ghost lists, at least one. */
  function Delta(mine: nat, other: nat): (d: nat)
    requires mine > 0
    ensures d >= 1
  {
    if mine < other then other / mine else 1
  }

  function MakeRoom<K(==), V>(s: State<K, V>, zero: V): State<K, V> {
    if |s.t1| + |s.b1| == s.capacity then
      if |s.t1| < s.capacity then Replace(EvictLru(s, B1), zero, None) else EvictLru(s, T1)
    else if |s.t1| + |s.b1| < s.capacity && |s.t1| + |s.t2| + |s.b1| + |s.b2| >= s.capacity then
      Replace(if |s.t1| + |s.t2| + |s.b1| + |s.b2| == 2 * s.capacity then EvictLru(s, B2) else s, zero, None)
    else s
  }

  /** The target after a hit on ghost k: up for B1, down for B2, within the capacity. */
  function Target<K(==,!new), V>(s: State<K, V>, k: K): (p: int)
    requires Valid(s) && k in s.items && s.items[k].isGhost
    ensures 0 <= p <= s.capacity
  {
    if s.items[k].listID == B1 then
      assert k in s.b1;
      Min(s.p + Delta(|s.b1|, |s.b2|), s.capacity)
    else
      assert k in s.b2;
      Max(s.p - Delta(|s.b2|, |s.b1|), 0)
  }

  function SetStep<K(==,!new), V>(s: State<K, V>, zero: V, k: K, v: V): State<K, V>
    requires Valid(s)
  {
    if s.Resident(k) then Promote(s, k, v)
    else if k in s.items then Promote(Replace(s.(p := Target(s, k)), zero, Some(k)), k, v)
    else InsertNew(MakeRoom(s, zero), k, v)
  }

  // ----- Invariant -----

  /** A list and the index agree: the list has no repeats and holds a key exactly if the key's entry
      names that list. */
  ghost predicate On<K(!new), V>(l: seq<K>, id: ListId, items: map<K, Entry<V>>) {
    && Distinct(l)
    && (forall k :: k in l <==> k in items && items[k].listID == id)
  }

  /** Four pairwise disjoint lists which together are exactly the keys of the index. */
  ghost predicate Linked<K(!new), V>(s: State<K, V>) {
    && On(s.t1, T1, s.items) && On(s.t2, T2, s.items) && On(s.b1, B1, s.items) && On(s.b2, B2, s.items)
    && (forall k :: k in s.items ==> (s.items[k].isGhost <==> s.items[k].listID in {B1, B2}))
  }

  /** The size constraints, which hold only jointly. */
  ghost predicate Sized<K(!new), V>(s: State<K, V>) {
    && s.capacity > 0
    && 0 <= s.p <= s.capacity
    && |s.t1| + |s.b1| <= s.capacity
    && |s.t1| + |s.t2| <= s.capacity
    && |s.t1| + |s.t2| + |s.b1| + |s.b2| <= 2 * s.capacity
    && (s.b1 != [] || s.b2 != [] ==> |s.t1| + |s.t2| == s.capacity)
  }

  ghost predicate Valid<K(!new), V>(s: State<K, V>) {
    Linked(s) && Sized(s)
  }

  lemma OnPush<K(!new), V>(l: seq<K>, id: ListId, items: map<K, Entry<V>>, k: K, e: Entry<V>)
    requires On(l, id, items) && k !in l && e.listID == id
    ensures On([k] + l, id, items[k := e])
  {}

  lemma OnUnlink<K(!new), V>(l: seq<K>, id: ListId, items: map<K, Entry<V>>, k: K, e: Entry<V>)
    requires On(l, id, items) && k in l
    ensures e.listID != id ==> On(Without(l, k), id, items[k := e])
    ensures e.listID == id ==> On([k] + Without(l, k), id, items[k := e])
  {
    WithoutIs(l, k);
  }

  lemma OnDropLast<K(!new), V>(l: seq<K>, id: ListId, items: map<K, Entry<V>>, e: Entry<V>)
    requires l != [] && On(l, id, items) && e.listID != id
    ensures On(l[..|l| - 1], id, items[l[|l| - 1] := e])
  {
    assert l == l[..|l| - 1] + [l[|l| - 1]];
  }

  lemma OnDelete<K(!new), V>(l: seq<K>, id: ListId, items: map<K, Entry<V>>)
    requires l != [] && On(l, id, items)
    ensures On(l[..|l| - 1], id, items - {l[|l| - 1]})
  {
    assert l == l[..|l| - 1] + [l[|l| - 1]];
  }

  lemma PromoteLinked<K(!new), V>(s: State<K, V>, k: K, v: V)
    requires Linked(s) && k in s.items
    ensures Linked(Promote(s, k, v))
  {
    var e := Entry(v, false, T2);
    match s.items[k].listID
    case T1 =>
      OnUnlink(s.t1, T1, s.items, k, e);
      OnPush(s.t2, T2, s.items, k, e);
    case T2 =>
      OnUnlink(s.t2, T2, s.items, k, e);
    case B1 =>
      OnUnlink(s.b1, B1, s.items, k, e);
      OnPush(s.t2, T2, s.items, k, e);
    case B2 =>
      OnUnlink(s.b2, B2, s.items, k, e);
      OnPush(s.t2, T2, s.items, k, e);
  }

  lemma ReplaceLinked<K(!new), V>(s: State<K, V>, zero: V, current: Option<K>)
    requires Linked(s) && (current.Some? ==> current.value in s.items)
    ensures Linked(Replace(s, zero, current))
    ensures Replace(s, zero, current).items.Keys == s.items.Keys
  {
    var r := Replace(s, zero, current);
    if |r.t1| < |s.t1| {
      OnDropLast(s.t1, T1, s.items, Entry(zero, true, B1));
      OnPush(s.b1, B1, s.items, s.t1[|s.t1| - 1], Entry(zero, true, B1));
    } else if |r.t2| < |s.t2| {
      OnDropLast(s.t2, T2, s.items, Entry(zero, true, B2));
      OnPush(s.b2, B2, s.items, s.t2[|s.t2| - 1], Entry(zero, true, B2));
    }
  }

  lemma EvictLinked<K(!new), V>(s: State<K, V>, id: ListId)
    requires Linked(s)
    ensures Linked(EvictLru(s, id))
  {
    var l := s.List(id);
    if l != [] {
      OnDelete(l, id, s.items);
    }
  }

  lemma InsertLinked<K(!new), V>(s: State<K, V>, k: K, v: V)
    requires Linked(s) && k !in s.items
    ensures Linked(InsertNew(s, k, v))
  {
    OnPush(s.t1, T1, s.items, k, Entry(v, false, T1));
  }

  // ----- Every operation keeps the invariant and refines the reference directory -----

  /** With a full cache, and room below the target guaranteed or a B2 hit in progress, Replace demotes
      exactly one resident; the two directory lists do not move. */
  lemma ReplaceDemotes<K(!new), V>(s: State<K, V>, zero: V, current: Option<K>)
    requires s.capacity > 0 && 0 <= s.p <= s.capacity
    requires current.Some? ==> current.value in s.items
    requires |s.t1| + |s.t2| == s.capacity
    requires |s.t1| < s.capacity || (current.Some? && s.items[current.value].listID == B2)
    ensures var r := Replace(s, zero, current);
            && |r.t1| + |r.t2| == s.capacity - 1
            && r.Directory() == s.Directory()
            && r.capacity == s.capacity && r.p == s.p
            && (current.Some? && current.value !in s.t1 && current.value !in s.t2
                ==> r.items[current.value] == s.items[current.value])
  {
    var r := Replace(s, zero, current);
    assert r.t1 + r.b1 == s.t1 + s.b1;
    assert r.t2 + r.b2 == s.t2 + s.b2;
  }

  /** Promotion is a touch of a known key in the directory. */
  lemma PromoteTouches<K(!new), V>(s: State<K, V>, k: K, v: V)
    requires Linked(s) && k in s.items && s.capacity > 0
    ensures Promote(s, k, v).Directory() == Dbl.Touch(s.capacity, s.Directory(), k)
  {
    match s.items[k].listID
    case T1 =>
      WithoutConcat(s.t1, s.b1, k);
      assert [k] + (s.t2 + s.b2) == ([k] + s.t2) + s.b2;
    case B1 =>
      WithoutConcat(s.t1, s.b1, k);
      assert k in s.b1 && k !in s.t1;
      assert [k] + (s.t2 + s.b2) == ([k] + s.t2) + s.b2;
    case T2 =>
      WithoutConcat(s.t2, s.b2, k);
      assert k in s.t2 && k !in s.t1 + s.b1;
      assert [k] + (Without(s.t2, k) + s.b2) == ([k] + Without(s.t2, k)) + s.b2;
    case B2 =>
      WithoutConcat(s.t2, s.b2, k);
      assert k in s.b2 && k !in s.t1 + s.b1 && k !in s.t2;
      assert [k] + (s.t2 + Without(s.b2, k)) == ([k] + s.t2) + Without(s.b2, k);
  }

  lemma PromoteSizes<K(!new), V>(s: State<K, V>, k: K, v: V)
    requires Linked(s) && k in s.items
    ensures var u := Promote(s, k, v);
            && |u.t1| + |u.b1| <= |s.t1| + |s.b1|
            && |u.b1| <= |s.b1| && |u.b2| <= |s.b2|
            && |u.t1| + |u.t2| + |u.b1| + |u.b2| == |s.t1| + |s.t2| + |s.b1| + |s.b2|
            && |u.t1| + |u.t2| == |s.t1| + |s.t2| + (if s.items[k].isGhost then 1 else 0)
  {
    WithoutIs(s.List(s.items[k].listID), k);
    assert k in s.List(s.items[k].listID);
  }

  lemma GetValid<K(!new), V>(s: State<K, V>, k: K)
    requires Valid(s)
    ensures Valid(GetStep(s, k))
    ensures GetStep(s, k).Directory()
         == if s.Resident(k) then Dbl.Touch(s.capacity, s.Directory(), k) else s.Directory()
  {
    if s.Resident(k) {
      PromoteLinked(s, k, s.items[k].value);
      PromoteSizes(s, k, s.items[k].value);
      PromoteTouches(s, k, s.items[k].value);
    }
  }

  /** A ghost hit, whatever the target has become. */
  lemma GhostHit<K(!new), V>(s: State<K, V>, zero: V, k: K, v: V, p: int)
    requires Valid(s) && 0 <= p <= s.capacity
    requires k in s.items && s.items[k].isGhost
    ensures var r := Promote(Replace(s.(p := p), zero, Some(k)), k, v);
            Valid(r) && r.Directory() == Dbl.Touch(s.capacity, s.Directory(), k)
  {
    var a := s.(p := p);
    assert k in s.List(s.items[k].listID);
    var b := Replace(a, zero, Some(k));
    ReplaceLinked(a, zero, Some(k));
    ReplaceDemotes(a, zero, Some(k));
    assert |b.t1 + b.b1| == |a.t1 + a.b1| && |b.t2 + b.b2| == |a.t2 + a.b2|;
    PromoteLinked(b, k, v);
    PromoteSizes(b, k, v);
    PromoteTouches(b, k, v);
  }

  /** r has room for the unknown key k: one slot is free, and the directory has dropped exactly what
      the reference drops. */
  ghost predicate RoomFor<K(!new), V>(s: State<K, V>, r: State<K, V>, k: K)
    requires s.capacity > 0
  {
    && Linked(r) && k !in r.items && r.capacity == s.capacity && r.p == s.p
    && |r.t1| + |r.t2| == Min(|s.t1| + |s.t2|, s.capacity - 1)
    && Dbl.Directory([k] + r.Directory().l1, r.Directory().l2) == Dbl.Touch(s.capacity, s.Directory(), k)
  }

  lemma NotListed<K(!new), V>(s: State<K, V>, k: K)
    requires Linked(s) && k !in s.items
    ensures k !in s.Directory().l1 && k !in s.Directory().l2
  {}

  lemma RoomInFullL1<K(!new), V>(s: State<K, V>, zero: V, k: K)
    requires Valid(s) && k !in s.items
    requires |s.t1| + |s.b1| == s.capacity && |s.t1| < s.capacity
    ensures RoomFor(s, Replace(EvictLru(s, B1), zero, None), k)
  {
    NotListed(s, k);
    var e := EvictLru(s, B1);
    EvictLinked(s, B1);
    ReplaceLinked(e, zero, None);
    ReplaceDemotes(e, zero, None);
    assert e.t1 + e.b1 == (s.t1 + s.b1)[..s.capacity - 1];
  }

  lemma RoomInFullT1<K(!new), V>(s: State<K, V>, k: K)
    requires Valid(s) && k !in s.items && |s.t1| == s.capacity
    ensures RoomFor(s, EvictLru(s, T1), k)
  {
    NotListed(s, k);
    var e := EvictLru(s, T1);
    EvictLinked(s, T1);
    assert s.b1 == [] && e.t1 + e.b1 == (s.t1 + s.b1)[..s.capacity - 1];
  }

  lemma RoomInFullCache<K(!new), V>(s: State<K, V>, zero: V, k: K)
    requires Valid(s) && k !in s.items
    requires |s.t1| + |s.b1| < s.capacity && |s.t1| + |s.t2| == s.capacity
    ensures RoomFor(s, MakeRoom(s, zero), k)
  {
    NotListed(s, k);
    var full := |s.t1| + |s.t2| + |s.b1| + |s.b2| == 2 * s.capacity;
    var e := if full then EvictLru(s, B2) else s;
    if full {
      EvictLinked(s, B2);
      assert e.t2 + e.b2 == (s.t2 + s.b2)[..|s.t2 + s.b2| - 1];
    }
    ReplaceLinked(e, zero, None);
    ReplaceDemotes(e, zero, None);
  }

  lemma RoomMade<K(!new), V>(s: State<K, V>, zero: V, k: K)
    requires Valid(s) && k !in s.items
    ensures RoomFor(s, MakeRoom(s, zero), k)
    ensures |s.t1| + |s.t2| < s.capacity ==> MakeRoom(s, zero) == s
  {
    if |s.t1| == s.capacity {
      RoomInFullT1(s, k);
    } else if |s.t1| + |s.b1| == s.capacity {
      RoomInFullL1(s, zero, k);
    } else if |s.t1| + |s.t2| == s.capacity {
      RoomInFullCache(s, zero, k);
    } else {
      NotListed(s, k);
    }
  }

  lemma MissValid<K(!new), V>(s: State<K, V>, zero: V, k: K, v: V)
    requires Valid(s) && k !in s.items
    ensures var r := InsertNew(MakeRoom(s, zero), k, v);
            Valid(r) && r.Directory() == Dbl.Touch(s.capacity, s.Directory(), k)
  {
    var r := MakeRoom(s, zero);
    RoomMade(s, zero, k);
    InsertLinked(r, k, v);
    assert ([k] + r.t1) + r.b1 == [k] + (r.t1 + r.b1);
    var d := Dbl.Touch(s.capacity, s.Directory(), k);
    assert |r.t1| + 1 + |r.b1| == |d.l1| && |r.t2| + |r.b2| == |d.l2|;
  }

  /** Set keeps the joint invariant, moves the directory exactly as DBL(2c) does, and leaves the key
      resident with the value just given. */
  lemma SetValid<K(!new), V>(s: State<K, V>, zero: V, k: K, v: V)
    requires Valid(s)
    ensures Valid(SetStep(s, zero, k, v))
    ensures SetStep(s, zero, k, v).Directory() == Dbl.Touch(s.capacity, s.Directory(), k)
    ensures SetStep(s, zero, k, v).Resident(k) && SetStep(s, zero, k, v).items[k].value == v
    ensures SetStep(s, zero, k, v).capacity == s.capacity
  {
    if s.Resident(k) {
      PromoteLinked(s, k, v);
      PromoteSizes(s, k, v);
      PromoteTouches(s, k, v);
    } else if k in s.items {
      GhostHit(s, zero, k, v, Target(s, k));
    } else {
      MissValid(s, zero, k, v);
    }
  }

  // ----- Exactly what an operation does to the lists, in terms of the states before and after -----

  function ButLast<K>(l: seq<K>): seq<K> {
    if l == [] then [] else l[..|l| - 1]
  }

  /** A hit moves the key to the front of T2 and nothing else. */
  ghost predicate HitMoves<K(!new), V>(s: State<K, V>, k: K, r: State<K, V>) {
    && r.t1 == Without(s.t1, k) && r.t2 == [k] + Without(s.t2, k)
    && r.b1 == s.b1 && r.b2 == s.b2 && r.p == s.p
  }

  /** One list loses its last key, which becomes the first of the matching ghost list; new1 and new2 come
      in front of T1 and T2, and b1 and b2 are what else there is of the ghost lists. */
  ghost predicate OneDemoted<K(!new), V>(
    s: State<K, V>, r: State<K, V>, fromT1: bool, new1: seq<K>, new2: seq<K>, b1: seq<K>, b2: seq<K>)
  {
    if fromT1 then
      && s.t1 != []
      && r.t1 == new1 + s.t1[..|s.t1| - 1] && r.b1 == [s.t1[|s.t1| - 1]] + b1
      && r.t2 == new2 + s.t2 && r.b2 == b2
    else
      && s.t2 != []
      && r.t1 == new1 + s.t1 && r.b1 == b1
      && r.t2 == new2 + s.t2[..|s.t2| - 1] && r.b2 == [s.t2[|s.t2| - 1]] + b2
  }

  /** A ghost returns to the front of T2. The target moves first, and T1 gives way if it is then above
      target, or on target when the ghost comes from B2. */
  ghost predicate GhostReturns<K(!new), V>(s: State<K, V>, k: K, r: State<K, V>) {
    && (k in s.b1 ==> r.p == Min(s.capacity, s.p + Max(1, |s.b2| / |s.b1|)))
    && (k in s.b2 ==> r.p == Max(0, s.p - Max(1, |s.b1| / |s.b2|)))
    && OneDemoted(s, r, s.t1 != [] && (|s.t1| > r.p || (|s.t1| == r.p && k in s.b2)),
                  [], [k], Without(s.b1, k), Without(s.b2, k))
  }

  /** An unknown key enters at the front of T1. With room nothing else happens; a T1 that fills the cache
      drops its last key for good; otherwise T1 gives way if it is above target, T2 if not, and a full
      T1+B1, or else a full directory, forgets its last ghost. */
  ghost predicate NewcomerEnters<K(!new), V>(s: State<K, V>, k: K, r: State<K, V>) {
    && r.p == s.p
    && if |s.t1| + |s.t2| < s.capacity then
         r.t1 == [k] + s.t1 && r.t2 == s.t2 && r.b1 == s.b1 && r.b2 == s.b2
       else if |s.t1| == s.capacity then
         r.t1 == [k] + ButLast(s.t1) && r.t2 == s.t2 && r.b1 == s.b1 && r.b2 == s.b2
       else
         var fullL1 := |s.t1| + |s.b1| == s.capacity;
         var full := |s.t1| + |s.t2| + |s.b1| + |s.b2| == 2 * s.capacity;
         OneDemoted(s, r, s.t1 != [] && |s.t1| > s.p, [k], [],
                    if fullL1 then ButLast(s.b1) else s.b1, if !fullL1 && full then ButLast(s.b2) else s.b2)
  }

  ghost predicate SetMoves<K(!new), V>(s: State<K, V>, k: K, r: State<K, V>) {
    if k in s.t1 || k in s.t2 then HitMoves(s, k, r)
    else if k in s.b1 || k in s.b2 then GhostReturns(s, k, r)
    else NewcomerEnters(s, k, r)
  }

  ghost predicate GetMoves<K(!new), V>(s: State<K, V>, k: K, r: State<K, V>) {
    if k in s.t1 || k in s.t2 then HitMoves(s, k, r) else r == s
  }

  lemma WhereItIs<K(!new), V>(s: State<K, V>, k: K)
    requires Linked(s)
    ensures s.Resident(k) <==> k in s.t1 || k in s.t2
    ensures k in s.items && s.items[k].isGhost <==> k in s.b1 || k in s.b2
    ensures k in s.t1 ==> k !in s.t2 && k !in s.b1 && k !in s.b2
    ensures k in s.t2 ==> k !in s.b1 && k !in s.b2
    ensures k in s.b1 ==> k !in s.b2
  {
    if k in s.items { assert k in s.List(s.items[k].listID); }
  }

  lemma PromotedHit<K(!new), V>(s: State<K, V>, k: K, v: V)
    requires Linked(s) && s.Resident(k)
    ensures HitMoves(s, k, Promote(s, k, v))
  {
    WhereItIs(s, k);
    if k in s.t1 { WithoutAbsent(s.t2, k); } else { WithoutAbsent(s.t1, k); }
  }

  /** Replace in a full cache, told by its effect. */
  lemma ReplaceIs<K(!new), V>(s: State<K, V>, zero: V, current: Option<K>)
    requires s.capacity > 0 && 0 <= s.p <= s.capacity
    requires current.Some? ==> current.value in s.items
    requires |s.t1| + |s.t2| == s.capacity
    requires |s.t1| < s.capacity || (current.Some? && s.items[current.value].listID == B2)
    ensures var r := Replace(s, zero, current);
            var b2Hit := current.Some? && s.items[current.value].listID == B2;
            var fromT1 := s.t1 != [] && (|s.t1| > s.p || (|s.t1| == s.p && b2Hit));
            OneDemoted(s, r, fromT1, [], [], s.b1, s.b2) && r.p == s.p
  {}

  /** From a state in which key x was demoted, moving ghost k to the front of T2. */
  lemma PromotedGhost<K(!new), V>(s: State<K, V>, b: State<K, V>, fromT1: bool, k: K, v: V)
    requires k in b.items && b.items[k].listID in {B1, B2}
    requires OneDemoted(s, b, fromT1, [], [], s.b1, s.b2)
    requires k != if fromT1 then s.t1[|s.t1| - 1] else s.t2[|s.t2| - 1]
    requires if b.items[k].listID == B1 then Without(s.b2, k) == s.b2 else Without(s.b1, k) == s.b1
    ensures OneDemoted(s, Promote(b, k, v), fromT1, [], [k], Without(s.b1, k), Without(s.b2, k))
    ensures Promote(b, k, v).p == b.p
  {
    var x := if fromT1 then s.t1[|s.t1| - 1] else s.t2[|s.t2| - 1];
    WithoutCons(x, s.b1, k);
    WithoutCons(x, s.b2, k);
  }

  lemma GhostIsNoResident<K(!new), V>(s: State<K, V>, k: K)
    requires Valid(s) && k in s.items && s.items[k].isGhost
    ensures k !in s.t1 && k !in s.t2 && (k in s.b2 <==> s.items[k].listID == B2)
    ensures |s.t1| + |s.t2| == s.capacity && (|s.t1| == s.capacity ==> k in s.b2)
  {
    WhereItIs(s, k);
  }

  lemma AfterReplace<K(!new), V>(s: State<K, V>, zero: V, k: K, p: int)
    requires Valid(s) && 0 <= p <= s.capacity && k in s.items && s.items[k].isGhost
    ensures var b := Replace(s.(p := p), zero, Some(k));
            var fromT1 := s.t1 != [] && (|s.t1| > p || (|s.t1| == p && k in s.b2));
            && OneDemoted(s, b, fromT1, [], [], s.b1, s.b2) && b.p == p
            && k in b.items && b.items[k].listID == s.items[k].listID
            && k != if fromT1 then s.t1[|s.t1| - 1] else s.t2[|s.t2| - 1]
  {
    var a := s.(p := p);
    GhostIsNoResident(s, k);
    ReplaceDemotes(a, zero, Some(k));
    ReplaceIs(a, zero, Some(k));
    assert a.t1 == s.t1 && a.t2 == s.t2 && a.b1 == s.b1 && a.b2 == s.b2;
  }

  lemma TargetIs<K(!new), V>(s: State<K, V>, k: K)
    requires Valid(s) && k in s.items && s.items[k].isGhost
    ensures k in s.b1 ==> Target(s, k) == Min(s.capacity, s.p + Max(1, |s.b2| / |s.b1|))
    ensures k in s.b2 ==> Target(s, k) == Max(0, s.p - Max(1, |s.b1| / |s.b2|))
  {
    if k in s.b1 { RatioAtMostOne(|s.b2|, |s.b1|); }
    if k in s.b2 { RatioAtMostOne(|s.b1|, |s.b2|); }
  }

  lemma OtherGhostsStay<K(!new), V>(s: State<K, V>, k: K)
    requires Linked(s) && k in s.items && s.items[k].isGhost
    ensures s.items[k].listID in {B1, B2}
    ensures if s.items[k].listID == B1 then Without(s.b2, k) == s.b2 else Without(s.b1, k) == s.b1
  {
    WhereItIs(s, k);
    if k in s.b1 { WithoutAbsent(s.b2, k); } else { WithoutAbsent(s.b1, k); }
  }

  lemma GhostReturnsTo<K(!new), V>(s: State<K, V>, zero: V, k: K, v: V)
    requires Valid(s) && k in s.items && s.items[k].isGhost
    ensures GhostReturns(s, k, SetStep(s, zero, k, v))
  {
    var p := Target(s, k);
    var b := Replace(s.(p := p), zero, Some(k));
    var fromT1 := s.t1 != [] && (|s.t1| > p || (|s.t1| == p && k in s.b2));
    AfterReplace(s, zero, k, p);
    OtherGhostsStay(s, k);
    PromotedGhost(s, b, fromT1, k, v);
    TargetIs(s, k);
  }

  lemma NewcomerDemotes<K(!new), V>(s: State<K, V>, e: State<K, V>, zero: V, k: K, v: V)
    requires s.capacity > 0 && 0 <= s.p <= s.capacity && |s.t1| + |s.t2| == s.capacity && |s.t1| < s.capacity
    requires e.capacity == s.capacity && e.p == s.p && e.t1 == s.t1 && e.t2 == s.t2
    ensures OneDemoted(s, InsertNew(Replace(e, zero, None), k, v), s.t1 != [] && |s.t1| > s.p, [k], [], e.b1, e.b2)
    ensures InsertNew(Replace(e, zero, None), k, v).p == s.p
  {
    ReplaceIs(e, zero, None);
  }

  lemma NewcomerInFullCache<K(!new), V>(s: State<K, V>, zero: V, k: K, v: V)
    requires Sized(s) && |s.t1| + |s.t2| == s.capacity && |s.t1| < s.capacity
    ensures NewcomerEnters(s, k, InsertNew(MakeRoom(s, zero), k, v))
  {
    var e := if |s.t1| + |s.b1| == s.capacity then EvictLru(s, B1)
             else if |s.t1| + |s.t2| + |s.b1| + |s.b2| == 2 * s.capacity then EvictLru(s, B2) else s;
    NewcomerDemotes(s, e, zero, k, v);
  }

  lemma NewcomerEntersAt<K(!new), V>(s: State<K, V>, zero: V, k: K, v: V)
    requires Sized(s)
    ensures NewcomerEnters(s, k, InsertNew(MakeRoom(s, zero), k, v))
  {
    if |s.t1| + |s.t2| == s.capacity && |s.t1| < s.capacity {
      NewcomerInFullCache(s, zero, k, v);
    }
  }

  /** Every Set does exactly this to the lists and the target. */
  lemma SetIsExact<K(!new), V>(s: State<K, V>, zero: V, k: K, v: V)
    requires Valid(s)
    ensures SetMoves(s, k, SetStep(s, zero, k, v))
  {
    WhereItIs(s, k);
    if s.Resident(k) {
      PromotedHit(s, k, v);
    } else if k in s.items {
      GhostReturnsTo(s, zero, k, v);
    } else {
      NewcomerEntersAt(s, zero, k, v);
    }
  }

  lemma GetIsExact<K(!new), V>(s: State<K, V>, k: K)
    requires Valid(s)
    ensures GetMoves(s, k, GetStep(s, k))
  {
    WhereItIs(s, k);
    if s.Resident(k) { PromotedHit(s, k, s.items[k].value); }
  }

  /** The key that stops being resident when k is Set and the target becomes p. */
  function Victim<K(==), V>(s: State<K, V>, k: K, p: int): Option<K> {
    if k in s.t1 || k in s.t2 || |s.t1| + |s.t2| < s.capacity then None
    else if s.t1 != [] && (|s.t1| > p || |s.t1| == s.capacity || (|s.t1| == p && k in s.b2))
    then Some(s.t1[|s.t1| - 1])
    else if s.t2 != [] then Some(s.t2[|s.t2| - 1]) else None
  }

  lemma LastLeaves<K(!new)>(l: seq<K>, x: K)
    requires Distinct(l) && l != []
    ensures x in l[..|l| - 1] <==> x in l && x != l[|l| - 1]
  {
    assert l == l[..|l| - 1] + [l[|l| - 1]];
  }

  /** The keys of T1 and T2, each in its own list once. */
  ghost predicate Residents<K(!new), V>(s: State<K, V>) {
    && Distinct(s.t1) && Distinct(s.t2) && (forall x :: x in s.t1 ==> x !in s.t2)
    && (forall x :: s.Resident(x) <==> x in s.t1 || x in s.t2)
  }

  lemma ValidResidents<K(!new), V>(s: State<K, V>)
    requires Linked(s)
    ensures Residents(s)
  {
    forall x ensures (s.Resident(x) <==> x in s.t1 || x in s.t2) && (x in s.t1 ==> x !in s.t2) {
      WhereItIs(s, x);
    }
  }

  lemma DemotedLeaves<K(!new), V>(
    s: State<K, V>, r: State<K, V>, fromT1: bool, new1: seq<K>, new2: seq<K>, b1: seq<K>, b2: seq<K>, x: K)
    requires Residents(s) && Residents(r) && OneDemoted(s, r, fromT1, new1, new2, b1, b2)
    requires forall y :: y in new1 || y in new2 ==> !s.Resident(y)
    ensures s.Resident(x) && !r.Resident(x) <==> x == if fromT1 then s.t1[|s.t1| - 1] else s.t2[|s.t2| - 1]
  {
    if fromT1 { LastLeaves(s.t1, x); } else { LastLeaves(s.t2, x); }
    assert x in r.t1 <==> x in new1 || x in if fromT1 then s.t1[..|s.t1| - 1] else s.t1;
    assert x in r.t2 <==> x in new2 || x in if fromT1 then s.t2 else s.t2[..|s.t2| - 1];
  }

  lemma HitLeavesNone<K(!new), V>(s: State<K, V>, r: State<K, V>, k: K, x: K)
    requires Residents(s) && Residents(r) && HitMoves(s, k, r) && s.Resident(x)
    ensures r.Resident(x)
  {
    WithoutIs(s.t1, k);
    WithoutIs(s.t2, k);
    assert x in r.t2 <==> x == k || x in Without(s.t2, k);
  }

  lemma GhostMakesLeave<K(!new), V>(s: State<K, V>, r: State<K, V>, k: K, x: K)
    requires Residents(s) && Residents(r) && GhostReturns(s, k, r) && !s.Resident(k)
    requires |s.t1| + |s.t2| == s.capacity && (|s.t1| == s.capacity ==> |s.t1| > r.p || k in s.b2)
    requires 0 <= r.p <= s.capacity
    ensures s.Resident(x) && !r.Resident(x) <==> Victim(s, k, r.p) == Some(x)
  {
    var fromT1 := s.t1 != [] && (|s.t1| > r.p || (|s.t1| == r.p && k in s.b2));
    DemotedLeaves(s, r, fromT1, [], [k], Without(s.b1, k), Without(s.b2, k), x);
  }

  lemma NewcomerMakesLeave<K(!new), V>(s: State<K, V>, r: State<K, V>, k: K, x: K)
    requires Residents(s) && Residents(r) && NewcomerEnters(s, k, r) && !s.Resident(k)
    requires |s.t1| + |s.t2| <= s.capacity && s.capacity > 0 && k !in s.b2
    ensures s.Resident(x) && !r.Resident(x) <==> Victim(s, k, r.p) == Some(x)
  {
    if |s.t1| + |s.t2| < s.capacity {
      assert x in r.t1 <==> x == k || x in s.t1;
    } else if |s.t1| == s.capacity {
      LastLeaves(s.t1, x);
      assert x in r.t1 <==> x == k || x in s.t1[..|s.t1| - 1];
    } else {
      var fullL1 := |s.t1| + |s.b1| == s.capacity;
      var full := |s.t1| + |s.t2| + |s.b1| + |s.b2| == 2 * s.capacity;
      DemotedLeaves(s, r, s.t1 != [] && |s.t1| > s.p, [k], [], if fullL1 then ButLast(s.b1) else s.b1,
                    if !fullL1 && full then ButLast(s.b2) else s.b2, x);
    }
  }

  /** Exactly one key stops being resident on a Set that needs room, none on any other Set. */
  lemma WhoLeaves<K(!new), V>(s: State<K, V>, zero: V, k: K, v: V, x: K)
    requires Valid(s)
    ensures var r := SetStep(s, zero, k, v);
            s.Resident(x) && !r.Resident(x) <==> Victim(s, k, r.p) == Some(x)
  {
    var r := SetStep(s, zero, k, v);
    SetValid(s, zero, k, v);
    SetIsExact(s, zero, k, v);
    WhereItIs(s, k);
    ValidResidents(s);
    ValidResidents(r);
    if s.Resident(k) {
      if s.Resident(x) { HitLeavesNone(s, r, k, x); }
    } else if k in s.items {
      GhostMakesLeave(s, r, k, x);
    } else {
      NewcomerMakesLeave(s, r, k, x);
    }
  }

  // ----- What stays cached -----

  /** Nothing becomes resident or changes value between s and r. */
  ghost predicate Subcache<K(!new), V>(r: State<K, V>, s: State<K, V>) {
    forall x :: r.Resident(x) ==> s.Resident(x) && r.items[x].value == s.items[x].value
  }

  lemma RoomIsSubcache<K(!new), V>(s: State<K, V>, zero: V)
    requires Valid(s)
    ensures Subcache(MakeRoom(s, zero), s) && MakeRoom(s, zero).items.Keys <= s.items.Keys
  {}

  lemma GhostHitKeepsValues<K(!new), V>(s: State<K, V>, zero: V, k: K, v: V, p: int)
    requires k in s.items
    ensures var r := Promote(Replace(s.(p := p), zero, Some(k)), k, v);
            && (forall x :: r.Resident(x) && x != k ==> s.Resident(x) && r.items[x].value == s.items[x].value)
            && (Linked(s) ==> r.items.Keys == s.items.Keys)
  {}

  /** Setting k touches no other cached value. */
  lemma SetKeepsValues<K(!new), V>(s: State<K, V>, zero: V, k: K, v: V)
    requires Valid(s)
    ensures var r := SetStep(s, zero, k, v);
            && (forall x :: r.Resident(x) && x != k ==> s.Resident(x) && r.items[x].value == s.items[x].value)
            && r.items.Keys <= s.items.Keys + {k}
            && (|s.t1| + |s.t2| < s.capacity ==> r.items.Keys == s.items.Keys + {k})
  {
    if s.Resident(k) {
    } else if k in s.items {
      GhostHitKeepsValues(s, zero, k, v, Target(s, k));
    } else {
      MissKeepsValues(s, zero, k, v);
    }
  }

  lemma MissKeepsValues<K(!new), V>(s: State<K, V>, zero: V, k: K, v: V)
    requires Valid(s) && k !in s.items
    ensures var r := InsertNew(MakeRoom(s, zero), k, v);
            && (forall x :: r.Resident(x) && x != k ==> s.Resident(x) && r.items[x].value == s.items[x].value)
            && r.items.Keys <= s.items.Keys + {k}
            && (|s.t1| + |s.t2| < s.capacity ==> r.items.Keys == s.items.Keys + {k})
  {
    RoomIsSubcache(s, zero);
    RoomMade(s, zero, k);
  }

  // ----- Runs -----

  datatype Op<K, V> = Get(k: K) | Set(k: K, v: V)

  /** A state with its history: the keys touched so far and the last value Set for each key. */
  datatype Trace<K, V> = Trace(state: State<K, V>, touches: seq<K>, latest: map<K, V>)

  ghost function Run<K(!new), V>(capacity: int, zero: V, ops: seq<Op<K, V>>): (t: Trace<K, V>)
    ensures Valid(t.state)
  {
    if ops == [] then Trace(Initial(capacity), [], map[])
    else
      var t := Run(capacity, zero, ops[..|ops| - 1]);
      match ops[|ops| - 1]
      case Get(k) =>
        GetValid(t.state, k);
        Trace(GetStep(t.state, k), if t.state.Resident(k) then t.touches + [k] else t.touches, t.latest)
      case Set(k, v) =>
        SetValid(t.state, zero, k, v);
        Trace(SetStep(t.state, zero, k, v), t.touches + [k], t.latest[k := v])
  }

  /** The state tells the truth about its history. */
  ghost predicate Faithful<K(!new), V>(t: Trace<K, V>) {
    && Valid(t.state)
    && t.state.Directory() == Dbl.TouchAll(t.state.capacity, t.touches)
    && (forall x :: t.state.Resident(x) ==> x in t.latest && t.state.items[x].value == t.latest[x])
    && t.state.items.Keys <= t.latest.Keys
    && (|t.state.t1| + |t.state.t2| < t.state.capacity ==> t.state.items.Keys == t.latest.Keys)
  }

  lemma TouchMore<K>(c: nat, touches: seq<K>, k: K)
    requires c > 0
    ensures Dbl.TouchAll(c, touches + [k]) == Dbl.Touch(c, Dbl.TouchAll(c, touches), k)
  {
    assert (touches + [k])[..|touches|] == touches;
  }

  /** A step that touches k, seen from outside: what it must guarantee to stay faithful. */
  lemma Advance<K(!new), V>(t: Trace<K, V>, r: State<K, V>, k: K, latest: map<K, V>)
    requires Faithful(t) && Valid(r) && r.capacity == t.state.capacity
    requires r.Directory() == Dbl.Touch(r.capacity, t.state.Directory(), k)
    requires forall x :: r.Resident(x) ==> x in latest && r.items[x].value == latest[x]
    requires r.items.Keys <= latest.Keys
    requires |r.t1| + |r.t2| < r.capacity ==> r.items.Keys == latest.Keys
    ensures Faithful(Trace(r, t.touches + [k], latest))
  {
    TouchMore(r.capacity, t.touches, k);
  }

  lemma GetFaithful<K(!new), V>(t: Trace<K, V>, k: K)
    requires Faithful(t) && t.state.Resident(k)
    ensures Faithful(Trace(GetStep(t.state, k), t.touches + [k], t.latest))
  {
    GetValid(t.state, k);
    PromoteSizes(t.state, k, t.state.items[k].value);
    Advance(t, GetStep(t.state, k), k, t.latest);
  }

  lemma SetFaithful<K(!new), V>(t: Trace<K, V>, zero: V, k: K, v: V)
    requires Faithful(t)
    ensures Faithful(Trace(SetStep(t.state, zero, k, v), t.touches + [k], t.latest[k := v]))
  {
    SetValid(t.state, zero, k, v);
    SetKeepsValues(t.state, zero, k, v);
    SetGrows(t.state, zero, k, v);
    Advance(t, SetStep(t.state, zero, k, v), k, t.latest[k := v]);
  }

  lemma {:induction false} RunFaithful<K(!new), V>(capacity: int, zero: V, ops: seq<Op<K, V>>)
    ensures Faithful(Run(capacity, zero, ops))
  {
    if ops == [] {
      InitialFaithful<K, V>(capacity);
    } else {
      RunFaithful(capacity, zero, ops[..|ops| - 1]);
      var t := Run(capacity, zero, ops[..|ops| - 1]);
      match ops[|ops| - 1]
      case Get(k) => if t.state.Resident(k) { GetFaithful(t, k); }
      case Set(k, v) => SetFaithful(t, zero, k, v);
    }
  }

  lemma InitialFaithful<K(!new), V>(capacity: int)
    ensures Faithful<K, V>(Trace(Initial(capacity), [], map[]))
  {}

  /** A full cache stays full. */
  lemma SetGrows<K(!new), V>(s: State<K, V>, zero: V, k: K, v: V)
    requires Valid(s)
    ensures var r := SetStep(s, zero, k, v);
            |r.t1| + |r.t2| == |s.t1| + |s.t2| + (if k in s.items || |s.t1| + |s.t2| == s.capacity then 0 else 1)
  {
    if s.Resident(k) {
      PromoteSizes(s, k, v);
    } else if k in s.items {
      assert k in s.List(s.items[k].listID);
      var p := Target(s, k);
      ReplaceLinked(s.(p := p), zero, Some(k));
      ReplaceDemotes(s.(p := p), zero, Some(k));
      PromoteSizes(Replace(s.(p := p), zero, Some(k)), k, v);
    } else {
      RoomMade(s, zero, k);
    }
  }

  lemma ResidentKeys<K(!new), V>(s: State<K, V>)
    requires Linked(s)
    ensures |Elements(s.t1 + s.t2)| == |s.t1| + |s.t2| && Elements(s.t1 + s.t2) <= s.items.Keys
    ensures s.b1 == [] && s.b2 == [] ==> Elements(s.t1 + s.t2) == s.items.Keys
  {
    assert forall k :: k in s.t1 ==> k !in s.t2;
    assert forall i :: 0 <= i < |s.t1| ==> s.t1[i] in s.t1;
    DistinctCount(s.t1 + s.t2);
    forall k | k in s.items && s.b1 == [] && s.b2 == []
      ensures k in s.t1 + s.t2
    {
      assert k in s.List(s.items[k].listID);
    }
  }

  lemma CountsDistinct<K(!new), V>(t: Trace<K, V>)
    requires Faithful(t)
    ensures |t.state.t1| + |t.state.t2| == Min(t.state.capacity, |t.latest.Keys|)
  {
    ResidentKeys(t.state);
    SubsetSize(Elements(t.state.t1 + t.state.t2), t.latest.Keys);
  }

  lemma {:induction false} CapacityStays<K(!new), V>(capacity: int, zero: V, ops: seq<Op<K, V>>)
    ensures Run(capacity, zero, ops).state.capacity == Max(1, capacity)
  {
    if ops == [] {
    } else {
      CapacityStays(capacity, zero, ops[..|ops| - 1]);
      var s := Run(capacity, zero, ops[..|ops| - 1]).state;
      if ops[|ops| - 1].Set? { SetValid(s, zero, ops[|ops| - 1].k, ops[|ops| - 1].v); }
    }
  }

  /** Every operation of every run does to the lists exactly what SetMoves and GetMoves say, and makes
      exactly the victim leave. */
  lemma RunIsExact<K(!new), V>(capacity: int, zero: V, ops: seq<Op<K, V>>, op: Op<K, V>)
    ensures var s, r := Run(capacity, zero, ops).state, Run(capacity, zero, ops + [op]).state;
            && (op.Get? ==> GetMoves(s, op.k, r))
            && (op.Set? ==> SetMoves(s, op.k, r))
            && (forall x :: s.Resident(x) && !r.Resident(x) <==> op.Set? && Victim(s, op.k, r.p) == Some(x))
  {
    var s, r := Run(capacity, zero, ops).state, Run(capacity, zero, ops + [op]).state;
    assert (ops + [op])[..|ops|] == ops;
    if op.Get? {
      GetIsExact(s, op.k);
    } else {
      SetIsExact(s, zero, op.k, op.v);
      forall x ensures s.Resident(x) && !r.Resident(x) <==> Victim(s, op.k, r.p) == Some(x) {
        WhoLeaves(s, zero, op.k, op.v, x);
      }
    }
  }

  /** In every run the cache holds as many entries as it can: all distinct keys ever Set, up to the
      capacity asked for, or one. */
  lemma ResidentCount<K(!new), V>(capacity: int, zero: V, ops: seq<Op<K, V>>)
    ensures var t := Run(capacity, zero, ops);
            |t.state.t1| + |t.state.t2| == Min(Max(1, capacity), |t.latest.Keys|)
  {
    CapacityStays(capacity, zero, ops);
    RunFaithful(capacity, zero, ops);
    CountsDistinct(Run(capacity, zero, ops));
  }

  /** In every run a hit yields the value most recently Set for the key, and a key Set by the last
      operation is a hit. */
  lemma HitsAreCurrent<K(!new), V>(capacity: int, zero: V, ops: seq<Op<K, V>>, k: K)
    ensures var t := Run(capacity, zero, ops);
            && (t.state.Resident(k) ==> k in t.latest && t.state.items[k].value == t.latest[k])
            && (ops != [] && ops[|ops| - 1].Set? && ops[|ops| - 1].k == k ==>
                  t.state.Resident(k) && t.state.items[k].value == ops[|ops| - 1].v)
  {
    RunFaithful(capacity, zero, ops);
    if ops != [] && ops[|ops| - 1].Set? {
      SetValid(Run(capacity, zero, ops[..|ops| - 1]).state, zero, ops[|ops| - 1].k, ops[|ops| - 1].v);
    }
  }

  /** In every run T1 followed by B1, and T2 followed by B2, run from the most to the least recently
      touched key, and everything in T2 or B2 was touched at least twice. So each demotion and each
      eviction takes the least recently touched key of its list. */
  lemma ListsByRecency<K(!new), V>(capacity: int, zero: V, ops: seq<Op<K, V>>)
    ensures var t := Run(capacity, zero, ops);
            && Dbl.ByAge(t.state.t1 + t.state.b1, t.touches)
            && Dbl.ByAge(t.state.t2 + t.state.b2, t.touches)
            && (forall x :: x in t.state.t2 + t.state.b2 ==> Dbl.Touches(t.touches, x) >= 2)
  {
    RunFaithful(capacity, zero, ops);
    var t := Run(capacity, zero, ops);
    Dbl.RecencyOrder(t.state.capacity, t.touches);
  }

  /** Only ghost hits move the target: towards recency on B1, towards frequency on B2, by the ratio of
      the ghost lists but at least one, and never outside the capacity. */
  lemma TargetMoves<K(!new), V>(s: State<K, V>, zero: V, k: K, v: V)
    requires Valid(s)
    ensures var r := SetStep(s, zero, k, v);
            && (k in s.b1 ==> r.p == Min(s.capacity, s.p + Max(1, |s.b2| / |s.b1|)))
            && (k in s.b2 ==> r.p == Max(0, s.p - Max(1, |s.b1| / |s.b2|)))
            && (k !in s.b1 && k !in s.b2 ==> r.p == s.p)
  {
    if k in s.b1 {
      RatioAtMostOne(|s.b2|, |s.b1|);
    } else if k in s.b2 {
      RatioAtMostOne(|s.b1|, |s.b2|);
    } else {
      assert s.Resident(k) || k !in s.items;
      if k !in s.items { RoomMade(s, zero, k); }
    }
  }

  lemma RatioAtMostOne(other: nat, mine: nat)
    requires mine > 0
    ensures other <= mine ==> other / mine <= 1
    ensures other > mine ==> other / mine >= 1
  {}

  /** Replacement moves |T1| towards the target, taking the last key of the list that gives way; on
      target, T1 gives way only to a hit on B2. */
  lemma TowardsTarget<K(!new), V>(s: State<K, V>, zero: V, current: Option<K>)
    requires (current.Some? ==> current.value in s.items) && s.t1 != [] && s.t2 != []
    ensures var r := Replace(s, zero, current);
            var b2Hit := current.Some? && s.items[current.value].listID == B2;
            if |s.t1| > s.p || (|s.t1| == s.p && b2Hit)
            then r.t1 + [r.b1[0]] == s.t1 && r.t2 == s.t2
            else r.t2 + [r.b2[0]] == s.t2 && r.t1 == s.t1
  {
    assert s.t1[..|s.t1| - 1] + [s.t1[|s.t1| - 1]] == s.t1;
    assert s.t2[..|s.t2| - 1] + [s.t2[|s.t2| - 1]] == s.t2;
  }

  // ----- The cache object -----

  class Cache<K(==,!new), V(==)> {
    const capacity: nat
    const zero: V
    var p: int
    var t1: seq<K>
    var t2: seq<K>
    var b1: seq<K>
    var b2: seq<K>
    var items: map<K, Entry<V>>

    ghost function View(): State<K, V>
      reads this
    {
      State(capacity, p, t1, t2, b1, b2, items)
    }

    constructor (capacity: int, zero: V)
      ensures View() == Initial(capacity) && Valid(View()) && this.zero == zero
      ensures this.capacity == Max(1, capacity) && items == map[]
    {
      this.capacity := if capacity <= 0 then 1 else capacity;
      this.zero := zero;
      p := 0;
      t1, t2, b1, b2 := [], [], [], [];
      items := map[];
    }

    /** A hit exactly if the key is resident; the state moves as GetStep says. */
    method Get(key: K) returns (value: V, ok: bool)
      requires Valid(View())
      modifies this
      ensures Valid(View()) && View() == GetStep(old(View()), key)
      ensures ok == old(View().Resident(key))
      ensures value == if ok then old(items[key].value) else zero
      ensures GetMoves(old(View()), key, View())
    {
      GetValid(View(), key);
      GetIsExact(View(), key);
      if key !in items || items[key].isGhost {
        return zero, false;
      }
      value, ok := items[key].value, true;
      ToFrontOfT2(key, value);
    }

    method Set(key: K, value: V)
      requires Valid(View())
      modifies this
      ensures Valid(View()) && View() == SetStep(old(View()), zero, key, value)
      ensures SetMoves(old(View()), key, View())
    {
      SetValid(View(), zero, key, value);
      SetIsExact(View(), zero, key, value);
      Store(key, value);
    }

    /** The cases of Set: resident, remembered, unknown. */
    method Store(key: K, value: V)
      requires Valid(View())
      modifies this
      ensures View() == SetStep(old(View()), zero, key, value)
    {
      if key in items && !items[key].isGhost {
        ToFrontOfT2(key, value);
      } else if key in items {
        HitGhost(key, value);
      } else {
        Admit(key, value);
      }
    }

    /** A key remembered in B1 or B2: adapt the target, then readmit. */
    method HitGhost(key: K, value: V)
      requires Valid(View()) && key in items && items[key].isGhost
      modifies this
      ensures View() == SetStep(old(View()), zero, key, value)
      ensures GhostReturns(old(View()), key, View())
    {
      GhostReturnsTo(View(), zero, key, value);
      var target := Adapt(key);
      Readmit(key, value, target);
    }

    method Adapt(key: K) returns (target: int)
      requires Valid(View()) && key in items && items[key].isGhost
      ensures target == Target(View(), key)
    {
      var delta := 1;
      if items[key].listID == B1 {
        assert key in b1;
        if |b1| < |b2| {
          delta := |b2| / |b1|;
        }
        target := Min(p + delta, capacity);
      } else {
        assert key in b2;
        if |b2| < |b1| {
          delta := |b1| / |b2|;
        }
        target := Max(p - delta, 0);
      }
    }

    /** The complete miss. */
    method Admit(key: K, value: V)
      modifies this
      ensures View() == InsertNew(MakeRoom(old(View()), zero), key, value)
    {
      FreeSlot();
      items := items[key := Entry(value, false, T1)];
      t1 := [key] + t1;
    }

    /** What a complete miss does before the insertion. */
    method FreeSlot()
      modifies this
      ensures View() == MakeRoom(old(View()), zero)
    {
      if |t1| + |b1| == capacity {
        if |t1| < capacity {
          Evict(B1);
          DemoteOne(None);
        } else {
          Evict(T1);
        }
      } else if |t1| + |b1| < capacity {
        if |t1| + |t2| + |b1| + |b2| >= capacity {
          if |t1| + |t2| + |b1| + |b2| == 2 * capacity {
            Evict(B2);
          }
          DemoteOne(None);
        }
      }
    }

    /** The ending shared by both ghost hits, once the new target is known. */
    method Readmit(key: K, value: V, target: int)
      requires key in items
      modifies this
      ensures View() == Promote(Replace(old(View()).(p := target), zero, Some(key)), key, value)
    {
      p := target;
      DemoteOne(Some(key));
      ToFrontOfT2(key, value);
    }

    /** The ending shared by all hits: the entry, no longer a ghost, goes to the front of T2. */
    method ToFrontOfT2(key: K, value: V)
      requires key in items
      modifies this
      ensures View() == Promote(old(View()), key, value)
    {
      Remove(key);
      items := items[key := Entry(value, false, T2)];
      t2 := [key] + t2;
    }

    method DemoteOne(current: Option<K>)
      requires current.Some? ==> current.value in items
      modifies this
      ensures View() == Replace(old(View()), zero, current)
    {
      if |t1| > 0 && (|t1| > p || (current.Some? && items[current.value].listID == B2 && |t1| == p)) {
        var k := t1[|t1| - 1];
        t1 := t1[..|t1| - 1];
        items := items[k := Entry(zero, true, B1)];
        b1 := [k] + b1;
      } else if |t2| > 0 {
        var k := t2[|t2| - 1];
        t2 := t2[..|t2| - 1];
        items := items[k := Entry(zero, true, B2)];
        b2 := [k] + b2;
      }
    }

    method Remove(k: K)
      requires k in items
      modifies this
      ensures View() == Unlink(old(View()), k)
    {
      match items[k].listID
      case T1 => t1 := Without(t1, k);
      case T2 => t2 := Without(t2, k);
      case B1 => b1 := Without(b1, k);
      case B2 => b2 := Without(b2, k);
    }

    method Evict(id: ListId)
      modifies this
      ensures View() == EvictLru(old(View()), id)
    {
      var l := match id case T1 => t1 case T2 => t2 case B1 => b1 case B2 => b2;
      if |l| == 0 {
        return;
      }
      var rest := l[..|l| - 1];
      match id {
        case T1 => t1 := rest;
        case T2 => t2 := rest;
        case B1 => b1 := rest;
        case B2 => b2 := rest;
      }
      items := items - {l[|l| - 1]};
    }
  }
}
