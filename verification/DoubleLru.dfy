/** The reference directory DBL(2c) of Megiddo and Modha (FAST 2003): two recency lists, l1 for keys
    touched once since they entered and l2 for keys touched again, each most recent first. */
module DoubleLru {
  import opened Lists

  datatype Directory<K> = Directory(l1: seq<K>, l2: seq<K>)

  function Touch<K(==)>(c: nat, d: Directory<K>, k: K): Directory<K>
    requires c > 0
  {
    if k in d.l1 then Directory(Without(d.l1, k), [k] + d.l2)
    else if k in d.l2 then Directory(d.l1, [k] + Without(d.l2, k))
    else if |d.l1| == c then Directory([k] + d.l1[..c - 1], d.l2)
    else if |d.l1| + |d.l2| == 2 * c && d.l2 != [] then Directory([k] + d.l1, d.l2[..|d.l2| - 1])
    else Directory([k] + d.l1, d.l2)
  }

  function TouchAll<K(==)>(c: nat, touches: seq<K>): Directory<K>
    requires c > 0
  {
    if touches == [] then Directory([], [])
    else Touch(c, TouchAll(c, touches[..|touches| - 1]), touches[|touches| - 1])
  }

  /** How many touches ago k was last touched; the length of the history if never. */
  function Age<K(==)>(touches: seq<K>, k: K): (a: nat)
    ensures a <= |touches|
    ensures a < |touches| ==> touches[|touches| - 1 - a] == k
  {
    if touches == [] || touches[|touches| - 1] == k then 0
    else 1 + Age(touches[..|touches| - 1], k)
  }

  function Touches<K(==)>(touches: seq<K>, k: K): nat {
    if touches == [] then 0
    else Touches(touches[..|touches| - 1], k) + (if touches[|touches| - 1] == k then 1 else 0)
  }

  ghost predicate ByAge<K>(s: seq<K>, touches: seq<K>) {
    forall i, j :: 0 <= i < j < |s| ==> Age(touches, s[i]) < Age(touches, s[j])
  }

  lemma WithoutKeepsOrder<K>(s: seq<K>, touches: seq<K>, k: K)
    requires ByAge(s, touches)
    ensures ByAge(Without(s, k), touches)
    ensures forall x :: x in Without(s, k) <==> x in s && x != k
  {
    var i := WithoutCuts(s, k);
    WithoutIs(s, k);
  }

  /** Touching k ages every other key by one and makes k the youngest. */
  lemma AgeAfter<K>(touches: seq<K>, k: K, x: K)
    ensures Age(touches + [k], x) == if x == k then 0 else 1 + Age(touches, x)
    ensures Touches(touches + [k], x) == Touches(touches, x) + (if x == k then 1 else 0)
  {
    assert (touches + [k])[..|touches|] == touches;
  }

  lemma PushYoungest<K>(s: seq<K>, touches: seq<K>, k: K)
    requires ByAge(s, touches) && k !in s
    ensures ByAge([k] + s, touches + [k]) && ByAge(s, touches + [k])
  {
    forall x: K { AgeAfter(touches, k, x); }
  }

  ghost predicate Disjoint<K>(d: Directory<K>) {
    forall x :: !(x in d.l1 && x in d.l2)
  }

  lemma TouchKeepsOrder<K>(c: nat, d: Directory<K>, h: seq<K>, k: K)
    requires c > 0 && ByAge(d.l1, h) && ByAge(d.l2, h) && Disjoint(d)
    ensures var d' := Touch(c, d, k);
            ByAge(d'.l1, h + [k]) && ByAge(d'.l2, h + [k]) && Disjoint(d')
  {
    WithoutKeepsOrder(d.l1, h, k);
    WithoutKeepsOrder(d.l2, h, k);
    if k in d.l1 {
      PushYoungest(Without(d.l1, k), h, k);
      PushYoungest(d.l2, h, k);
    } else if k in d.l2 {
      PushYoungest(d.l1, h, k);
      PushYoungest(Without(d.l2, k), h, k);
    } else {
      PushYoungest(d.l2, h, k);
      PushYoungest(if |d.l1| == c then d.l1[..c - 1] else d.l1, h, k);
    }
  }

  ghost predicate TouchedEnough<K>(d: Directory<K>, h: seq<K>) {
    && (forall x :: x in d.l1 ==> Touches(h, x) >= 1)
    && (forall x :: x in d.l2 ==> Touches(h, x) >= 2)
  }

  lemma TouchKeepsCounts<K>(c: nat, d: Directory<K>, h: seq<K>, k: K)
    requires c > 0 && TouchedEnough(d, h)
    ensures TouchedEnough(Touch(c, d, k), h + [k])
  {
    forall x: K { AgeAfter(h, k, x); }
    WithoutSubset(d.l1, k);
    WithoutSubset(d.l2, k);
  }

  /** After every history, both lists are ordered by recency, no key is on both, and every key of the
      second list was touched at least twice. */
  lemma {:induction false} RecencyOrder<K>(c: nat, touches: seq<K>)
    requires c > 0
    ensures var d := TouchAll(c, touches);
            && ByAge(d.l1, touches) && ByAge(d.l2, touches) && Disjoint(d)
            && TouchedEnough(d, touches)
  {
    if touches == [] {
    } else {
      var h, k := touches[..|touches| - 1], touches[|touches| - 1];
      assert h + [k] == touches;
      RecencyOrder(c, h);
      TouchKeepsOrder(c, TouchAll(c, h), h, k);
      TouchKeepsCounts(c, TouchAll(c, h), h, k);
    }
  }
}
