/** The binary min-heap: a slice of scored items kept in heap order by sifting. */
module MinHeap {
  import opened Lists

  datatype Item<T> = Item(value: T, score: real)

  /** Go divides towards zero, so the root is its own parent. */
  function Parent(j: nat): nat {
    if j == 0 then 0 else (j - 1) / 2
  }

  ghost predicate HeapOrdered<T>(s: seq<Item<T>>) {
    forall k :: 1 <= k < |s| ==> s[Parent(k)].score <= s[k].score
  }

  /** Heap order everywhere above index j's own parent link, and across j. */
  ghost predicate OrderedExceptAt<T>(s: seq<Item<T>>, j: nat) {
    && (forall k :: 1 <= k < |s| && k != j ==> s[Parent(k)].score <= s[k].score)
    && (forall k :: 1 <= k < |s| && Parent(k) == j && j > 0 ==> s[Parent(j)].score <= s[k].score)
  }

  /** Heap order among the first n items except below index i, and across i. */
  ghost predicate OrderedExceptBelow<T>(s: seq<Item<T>>, n: nat, i: nat)
    requires n <= |s|
  {
    && (forall k :: 1 <= k < n && Parent(k) != i ==> s[Parent(k)].score <= s[k].score)
    && (forall k :: 1 <= k < n && Parent(k) == i && i > 0 ==> s[Parent(i)].score <= s[k].score)
  }

  function Swapped<T>(s: seq<T>, i: nat, j: nat): seq<T>
    requires i < |s| && j < |s|
  {
    s[i := s[j]][j := s[i]]
  }

  lemma SwapPermutes<T>(s: seq<T>, i: nat, j: nat)
    requires i < |s| && j < |s|
    ensures multiset(Swapped(s, i, j)) == multiset(s)
  {}

  lemma SwapUp<T>(s: seq<Item<T>>, j: nat)
    requires 0 < j < |s| && OrderedExceptAt(s, j) && s[j].score < s[Parent(j)].score
    ensures OrderedExceptAt(Swapped(s, j, Parent(j)), Parent(j))
  {}

  lemma SwapDown<T>(s: seq<Item<T>>, n: nat, i: nat, j: nat)
    requires n <= |s| && OrderedExceptBelow(s, n, i) && i < j < n && Parent(j) == i
    requires s[j].score < s[i].score
    requires forall k :: 1 <= k < n && Parent(k) == i ==> s[j].score <= s[k].score
    ensures OrderedExceptBelow(Swapped(s, i, j), n, j)
  {}

  /** The child of i to compare with: the right one only if it is smaller than the left. */
  function SmallerChild<T>(s: seq<Item<T>>, n: nat, i: nat): (j: nat)
    requires 2 * i + 1 < n <= |s|
    ensures i < j < n && Parent(j) == i
  {
    if 2 * i + 2 < n && s[2 * i + 2].score < s[2 * i + 1].score then 2 * i + 2 else 2 * i + 1
  }

  lemma SmallerChildIsLeast<T>(s: seq<Item<T>>, n: nat, i: nat)
    requires 2 * i + 1 < n <= |s|
    ensures forall k :: 1 <= k < n && Parent(k) == i ==> s[SmallerChild(s, n, i)].score <= s[k].score
  {
    assert forall k :: 1 <= k && Parent(k) == i ==> k == 2 * i + 1 || k == 2 * i + 2;
  }

  /** Sifting down may stop at a leaf, or when the smaller child is no smaller. */
  lemma Settled<T>(s: seq<Item<T>>, n: nat, i: nat)
    requires n <= |s| && OrderedExceptBelow(s, n, i)
    requires 2 * i + 1 < n ==> s[i].score <= s[SmallerChild(s, n, i)].score
    ensures OrderedExceptBelow(s, n, n)
  {
    if 2 * i + 1 < n {
      SmallerChildIsLeast(s, n, i);
    }
  }

  lemma RootSwapped<T>(s: seq<Item<T>>)
    requires s != [] && HeapOrdered(s)
    ensures OrderedExceptBelow(Swapped(s, 0, |s| - 1), |s| - 1, 0)
  {}

  lemma LeastOfAll<T>(s: seq<Item<T>>)
    requires s != [] && HeapOrdered(s)
    ensures s[0] in s && forall x :: x in s ==> s[0].score <= x.score
  {
    forall k | 0 <= k < |s| ensures s[0].score <= s[k].score { RootIsLeast(s, k); }
  }

  /** The root of a heap carries the least score. */
  lemma {:induction false} RootIsLeast<T>(s: seq<Item<T>>, k: nat)
    requires HeapOrdered(s) && k < |s|
    ensures s[0].score <= s[k].score
  {
    if k == 0 {
    } else {
      RootIsLeast(s, Parent(k));
    }
  }

  class Heap<T> {
    var items: seq<Item<T>>

    ghost predicate Valid()
      reads this
    {
      HeapOrdered(items)
    }

    constructor ()
      ensures Valid() && items == []
    {
      items := [];
    }

    method Swap(i: nat, j: nat)
      requires i < |items| && j < |items|
      modifies this
      ensures items == Swapped(old(items), i, j)
    {
      items := items[i := items[j]][j := items[i]];
    }

    method Up(j0: nat)
      requires j0 < |items| && OrderedExceptAt(items, j0)
      modifies this
      ensures HeapOrdered(items) && multiset(items) == multiset(old(items))
    {
      var j: nat := j0;
      while j > 0 && items[j].score < items[Parent(j)].score
        invariant j < |items| == |old(items)|
        invariant OrderedExceptAt(items, j)
        invariant multiset(items) == multiset(old(items))
      {
        SwapUp(items, j);
        SwapPermutes(items, j, Parent(j));
        Swap(j, Parent(j));
        j := Parent(j);
      }
    }

    method Down(i0: nat, n: nat)
      requires n <= |items| && OrderedExceptBelow(items, n, i0)
      modifies this
      ensures |items| == |old(items)| && items[n..] == old(items)[n..]
      ensures OrderedExceptBelow(items, n, n)
      ensures multiset(items) == multiset(old(items))
    {
      var i := i0;
      while true
        invariant |items| == |old(items)| && items[n..] == old(items)[n..]
        invariant OrderedExceptBelow(items, n, i)
        invariant multiset(items) == multiset(old(items))
        decreases n - i
      {
        var j1 := 2 * i + 1;
        if j1 >= n {
          break;
        }
        var j := j1;
        var j2 := j1 + 1;
        if j2 < n && items[j2].score < items[j1].score {
          j := j2;
        }
        if !(items[j].score < items[i].score) {
          break;
        }
        SmallerChildIsLeast(items, n, i);
        SwapDown(items, n, i, j);
        SwapPermutes(items, i, j);
        Swap(i, j);
        i := j;
      }
      Settled(items, n, i);
    }

    method PushItem(value: T, score: real)
      requires Valid()
      modifies this
      ensures Valid()
      ensures multiset(items) == multiset(old(items)) + multiset{Item(value, score)}
    {
      var n := |items|;
      items := items + [Item(value, score)];
      Up(n);
    }

    /** Removes the root, an item of least score, or reports that there is none. */
    method PopItem() returns (r: Option<Item<T>>)
      requires Valid()
      modifies this
      ensures Valid() && (r.None? <==> old(items) == [])
      ensures r.None? ==> items == []
      ensures r.Some? ==> multiset(items) == multiset(old(items)) - multiset{r.value}
      ensures r.Some? ==> |items| == |old(items)| - 1 && r.value in old(items)
      ensures r.Some? ==> forall x :: x in old(items) ==> r.value.score <= x.score
    {
      var n := |items|;
      if n == 0 {
        return None;
      }
      LeastOfAll(items);
      RootSwapped(items);
      SwapPermutes(items, 0, n - 1);
      Swap(0, n - 1);
      Down(0, n - 1);
      var item := items[n - 1];
      assert item == items[n - 1..][0] == old(items)[0];
      assert items == items[..n - 1] + [item];
      items := items[..n - 1];
      return Some(item);
    }

    method Peek() returns (r: Option<Item<T>>)
      requires Valid()
      ensures r.None? <==> items == []
      ensures r.Some? ==> r.value in items && forall x :: x in items ==> r.value.score <= x.score
    {
      if |items| == 0 {
        return None;
      }
      LeastOfAll(items);
      return Some(items[0]);
    }
  }
}
