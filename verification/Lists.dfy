/** The shared vocabulary of the components: options, extremes and duplicate-free sequences. */
module Lists {
  datatype Option<+T> = None | Some(value: T)

  function Min(a: int, b: int): int { if a < b then a else b }

  function Max(a: int, b: int): int { if a > b then a else b }

  ghost predicate Distinct<T>(s: seq<T>) {
    forall i, j :: 0 <= i < j < |s| ==> s[i] != s[j]
  }

  /** s without its first occurrence of x. */
  function Without<T(==)>(s: seq<T>, x: T): seq<T> {
    if s == [] then [] else if s[0] == x then s[1..] else [s[0]] + Without(s[1..], x)
  }

  ghost function Elements<T>(s: seq<T>): set<T> {
    set x | x in s
  }

  /** Removal cuts s at the first occurrence of x, if there is one. */
  lemma {:induction false} WithoutCuts<T>(s: seq<T>, x: T) returns (i: nat)
    ensures i <= |s| && x !in s[..i]
    ensures if i == |s| then Without(s, x) == s
            else s[i] == x && Without(s, x) == s[..i] + s[i + 1..]
  {
    if s == [] || s[0] == x {
      i := 0;
    } else {
      var j := WithoutCuts(s[1..], x);
      i := j + 1;
      assert s[..i] == [s[0]] + s[1..][..j];
      if i < |s| {
        assert s[1..][j + 1..] == s[i + 1..];
        assert [s[0]] + (s[1..][..j] + s[i + 1..]) == s[..i] + s[i + 1..];
      }
    }
  }

  lemma WithoutCons<T>(y: T, s: seq<T>, x: T)
    requires x != y
    ensures Without([y] + s, x) == [y] + Without(s, x)
  {
    assert ([y] + s)[1..] == s;
  }

  lemma WithoutAbsent<T>(s: seq<T>, x: T)
    requires x !in s
    ensures Without(s, x) == s
  {
    var i := WithoutCuts(s, x);
  }

  lemma WithoutIs<T>(s: seq<T>, x: T)
    requires Distinct(s)
    ensures Distinct(Without(s, x))
    ensures forall y :: y in Without(s, x) <==> y in s && y != x
    ensures |Without(s, x)| == |s| - (if x in s then 1 else 0)
  {
    var i := WithoutCuts(s, x);
  }

  lemma WithoutSubset<T>(s: seq<T>, x: T)
    ensures forall y :: y in Without(s, x) ==> y in s
  {
    var i := WithoutCuts(s, x);
  }

  lemma {:induction false} WithoutConcat<T>(s: seq<T>, t: seq<T>, x: T)
    ensures Without(s + t, x) == if x in s then Without(s, x) + t else s + Without(t, x)
  {
    if s == [] {
      assert s + t == t;
    } else {
      assert (s + t)[1..] == s[1..] + t;
      if s[0] != x {
        WithoutConcat(s[1..], t, x);
        assert x in s <==> x in s[1..];
        assert s == [s[0]] + s[1..];
      }
    }
  }

  lemma {:induction false} DistinctCount<T>(s: seq<T>)
    requires Distinct(s)
    ensures |Elements(s)| == |s|
  {
    if s == [] {
    } else {
      DistinctCount(s[1..]);
      assert Elements(s) == {s[0]} + Elements(s[1..]);
    }
  }

  lemma {:induction false} SubsetSize<T>(a: set<T>, b: set<T>)
    requires a <= b
    ensures |a| <= |b|
  {
    if a == {} {
    } else {
      var x :| x in a;
      SubsetSize(a - {x}, b - {x});
    }
  }
}
