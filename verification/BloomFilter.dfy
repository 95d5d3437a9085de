/** The Bloom filter: a packed array of 64-bit words addressed by wrap-around double hashing. */
module BloomFilter {
  import opened Bits
  import opened Fnv

  type Data = seq<Byte>

  /** The two sizing parameters that every position depends on. */
  datatype Shape = Shape(numBits: nat, numHash: nat)

  /** Bits that some element of xs maps to. */
  ghost function Touched(shape: Shape, xs: set<Data>): set<nat>
    requires shape.numBits > 0
  {
    set x, i | x in xs && 0 <= i < shape.numHash :: Position(shape, x, i)
  }

  ghost function Positions(shape: Shape, x: Data): set<nat>
    requires shape.numBits > 0
  {
    FirstPositions(shape, x, shape.numHash)
  }

  ghost function FirstPositions(shape: Shape, x: Data, n: nat): set<nat>
    requires shape.numBits > 0
  {
    set i | 0 <= i < n :: Position(shape, x, i)
  }

  lemma NextPosition(shape: Shape, x: Data, n: nat)
    requires shape.numBits > 0
    ensures FirstPositions(shape, x, n + 1) == FirstPositions(shape, x, n) + {Position(shape, x, n)}
  {}

  /** h1 + i*h2, both operations wrapping at 64 bits, reduced to a bit index. */
  function Probe(numBits: nat, h1: nat, h2: nat, i: nat): (pos: nat)
    requires numBits > 0
    ensures pos < numBits
  {
    (h1 + (i * h2) % WORD) % WORD % numBits
  }

  function Position(shape: Shape, x: Data, i: nat): (pos: nat)
    requires shape.numBits > 0
    ensures pos < shape.numBits
  {
    Probe(shape.numBits, Fnv1a(x) / WORD, Fnv1a(x) % WORD, i)
  }

  /** Where position i lies before it is reduced to the number of bits: at h1, and from there h2 further on
      each time, modulo 2^64. */
  function Stride(h1: nat, h2: nat, i: nat): nat {
    if i == 0 then h1 % WORD else (Stride(h1, h2, i - 1) + h2) % WORD
  }

  lemma AddsModWord(h: nat, a: nat, d: nat)
    ensures (h + (a + d) % WORD) % WORD == ((h + a % WORD) % WORD + d) % WORD
  {}

  lemma {:induction false} StrideIs(h1: nat, h2: nat, i: nat)
    ensures Stride(h1, h2, i) == (h1 + (i * h2) % WORD) % WORD
  {
    if i == 0 {
    } else {
      StrideIs(h1, h2, i - 1);
      AddsModWord(h1, (i - 1) * h2, h2);
      assert i * h2 == (i - 1) * h2 + h2;
    }
  }

  /** The positions in closed form are the positions step by step, from the two limbs of the hash. */
  lemma PositionsStride(shape: Shape, x: Data, i: nat)
    requires shape.numBits > 0
    ensures Position(shape, x, i) == Stride(Fnv1a(x) / WORD, Fnv1a(x) % WORD, i) % shape.numBits
  {
    StrideIs(Fnv1a(x) / WORD, Fnv1a(x) % WORD, i);
  }

  /** The test a filter holding exactly xs performs on y. */
  ghost predicate MayContain(shape: Shape, xs: set<Data>, y: Data)
    requires shape.numBits > 0
  {
    Positions(shape, y) <= Touched(shape, xs)
  }

  lemma TouchedAdd(shape: Shape, xs: set<Data>, x: Data)
    requires shape.numBits > 0
    ensures Touched(shape, xs + {x}) == Touched(shape, xs) + Positions(shape, x)
  {}

  lemma TouchedUnion(shape: Shape, xs: set<Data>, ys: set<Data>)
    requires shape.numBits > 0
    ensures Touched(shape, xs + ys) == Touched(shape, xs) + Touched(shape, ys)
  {}

  /** No false negatives, whatever else the filter holds. */
  lemma NoFalseNegatives(shape: Shape, xs: set<Data>, x: Data)
    requires shape.numBits > 0 && x in xs
    ensures MayContain(shape, xs, x)
  {
    TouchedAdd(shape, xs, x);
    assert xs + {x} == xs;
  }

  lemma SetBit(w: nat, b: nat)
    requires w < WORD && b < 64
    ensures Or(w, Pow2(b)) < WORD
    ensures forall j: nat :: Bit(Or(w, Pow2(b)), j) <==> Bit(w, j) || j == b
  {
    WordIsPow2();
    Pow2Increases(b, 64);
    Width(w, Pow2(b), 64);
    forall j: nat
      ensures Bit(Or(w, Pow2(b)), j) <==> Bit(w, j) || j == b
    {
      OrBit(w, Pow2(b), j);
      SingleBit(b, j);
    }
  }

  lemma {:induction false} Pow2Increases(a: nat, b: nat)
    requires a < b
    ensures Pow2(a) < Pow2(b)
  {
    if a + 1 < b {
      Pow2Increases(a, b - 1);
    }
  }

  method Limbs(x: Data) returns (h1: nat, h2: nat)
    ensures h1 == Fnv1a(x) / WORD && h2 == Fnv1a(x) % WORD
  {
    h1, h2 := DoubleHash(x);
    ModUnique(h1, h2, WORD);
  }

  class Filter {
    const shape: Shape
    var bits: array<nat>
    var count: nat
    ghost var members: set<Data>    // added directly or by union since the last Clear

    ghost predicate BitAt(pos: nat)
      requires pos / 64 < bits.Length
      reads this, bits
    {
      Bit(bits[pos / 64], pos % 64)
    }

    /** The words are 64 bits wide and hold exactly the positions of the members. */
    ghost predicate Valid()
      reads this, bits
    {
      && shape.numBits > 0
      && bits.Length == (shape.numBits + 63) / 64
      && count < WORD
      && (forall i :: 0 <= i < bits.Length ==> bits[i] < WORD)
      && Holds(Touched(shape, members))
    }

    ghost predicate Holds(s: set<nat>)
      reads this, bits
    {
      forall pos: nat :: pos / 64 < bits.Length ==> (BitAt(pos) <==> pos in s)
    }

    /** The word count wraps like the unsigned addition it comes from. Exactly the sizes from one bit up
        to that wrap-around give a usable filter; with no bits at all a position is a division by zero. */
    constructor (numBits: nat, numHash: nat)
      requires numBits < WORD
      ensures Valid() <==> 0 < numBits && numBits + 63 < WORD
      ensures fresh(bits) && shape == Shape(numBits, numHash) && members == {} && count == 0
    {
      shape := Shape(numBits, numHash);
      bits := new nat[(numBits + 63) % WORD / 64](i => 0);
      count := 0;
      members := {};
      new;
      if numBits > 0 {
        assert Holds({}) by {
          forall pos: nat | pos / 64 < bits.Length ensures !BitAt(pos) { ZeroBit(pos % 64); }
        }
        assert Touched(shape, {}) == {};
      }
    }

    /** Sets one bit of the packed array and no other. */
    method Mark(pos: nat, ghost s: set<nat>)
      requires pos / 64 < bits.Length && Holds(s)
      requires forall i :: 0 <= i < bits.Length ==> bits[i] < WORD
      modifies bits
      ensures Holds(s + {pos})
      ensures forall i :: 0 <= i < bits.Length ==> bits[i] < WORD
    {
      var wordIdx, bitIdx := pos / 64, pos % 64;
      SetBit(bits[wordIdx], bitIdx);
      bits[wordIdx] := Or(bits[wordIdx], Pow2(bitIdx));
      forall q: nat | q / 64 < bits.Length
        ensures BitAt(q) <==> q in s + {pos}
      {
        assert q / 64 == wordIdx && q % 64 == bitIdx <==> q == pos;
      }
    }

    method Add(x: Data)
      requires Valid()
      modifies this`count, this`members, bits
      ensures Valid()
      ensures members == old(members) + {x}
      ensures count == (old(count) + 1) % WORD
    {
      var h1, h2 := Limbs(x);
      ghost var before := Touched(shape, members);
      assert before + FirstPositions(shape, x, 0) == before;
      for i := 0 to shape.numHash
        invariant members == old(members) && count == old(count)
        invariant forall k :: 0 <= k < bits.Length ==> bits[k] < WORD
        invariant Holds(before + FirstPositions(shape, x, i))
      {
        var pos := Probe(shape.numBits, h1, h2, i);
        Mark(pos, before + FirstPositions(shape, x, i));
        NextPosition(shape, x, i);
        assert before + FirstPositions(shape, x, i) + {pos} == before + FirstPositions(shape, x, i + 1);
      }
      TouchedAdd(shape, members, x);
      members := members + {x};
      count := (count + 1) % WORD;
    }

    /** Reads one bit of the packed array. */
    method Marked(pos: nat) returns (b: bool)
      requires pos / 64 < bits.Length
      ensures b <==> BitAt(pos)
    {
      var wordIdx, bitIdx := pos / 64, pos % 64;
      MaskTests(bits[wordIdx], bitIdx);
      b := And(bits[wordIdx], Pow2(bitIdx)) != 0;
    }

    /** The answer is exactly the Bloom-filter test on the members. */
    method Contains(x: Data) returns (r: bool)
      requires Valid()
      ensures r <==> MayContain(shape, members, x)
    {
      var h1, h2 := Limbs(x);
      for i := 0 to shape.numHash
        invariant FirstPositions(shape, x, i) <= Touched(shape, members)
      {
        var pos := Probe(shape.numBits, h1, h2, i);
        var marked := Marked(pos);
        NextPosition(shape, x, i);
        if !marked {
          assert Position(shape, x, i) in Positions(shape, x);
          return false;
        }
      }
      return true;
    }

    method Clear()
      requires Valid()
      modifies this`count, this`members, bits
      ensures Valid()
      ensures members == {} && count == 0
    {
      for i := 0 to bits.Length
        invariant forall k :: 0 <= k < i ==> bits[k] == 0
      {
        bits[i] := 0;
      }
      members := {};
      count := 0;
      forall pos: nat | pos / 64 < bits.Length ensures !BitAt(pos) { ZeroBit(pos % 64); }
      assert Touched(shape, {}) == {};
    }

    /** Ors the words of another filter of the same length into this one. */
    method MergeWords(other: Filter, ghost s: set<nat>, ghost t: set<nat>)
      requires bits.Length == other.bits.Length
      requires forall i :: 0 <= i < bits.Length ==> bits[i] < WORD && other.bits[i] < WORD
      requires Holds(s) && other.Holds(t)
      modifies bits
      ensures forall i :: 0 <= i < bits.Length ==> bits[i] < WORD
      ensures Holds(s + t)
    {
      for i := 0 to bits.Length
        invariant forall k :: 0 <= k < i ==> bits[k] == Or(old(bits[k]), old(other.bits[k]))
        invariant forall k :: i <= k < bits.Length ==> bits[k] == old(bits[k]) && other.bits[k] == old(other.bits[k])
      {
        bits[i] := Or(bits[i], other.bits[i]);
      }
      WordIsPow2();
      forall k | 0 <= k < bits.Length ensures bits[k] < WORD {
        Width(old(bits[k]), old(other.bits[k]), 64);
      }
      forall pos: nat | pos / 64 < bits.Length
        ensures BitAt(pos) <==> pos in s + t
      {
        OrBit(old(bits[pos / 64]), old(other.bits[pos / 64]), pos % 64);
        assert old(BitAt(pos)) <==> pos in s;
        assert old(other.BitAt(pos)) <==> pos in t;
      }
    }

    /** Merges another filter of the same shape; refuses any other. */
    method Union(other: Filter) returns (ok: bool)
      requires Valid() && other.Valid()
      modifies this`members, bits
      ensures Valid() && count == old(count)
      ensures ok <==> shape == other.shape
      ensures members == if ok then old(members) + old(other.members) else old(members)
      ensures !ok ==> bits[..] == old(bits[..])
    {
      if shape.numBits != other.shape.numBits || shape.numHash != other.shape.numHash {
        return false;
      }
      MergeWords(other, Touched(shape, members), Touched(shape, other.members));
      TouchedUnion(shape, members, other.members);
      members := members + other.members;
      return true;
    }
  }

  // ----- Runs over a fleet of filters -----

  datatype Op = OpAdd(f: nat, x: Data) | OpClear(f: nat) | OpUnion(f: nat, g: nat)

  predicate InRange(op: Op, n: nat) {
    op.f < n && (op.OpUnion? ==> op.g < n)
  }

  ghost predicate AllInRange(ops: seq<Op>, n: nat) {
    forall i :: 0 <= i < |ops| ==> InRange(ops[i], n)
  }

  /** What each filter holds after one operation, given what each held before. */
  ghost function After(shapes: seq<Shape>, held: seq<set<Data>>, op: Op): (r: seq<set<Data>>)
    requires |held| == |shapes| && InRange(op, |shapes|)
    ensures |r| == |shapes|
  {
    match op
    case OpAdd(f, x) => held[f := held[f] + {x}]
    case OpClear(f) => held[f := {}]
    case OpUnion(f, g) => if shapes[f] == shapes[g] then held[f := held[f] + held[g]] else held
  }

  /** What each filter has received since its last Clear, directly or from filters of its shape that
      were merged into it, given what each held at the start. */
  ghost function Received(shapes: seq<Shape>, start: seq<set<Data>>, ops: seq<Op>): (r: seq<set<Data>>)
    requires |start| == |shapes| && AllInRange(ops, |shapes|)
    ensures |r| == |shapes|
  {
    if ops == [] then start
    else After(shapes, Received(shapes, start, ops[..|ops| - 1]), ops[|ops| - 1])
  }

  ghost predicate Hold(fs: seq<Filter>, held: seq<set<Data>>)
    reads fs
  {
    |held| == |fs| && forall i :: 0 <= i < |fs| ==> fs[i].members == held[i]
  }

  /** Valid filters that share no memory. */
  ghost predicate Fleet(fs: seq<Filter>, shapes: seq<Shape>)
    reads fs, set f | f in fs :: f.bits
  {
    && |shapes| == |fs|
    && (forall i :: 0 <= i < |fs| ==> fs[i].Valid() && fs[i].shape == shapes[i])
    && (forall i, j :: 0 <= i < j < |fs| ==> fs[i] != fs[j] && fs[i].bits != fs[j].bits)
  }

  method StepFleet(fs: seq<Filter>, op: Op, ghost shapes: seq<Shape>, ghost held: seq<set<Data>>)
    requires Fleet(fs, shapes) && InRange(op, |fs|) && Hold(fs, held)
    modifies fs, set f | f in fs :: f.bits
    ensures Fleet(fs, shapes) && forall i :: 0 <= i < |fs| ==> fs[i].bits == old(fs[i].bits)
    ensures Hold(fs, After(shapes, held, op))
  {
    match op
    case OpAdd(f, x) => fs[f].Add(x);
    case OpClear(f) => fs[f].Clear();
    case OpUnion(f, g) => var ok := fs[f].Union(fs[g]);
  }

  /** Any sequence of Add, Clear and Union on any fleet leaves every filter holding exactly what its
      history says it received. */
  method RunFleet(fs: seq<Filter>, ops: seq<Op>, ghost shapes: seq<Shape>, ghost start: seq<set<Data>>)
    requires Fleet(fs, shapes) && AllInRange(ops, |fs|) && Hold(fs, start)
    modifies fs, set f | f in fs :: f.bits
    ensures Fleet(fs, shapes) && forall i :: 0 <= i < |fs| ==> fs[i].bits == old(fs[i].bits)
    ensures Hold(fs, Received(shapes, start, ops))
  {
    for n := 0 to |ops|
      invariant Fleet(fs, shapes) && forall i :: 0 <= i < |fs| ==> fs[i].bits == old(fs[i].bits)
      invariant Hold(fs, Received(shapes, start, ops[..n]))
    {
      assert ops[..n + 1][..n] == ops[..n];
      StepFleet(fs, ops[n], shapes, Received(shapes, start, ops[..n]));
    }
    assert ops[..|ops|] == ops;
  }

  /** The answer of Contains after any such sequence: the Bloom test on what the filter received, and so
      never no for an element it received. */
  method QueryFleet(fs: seq<Filter>, ops: seq<Op>, f: nat, x: Data,
                    ghost shapes: seq<Shape>, ghost start: seq<set<Data>>)
    returns (r: bool)
    requires Fleet(fs, shapes) && AllInRange(ops, |fs|) && f < |fs|
    requires Hold(fs, start)
    modifies fs, set f | f in fs :: f.bits
    ensures r <==> MayContain(shapes[f], Received(shapes, start, ops)[f], x)
    ensures x in Received(shapes, start, ops)[f] ==> r
  {
    RunFleet(fs, ops, shapes, start);
    r := fs[f].Contains(x);
    if x in fs[f].members {
      NoFalseNegatives(shapes[f], fs[f].members, x);
    }
  }

  /** What a filter once received it keeps until it is cleared, whatever else happens to the fleet. */
  lemma {:induction false} ReceivedStays(
    shapes: seq<Shape>, start: seq<set<Data>>, ops: seq<Op>, n: nat, f: nat, x: Data)
    requires |start| == |shapes| && AllInRange(ops, |shapes|) && f < |shapes| && n <= |ops|
    requires x in Received(shapes, start, ops[..n])[f]
    requires NotClearedFrom(ops, n, f)
    ensures x in Received(shapes, start, ops)[f]
  {
    if n == |ops| {
      assert ops[..n] == ops;
    } else {
      var before := ops[..|ops| - 1];
      assert before[..n] == ops[..n];
      ReceivedStays(shapes, start, before, n, f, x);
    }
  }

  ghost predicate NotClearedFrom(ops: seq<Op>, n: nat, f: nat) {
    forall i :: n <= i < |ops| ==> ops[i] != OpClear(f)
  }

  /** Operation n gives x to filter f: by adding it, or by merging a filter of the same shape that has it. */
  ghost predicate Brings(shapes: seq<Shape>, start: seq<set<Data>>, ops: seq<Op>, n: nat, f: nat, x: Data)
    requires |start| == |shapes| && AllInRange(ops, |shapes|) && f < |shapes| && n < |ops|
  {
    || ops[n] == OpAdd(f, x)
    || (ops[n].OpUnion? && ops[n].f == f && shapes[f] == shapes[ops[n].g]
        && x in Received(shapes, start, ops[..n])[ops[n].g])
  }

  /** A filter has received x exactly if it had x at the start, or some operation gave it x, and it was
      not cleared since. */
  lemma {:induction false} ReceivedIff(shapes: seq<Shape>, start: seq<set<Data>>, ops: seq<Op>, f: nat, x: Data)
    requires |start| == |shapes| && AllInRange(ops, |shapes|) && f < |shapes|
    ensures x in Received(shapes, start, ops)[f] <==>
            || (x in start[f] && NotClearedFrom(ops, 0, f))
            || exists n :: 0 <= n < |ops| && Brings(shapes, start, ops, n, f, x) && NotClearedFrom(ops, n + 1, f)
  {
    if x in start[f] && NotClearedFrom(ops, 0, f) {
      ReceivedStays(shapes, start, ops, 0, f, x);
    }
    if n :| 0 <= n < |ops| && Brings(shapes, start, ops, n, f, x) && NotClearedFrom(ops, n + 1, f) {
      assert ops[..n + 1][..n] == ops[..n];
      ReceivedStays(shapes, start, ops, n + 1, f, x);
    }
    if x in Received(shapes, start, ops)[f] && ops != [] {
      Origin(shapes, start, ops, f, x);
    }
  }

  lemma {:induction false} Origin(shapes: seq<Shape>, start: seq<set<Data>>, ops: seq<Op>, f: nat, x: Data)
    requires |start| == |shapes| && AllInRange(ops, |shapes|) && f < |shapes|
    requires x in Received(shapes, start, ops)[f]
    ensures || (x in start[f] && NotClearedFrom(ops, 0, f))
            || exists n :: 0 <= n < |ops| && Brings(shapes, start, ops, n, f, x) && NotClearedFrom(ops, n + 1, f)
  {
    if ops == [] {
    } else {
      var last, before := |ops| - 1, ops[..|ops| - 1];
      if Brings(shapes, start, ops, last, f, x) {
        assert NotClearedFrom(ops, last + 1, f);
      } else {
        Origin(shapes, start, before, f, x);
        assert ops[last] != OpClear(f);
        if n :| 0 <= n < last && Brings(shapes, start, before, n, f, x) && NotClearedFrom(before, n + 1, f) {
          assert before[..n] == ops[..n];
          assert Brings(shapes, start, ops, n, f, x) && NotClearedFrom(ops, n + 1, f);
        }
      }
    }
  }
}
