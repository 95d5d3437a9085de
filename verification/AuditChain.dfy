/** The tamper-evident hash chain of audit events. */
module AuditChain {
  import opened Lists

  /** content stands for everything the digest covers besides the previous hash; the id is not covered. */
  datatype Event<C> = Event(id: string, prevHash: string, hash: string, content: C)

  /** The digest of (previous hash, content), or None when the event cannot be serialised. */
  type Digest<!C> = (string, C) -> Option<string>

  const GENESIS: string := "GENESIS"

  datatype Reason = PrevMismatch | HashMismatch

  datatype Verdict = Intact | Broken(at: nat, why: Reason) | Unhashable(at: nat)

  /** SHA-256 in hexadecimal. */
  const DIGEST_LENGTH: nat := 64

  ghost predicate Hexadecimal<C(!new)>(h: Digest<C>) {
    forall p, c :: h(p, c).Some? ==> |h(p, c).value| == DIGEST_LENGTH
  }

  function Expected<C>(events: seq<Event<C>>, i: nat): string
    requires i < |events|
  {
    if i == 0 then GENESIS else events[i - 1].hash
  }

  predicate Linked<C>(h: Digest<C>, events: seq<Event<C>>, i: nat)
    requires i < |events|
  {
    events[i].prevHash == Expected(events, i) && h(events[i].prevHash, events[i].content) == Some(events[i].hash)
  }

  ghost predicate Accepted<C>(h: Digest<C>, events: seq<Event<C>>) {
    forall i :: 0 <= i < |events| ==> Linked(h, events, i)
  }

  /** Accepts exactly the intact chains, and otherwise names the first event that does not fit and why. */
  method VerifyChain<C>(h: Digest<C>, events: seq<Event<C>>) returns (v: Verdict)
    ensures v == Intact <==> Accepted(h, events)
    ensures !v.Intact? ==>
              && v.at < |events| && Accepted(h, events[..v.at])
              && var e := events[v.at];
                 match v
                 case Broken(_, PrevMismatch) => e.prevHash != Expected(events, v.at)
                 case Broken(_, HashMismatch) =>
                   && e.prevHash == Expected(events, v.at)
                   && h(e.prevHash, e.content).Some? && h(e.prevHash, e.content) != Some(e.hash)
                 case Unhashable(_) => e.prevHash == Expected(events, v.at) && h(e.prevHash, e.content).None?
  {
    var prev := GENESIS;
    for i := 0 to |events|
      invariant i < |events| ==> prev == Expected(events, i)
      invariant forall j :: 0 <= j < i ==> Linked(h, events, j)
    {
      var e := events[i];
      PrefixAccepted(h, events, i);
      assert Linked(h, events, i) <==> e.prevHash == prev && h(e.prevHash, e.content) == Some(e.hash);
      if e.prevHash != prev {
        return Broken(i, PrevMismatch);
      }
      var want := h(e.prevHash, e.content);
      if want.None? {
        return Unhashable(i);
      }
      if e.hash != want.value {
        return Broken(i, HashMismatch);
      }
      prev := e.hash;
    }
    return Intact;
  }

  /** Cutting the end off a chain goes unnoticed. */
  lemma PrefixAccepted<C>(h: Digest<C>, events: seq<Event<C>>, n: nat)
    requires n <= |events| && forall j :: 0 <= j < n ==> Linked(h, events, j)
    ensures Accepted(h, events[..n])
  {
    forall i | 0 <= i < n ensures Linked(h, events[..n], i) {
      assert Linked(h, events, i);
    }
  }

  /** Ids are not covered: rewriting them goes unnoticed. */
  lemma IdsNotCovered<C>(h: Digest<C>, events: seq<Event<C>>, forged: seq<Event<C>>)
    requires Accepted(h, events) && |forged| == |events|
    requires forall i :: 0 <= i < |events| ==> forged[i] == events[i].(id := forged[i].id)
    ensures Accepted(h, forged)
  {
    forall i | 0 <= i < |forged| ensures Linked(h, forged, i) {
      assert Linked(h, events, i);
    }
  }

  // ----- Tampering shows, or a collision is at hand -----

  /** Two events with different covered fields and the same digest. */
  ghost predicate Collide<C>(h: Digest<C>, e: Event<C>, f: Event<C>) {
    && (e.prevHash, e.content) != (f.prevHash, f.content)
    && h(e.prevHash, e.content).Some? && h(e.prevHash, e.content) == h(f.prevHash, f.content)
  }

  /** An event of a and an event of b exhibit a digest collision. */
  ghost predicate CollisionIn<C>(h: Digest<C>, a: seq<Event<C>>, b: seq<Event<C>>) {
    exists i, j :: 0 <= i < |a| && 0 <= j < |b| && Collide(h, a[i], b[j])
  }

  ghost predicate SameUpTo<C>(a: seq<Event<C>>, b: seq<Event<C>>, n: nat)
    requires n <= |a| && n <= |b|
  {
    forall k :: 0 <= k < n ==> a[k] == b[k].(id := a[k].id)
  }

  /** Event i of one accepted chain and event j of another with equal hashes: either they are at the
      same position and the chains agree on everything covered up to there, or walking back from them
      turns up an event of each whose different contents have the same digest. */
  lemma {:induction false} WalkBack<C(!new)>(h: Digest<C>, a: seq<Event<C>>, i: nat, b: seq<Event<C>>, j: nat)
    requires Hexadecimal(h) && Accepted(h, a) && Accepted(h, b)
    requires i < |a| && j < |b| && a[i].hash == b[j].hash
    ensures (i == j && SameUpTo(a, b, i + 1)) || CollisionIn(h, a, b)
  {
    assert Linked(h, a, i) && Linked(h, b, j);
    if (a[i].prevHash, a[i].content) != (b[j].prevHash, b[j].content) {
      assert Collide(h, a[i], b[j]);
    } else {
      assert i > 0 ==> Linked(h, a, i - 1) && |a[i - 1].hash| == DIGEST_LENGTH;
      assert j > 0 ==> Linked(h, b, j - 1) && |b[j - 1].hash| == DIGEST_LENGTH;
      assert |GENESIS| != DIGEST_LENGTH;
      assert i > 0 <==> j > 0;
      if i > 0 {
        WalkBack(h, a, i - 1, b, j - 1);
      }
    }
  }

  /** All hashes of an accepted chain are different. */
  lemma HashesDistinct<C(!new)>(h: Digest<C>, a: seq<Event<C>>, i: nat, j: nat)
    requires Hexadecimal(h) && Accepted(h, a) && i < j < |a|
    ensures a[i].hash != a[j].hash || CollisionIn(h, a, a)
  {
    if a[i].hash == a[j].hash {
      WalkBack(h, a, i, a, j);
    }
  }

  /** The last hash fixes the whole chain: its length and everything the digest covers. */
  lemma LastHashFixesChain<C(!new)>(h: Digest<C>, a: seq<Event<C>>, b: seq<Event<C>>)
    requires Hexadecimal(h) && Accepted(h, a) && Accepted(h, b) && a != [] && b != []
    requires a[|a| - 1].hash == b[|b| - 1].hash
    ensures (|a| == |b| && SameUpTo(a, b, |a|)) || CollisionIn(h, a, b)
  {
    WalkBack(h, a, |a| - 1, b, |b| - 1);
  }

  /** Events of an accepted chain cannot be dropped from the middle, repeated or reordered: whatever
      is accepted again is a prefix. */
  lemma {:induction false} OnlyPrefixes<C(!new)>(h: Digest<C>, a: seq<Event<C>>, d: seq<Event<C>>)
    requires Hexadecimal(h) && Accepted(h, a) && Accepted(h, d)
    requires forall e :: e in d ==> e in a
    ensures d <= a || CollisionIn(h, a, a)
  {
    if d == [] {
    } else {
      var l := |d| - 1;
      assert forall i :: 0 <= i < l ==> Linked(h, d, i);
      PrefixAccepted(h, d, l);
      assert forall e :: e in d[..l] ==> e in d;
      OnlyPrefixes(h, a, d[..l]);
      if !CollisionIn(h, a, a) {
        NextIsNext(h, a, d);
      }
    }
  }

  lemma NextIsNext<C(!new)>(h: Digest<C>, a: seq<Event<C>>, d: seq<Event<C>>)
    requires Hexadecimal(h) && Accepted(h, a) && Accepted(h, d) && d != []
    requires d[..|d| - 1] <= a && d[|d| - 1] in a
    ensures d <= a || CollisionIn(h, a, a)
  {
    var l := |d| - 1;
    var m :| 0 <= m < |a| && a[m] == d[l];
    assert Linked(h, d, l) && Linked(h, a, m);
    assert l > 0 ==> d[l - 1] == d[..l][l - 1] == a[l - 1] && Linked(h, a, l - 1) && |a[l - 1].hash| == DIGEST_LENGTH;
    assert m > 0 ==> Linked(h, a, m - 1) && |a[m - 1].hash| == DIGEST_LENGTH;
    assert l > 0 <==> m > 0;
    if l > 0 {
      WalkBack(h, a, l - 1, a, m - 1);
    }
    if m == l {
      assert d == d[..l] + [d[l]];
    }
  }
}
