/** The NSEC3 ring (sections 3.1.7 and 7.1 of RFC 5155) over the ordered hash index. */
module Ring {
  import opened Bytes
  import opened Records

  type Index = map<Bytes, NSEC3Rec>

  /** `n` follows `h` in the ring of `keys`: the least key above `h`, or the least key of all when none is above. */
  ghost predicate IsNext(keys: set<Bytes>, h: Bytes, n: Bytes) {
    && n in keys
    && if exists k :: k in keys && Less(h, k)
       then Less(h, n) && forall k | k in keys && Less(h, k) :: Leq(n, k)
       else IsMin(keys, n)
  }

  /** `p` precedes `h`: the greatest key below `h`, or the greatest key of all when none is below. */
  ghost predicate IsPrev(keys: set<Bytes>, h: Bytes, p: Bytes) {
    && p in keys
    && if exists k :: k in keys && Less(k, h)
       then Less(p, h) && forall k | k in keys && Less(k, h) :: Leq(k, p)
       else IsMax(keys, p)
  }

  /** The record answering for `x`: its own, or its predecessor's. */
  ghost predicate IsCover(keys: set<Bytes>, x: Bytes, c: Bytes) {
    if x in keys then c == x else IsPrev(keys, x, c)
  }

  /** Every record points at its successor. */
  ghost predicate Closed(index: Index) {
    forall h | h in index :: IsNext(index.Keys, h, index[h].next)
  }

  /** Every record is filed under its own hash. */
  ghost predicate FiledByHash(index: Index) {
    forall h | h in index :: index[h].hash == h
  }

  lemma NextUnique(keys: set<Bytes>, h: Bytes, a: Bytes, b: Bytes)
    requires IsNext(keys, h, a) && IsNext(keys, h, b)
    ensures a == b
  {
    LessIsTotalOrder();
  }

  lemma PrevUnique(keys: set<Bytes>, h: Bytes, a: Bytes, b: Bytes)
    requires IsPrev(keys, h, a) && IsPrev(keys, h, b)
    ensures a == b
  {
    LessIsTotalOrder();
  }

  /** On members of the ring, predecessor and successor are inverse. */
  lemma NextPrevInverse(keys: set<Bytes>, h: Bytes, n: Bytes)
    requires h in keys && n in keys
    ensures IsNext(keys, h, n) <==> IsPrev(keys, n, h)
  {
    LessIsTotalOrder();
    if IsNext(keys, h, n) {
      if exists k :: k in keys && Less(h, k) {
        assert Less(h, n);
        forall k | k in keys && Less(k, n) ensures Leq(k, h) {
          assert Less(h, k) ==> Leq(n, k);
        }
      } else {
        forall k | k in keys ensures Leq(k, h) {}
        forall k | k in keys ensures !Less(k, n) { assert Leq(n, k); }
      }
    }
    if IsPrev(keys, n, h) {
      if exists k :: k in keys && Less(k, n) {
        assert Less(h, n);
        forall k | k in keys && Less(h, k) ensures Leq(n, k) {
          assert Less(k, n) ==> Leq(k, h);
        }
      } else {
        forall k | k in keys ensures Leq(n, k) {}
        forall k | k in keys ensures !Less(h, k) { assert Leq(k, h); }
      }
    }
  }

  // ---------------------------------------------------------------------------
  // Sorted enumeration
  // ---------------------------------------------------------------------------

  lemma NextInside(keys: set<Bytes>, s: seq<Bytes>, i: nat)
    requires Sorted(s) && (forall k :: k in s <==> k in keys) && i + 1 < |s|
    ensures IsNext(keys, s[i], s[i + 1])
  {
    hide Less;
    assert Less(s[i], s[i + 1]) && s[i + 1] in s;
    forall k | k in keys && Less(s[i], k) ensures Leq(s[i + 1], k) {
      var j :| 0 <= j < |s| && s[j] == k;
      NotBefore(s, i, j);
    }
  }

  /** A greater element stands later. */
  lemma NotBefore(s: seq<Bytes>, i: nat, j: nat)
    requires Sorted(s) && i < |s| && j < |s| && Less(s[i], s[j])
    ensures i < j
  {
    hide Less;
    LessIsTotalOrder();
  }

  lemma FirstAfterLast(keys: set<Bytes>, s: seq<Bytes>)
    requires Sorted(s) && (forall k :: k in s <==> k in keys) && s != []
    ensures IsNext(keys, s[|s| - 1], s[0])
  {
    hide Less;
    assert s[0] in s;
    forall k | k in keys ensures !Less(s[|s| - 1], k) && Leq(s[0], k) {
      var j :| 0 <= j < |s| && s[j] == k;
      if Less(s[|s| - 1], s[j]) { NotBefore(s, |s| - 1, j); }
    }
  }

  /** In the sorted enumeration, the successor is the next element, cyclically. */
  lemma NextInSorted(keys: set<Bytes>, s: seq<Bytes>, i: nat)
    requires Sorted(s) && (forall k :: k in s <==> k in keys) && i < |s|
    ensures IsNext(keys, s[i], s[(i + 1) % |s|])
  {
    hide IsNext, Sorted;
    if i + 1 < |s| {
      NextInside(keys, s, i);
    } else {
      FirstAfterLast(keys, s);
    }
  }

  // ---------------------------------------------------------------------------
  // What an accepted ring proves about every hash
  // ---------------------------------------------------------------------------

  /** `x` lies strictly inside the ring interval from `owner` to `next`. */
  predicate Between(owner: Bytes, x: Bytes, next: Bytes) {
    if Less(owner, next) then Less(owner, x) && Less(x, next) else x != owner && (Less(owner, x) || Less(x, next))
  }

  /** The record at `h` matches `x` or denies its existence. */
  ghost predicate Answers(index: Index, h: Bytes, x: Bytes) {
    h in index && (h == x || Between(h, x, index[h].next))
  }

  lemma PrevExists(keys: set<Bytes>, x: Bytes) returns (p: Bytes)
    requires keys != {}
    ensures IsPrev(keys, x, p)
  {
    LessIsTotalOrder();
    var below := set k | k in keys && Less(k, x);
    if below != {} {
      p := MaxExists(below);
      assert p in keys && Less(p, x);
    } else {
      assert forall k :: k in keys ==> !Less(k, x) by {
        forall k | k in keys ensures !Less(k, x) { assert Less(k, x) ==> k in below; }
      }
      p := MaxExists(keys);
    }
  }

  lemma {:induction false} MaxExists(keys: set<Bytes>) returns (m: Bytes)
    requires keys != {}
    ensures IsMax(keys, m)
    decreases |keys|
  {
    var k :| k in keys;
    if keys == {k} {
      m := k;
    } else {
      assert keys - {k} != {};
      var high := MaxExists(keys - {k});
      LessIsTotalOrder();
      m := if Less(high, k) then k else high;
      forall x | x in keys ensures Leq(x, m) {
        assert x == k || Leq(x, high);
      }
    }
  }

  /** The covering record answers for `x`, wrap-around and one-record rings included. */
  lemma CoverAnswers(index: Index, x: Bytes, c: Bytes)
    requires Closed(index) && IsCover(index.Keys, x, c)
    ensures Answers(index, c, x)
  {
    if x !in index.Keys {
      assert IsNext(index.Keys, c, index[c].next);
      CoverInterval(index.Keys, x, c, index[c].next);
    }
  }

  lemma CoverInterval(keys: set<Bytes>, x: Bytes, c: Bytes, n: Bytes)
    requires x !in keys && IsPrev(keys, x, c) && IsNext(keys, c, n)
    ensures Between(c, x, n)
  {
    LessTotal(n, x);
    LessTotal(c, x);
    if Less(c, x) {
      if Less(c, n) {
        if Less(n, x) {
          assert Leq(n, c);
          LessAsymmetric(c, n);
        }
      }
    } else {
      assert IsMax(keys, c) && !Less(n, x);
      if Less(c, n) { LessAsymmetric(c, n); }
    }
  }

  /** No other record does. */
  lemma OnlyCoverAnswers(index: Index, x: Bytes, c: Bytes, h: Bytes)
    requires Closed(index) && IsCover(index.Keys, x, c) && Answers(index, h, x)
    ensures h == c
  {
    if h != x {
      var keys, n := index.Keys, index[h].next;
      assert IsNext(keys, h, n);
      IntervalHoldsNoKey(keys, h, n, x);
      IntervalOwnerIsPrev(keys, h, n, x);
      PrevUnique(keys, x, c, h);
    }
  }

  lemma IntervalHoldsNoKey(keys: set<Bytes>, h: Bytes, n: Bytes, x: Bytes)
    requires h in keys && IsNext(keys, h, n) && Between(h, x, n)
    ensures x !in keys
  {
    if x in keys {
      if Less(h, n) {
        assert Leq(n, x);
        LessAsymmetric(x, n);
      } else {
        assert forall k | k in keys :: !Less(h, k);
        assert Leq(n, x);
        LessAsymmetric(x, n);
      }
    }
  }

  lemma IntervalOwnerIsPrev(keys: set<Bytes>, h: Bytes, n: Bytes, x: Bytes)
    requires h in keys && IsNext(keys, h, n) && Between(h, x, n)
    ensures IsPrev(keys, x, h)
  {
    LessTotal(h, x);
    if Less(h, x) {
      forall k | k in keys && Less(k, x) ensures Leq(k, h) {
        LessTotal(h, k);
        NothingInside(keys, h, n, k, x);
      }
    } else {
      assert Less(x, n) && !Less(h, n);
      forall k | k in keys ensures Leq(k, h) { LessTotal(h, k); }
      forall k | k in keys ensures !Less(k, x) {
        if Less(k, x) { LessTransitive(k, x, n); LessAsymmetric(k, n); }
      }
    }
  }

  lemma NothingInside(keys: set<Bytes>, h: Bytes, n: Bytes, k: Bytes, x: Bytes)
    requires k in keys && IsNext(keys, h, n) && Between(h, x, n) && Less(k, x)
    ensures !Less(h, k)
  {
    if Less(h, k) {
      assert Less(h, n) && Leq(n, k);
      LessAsymmetric(x, n);
      if n != k { LessTransitive(n, k, x); }
    }
  }

  /** An accepted ring answers for every possible hash exactly once. */
  lemma DeniesExactlyOnce(index: Index, x: Bytes) returns (c: Bytes)
    requires Closed(index) && index != map[]
    ensures IsCover(index.Keys, x, c)
    ensures forall h :: Answers(index, h, x) <==> h == c
  {
    hide IsNext, IsPrev, Less, Between;
    assert index.Keys != {} by { var k :| k in index; assert k in index.Keys; }
    if x in index.Keys {
      c := x;
    } else {
      c := PrevExists(index.Keys, x);
    }
    CoverAnswers(index, x, c);
    forall h | Answers(index, h, x) ensures h == c { OnlyCoverAnswers(index, x, c, h); }
  }

  // ---------------------------------------------------------------------------
  // Local checks against the global ring
  // ---------------------------------------------------------------------------

  ghost predicate SameOutside(old_: Index, new_: Index, touched: set<Bytes>) {
    forall h | h !in touched :: (h in old_ <==> h in new_) && (h in old_ ==> old_[h] == new_[h])
  }

  /** What the incremental pass looks at for one touched hash, when it finds nothing to report. */
  ghost predicate LocallySound(index: Index, h: Bytes) {
    && h in index
    && IsNext(index.Keys, h, index[h].next)
    && forall p | IsPrev(index.Keys, h, p) :: index[p].next == h
  }

  /** Starting from a closed ring, checking the touched records and their predecessors finds nothing exactly when the
      new ring is closed as a whole and no touched hash has disappeared. */
  lemma LocalChecksDecideRing(old_: Index, new_: Index, touched: set<Bytes>)
    requires Closed(old_) && SameOutside(old_, new_, touched)
    ensures (forall h | h in touched :: LocallySound(new_, h)) <==> Closed(new_) && touched <= new_.Keys
  {
    hide IsNext, Less;
    if forall h | h in touched :: LocallySound(new_, h) {
      forall h | h in new_ ensures IsNext(new_.Keys, h, new_[h].next) {
        if h !in touched { UntouchedStillPoints(old_, new_, touched, h); }
      }
    }
    if Closed(new_) && touched <= new_.Keys {
      forall h | h in touched ensures LocallySound(new_, h) {
        forall p | IsPrev(new_.Keys, h, p) ensures new_[p].next == h {
          NextPrevInverse(new_.Keys, p, h);
          NextUnique(new_.Keys, p, new_[p].next, h);
        }
      }
    }
  }

  lemma UntouchedStillPoints(old_: Index, new_: Index, touched: set<Bytes>, h: Bytes)
    requires Closed(old_) && SameOutside(old_, new_, touched)
    requires forall t | t in touched :: LocallySound(new_, t)
    requires h in new_ && h !in touched
    ensures IsNext(new_.Keys, h, new_[h].next)
  {
    hide IsNext, IsPrev, Less;
    assert old_.Keys <= new_.Keys by {
      forall k | k in old_ ensures k in new_ { if k in touched { assert LocallySound(new_, k); } }
    }
    var n := new_[h].next;
    assert n == old_[h].next && IsNext(old_.Keys, h, n);
    var n' := NextExists(new_.Keys, h);
    if n' != n {
      if n' in old_ {
        OldSuccessor(old_.Keys, new_.Keys, h, n, n');
        assert false;
      }
      assert n' in touched;
      NextPrevInverse(new_.Keys, h, n');
      assert false;
    }
  }

  lemma NextExists(keys: set<Bytes>, h: Bytes) returns (n: Bytes)
    requires keys != {}
    ensures IsNext(keys, h, n)
  {
    LessIsTotalOrder();
    var above := set k | k in keys && Less(h, k);
    if above != {} {
      n := MinExists(above);
      assert n in keys && Less(h, n);
    } else {
      assert forall k :: k in keys ==> !Less(h, k) by {
        forall k | k in keys ensures !Less(h, k) { assert Less(h, k) ==> k in above; }
      }
      n := MinExists(keys);
    }
  }

  /** As long as no touched hash is gone, a record that is neither touched nor in front of a touched one still points at
      its successor. */
  lemma UnseenStillPoints(old_: Index, new_: Index, touched: set<Bytes>, p: Bytes)
    requires Closed(old_) && SameOutside(old_, new_, touched) && touched <= new_.Keys
    requires p in new_ && p !in touched && forall s | s in touched :: !IsPrev(new_.Keys, s, p)
    ensures IsNext(new_.Keys, p, new_[p].next)
  {
    hide IsNext, IsPrev;
    var s := NextExists(new_.Keys, p);
    IsNextMember(new_.Keys, p, s);
    NextPrevInverse(new_.Keys, p, s);
    OldSuccessor(old_.Keys, new_.Keys, p, old_[p].next, s);
  }

  lemma IsNextMember(keys: set<Bytes>, h: Bytes, n: Bytes)
    requires IsNext(keys, h, n)
    ensures n in keys
  {
  }

  lemma OldSuccessor(fewer: set<Bytes>, more: set<Bytes>, h: Bytes, n: Bytes, n': Bytes)
    requires fewer <= more && IsNext(fewer, h, n) && IsNext(more, h, n') && n' in fewer
    ensures n == n'
  {
    LessIsTotalOrder();
  }
}
