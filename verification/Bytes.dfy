/** Byte strings and the order Go's `<` and `slices.Sort` use on them. */
module Bytes {

  type byte = n: int | 0 <= n < 256
  type u32 = n: int | 0 <= n < 0x1_0000_0000
  type Bytes = seq<byte>

  datatype Option<+T> = None | Some(value: T)

  /** Wrap-around addition on 32-bit unsigned integers. */
  function Add32(a: u32, b: u32): u32 {
    (a + b) % 0x1_0000_0000
  }

  /** Wrap-around subtraction on 32-bit unsigned integers. */
  function Sub32(a: u32, b: u32): u32 {
    (a - b) % 0x1_0000_0000
  }

  /** Lexicographic order: a proper prefix comes first. */
  predicate Less(a: Bytes, b: Bytes) {
    b != [] && (a == [] || a[0] < b[0] || (a[0] == b[0] && Less(a[1..], b[1..])))
  }

  predicate Leq(a: Bytes, b: Bytes) {
    a == b || Less(a, b)
  }

  lemma {:induction false} LessIrreflexive(a: Bytes)
    ensures !Less(a, a)
  {
    if a != [] { LessIrreflexive(a[1..]); }
  }

  lemma {:induction false} LessTransitive(a: Bytes, b: Bytes, c: Bytes)
    requires Less(a, b) && Less(b, c)
    ensures Less(a, c)
  {
    if a != [] && a[0] == b[0] && b[0] == c[0] {
      LessTransitive(a[1..], b[1..], c[1..]);
    }
  }

  lemma {:induction false} LessTotal(a: Bytes, b: Bytes)
    ensures Less(a, b) || a == b || Less(b, a)
  {
    if a != [] && b != [] && a[0] == b[0] {
      LessTotal(a[1..], b[1..]);
      assert a == [a[0]] + a[1..] && b == [b[0]] + b[1..];
    }
  }

  lemma LessAsymmetric(a: Bytes, b: Bytes)
    requires Less(a, b)
    ensures !Less(b, a) && a != b
  {
    LessIrreflexive(a);
    if Less(b, a) { LessTransitive(a, b, a); }
  }

  /** `Less` is a strict total order, in the quantified form proofs about rings use. */
  lemma LessIsTotalOrder()
    ensures forall a: Bytes :: !Less(a, a)
    ensures forall a: Bytes, b: Bytes, c: Bytes :: Less(a, b) && Less(b, c) ==> Less(a, c)
    ensures forall a: Bytes, b: Bytes :: Less(a, b) || a == b || Less(b, a)
  {
    forall a: Bytes ensures !Less(a, a) { LessIrreflexive(a); }
    forall a: Bytes, b: Bytes, c: Bytes | Less(a, b) && Less(b, c) ensures Less(a, c) { LessTransitive(a, b, c); }
    forall a: Bytes, b: Bytes ensures Less(a, b) || a == b || Less(b, a) { LessTotal(a, b); }
  }

  /** The first `k` bytes are the same, and the byte after them is smaller or missing on the left. */
  predicate DiffersAt(a: Bytes, b: Bytes, k: nat) {
    k <= |a| && k < |b| && a[..k] == b[..k] && (k == |a| || a[k] < b[k])
  }

  lemma SameFirst(a: Bytes, b: Bytes, k: nat)
    requires DiffersAt(a, b, k)
    ensures k > 0 ==> a != [] && a[0] == b[0]
  {
    assert k > 0 ==> a[..k][0] == a[0] && b[..k][0] == b[0];
  }

  /** What comes first is a proper prefix, or smaller at the first difference. */
  lemma {:induction false} LessMeans(a: Bytes, b: Bytes)
    ensures Less(a, b) <==> exists k: nat :: DiffersAt(a, b, k)
  {
    if a != [] && b != [] && a[0] == b[0] {
      LessMeans(a[1..], b[1..]);
      if k: nat :| DiffersAt(a[1..], b[1..], k) {
        assert a[..k + 1] == [a[0]] + a[1..][..k] && b[..k + 1] == [b[0]] + b[1..][..k];
        assert DiffersAt(a, b, k + 1);
      }
      if k: nat :| DiffersAt(a, b, k) {
        assert k > 0 && a[1..][..k - 1] == a[..k][1..] && b[1..][..k - 1] == b[..k][1..];
        assert DiffersAt(a[1..], b[1..], k - 1);
      }
    } else if b != [] {
      if Less(a, b) { assert DiffersAt(a, b, 0); }
      forall k: nat | DiffersAt(a, b, k) ensures k > 0 ==> a != [] && a[0] == b[0] { SameFirst(a, b, k); }
    }
  }

  /** A common prefix does not influence the comparison. */
  lemma {:induction false} LessAfterPrefix(p: Bytes, a: Bytes, b: Bytes)
    ensures Less(p + a, p + b) <==> Less(a, b)
  {
    if p == [] {
      assert p + a == a && p + b == b;
    } else {
      assert (p + a)[1..] == p[1..] + a && (p + b)[1..] == p[1..] + b;
      LessAfterPrefix(p[1..], a, b);
    }
  }

  /** Equal-length prefixes that differ decide the comparison. */
  lemma {:induction false} LessDecidedByPrefix(p: Bytes, q: Bytes, a: Bytes, b: Bytes)
    requires |p| == |q| && p != q
    ensures Less(p + a, q + b) <==> Less(p, q)
  {
    if p[0] == q[0] {
      assert (p + a)[1..] == p[1..] + a && (q + b)[1..] == q[1..] + b;
      assert p == [p[0]] + p[1..] && q == [q[0]] + q[1..];
      LessDecidedByPrefix(p[1..], q[1..], a, b);
    }
  }

  // ---------------------------------------------------------------------------
  // Sorted enumeration of a finite key set: what scanning a btree yields.
  // ---------------------------------------------------------------------------

  predicate IsMin(keys: set<Bytes>, m: Bytes) {
    m in keys && forall k | k in keys :: Leq(m, k)
  }

  predicate IsMax(keys: set<Bytes>, m: Bytes) {
    m in keys && forall k | k in keys :: Leq(k, m)
  }

  lemma {:induction false} MinExists(keys: set<Bytes>) returns (m: Bytes)
    requires keys != {}
    ensures IsMin(keys, m)
    decreases |keys|
  {
    var k :| k in keys;
    if keys == {k} {
      m := k;
    } else {
      assert keys - {k} != {};
      var low := MinExists(keys - {k});
      LessIsTotalOrder();
      m := if Less(k, low) then k else low;
      forall x | x in keys ensures Leq(m, x) {
        assert x == k || Leq(low, x);
      }
    }
  }

  lemma MinUnique(keys: set<Bytes>, a: Bytes, b: Bytes)
    requires IsMin(keys, a) && IsMin(keys, b)
    ensures a == b
  {
    if Less(a, b) && Less(b, a) {
      LessTransitive(a, b, a);
      LessIrreflexive(a);
    }
  }

  function Min(keys: set<Bytes>): (m: Bytes)
    requires keys != {}
    ensures IsMin(keys, m)
  {
    assert exists x :: IsMin(keys, x) by { var m := MinExists(keys); }
    assert forall x, y | IsMin(keys, x) && IsMin(keys, y) :: x == y by {
      forall x, y | IsMin(keys, x) && IsMin(keys, y) ensures x == y { MinUnique(keys, x, y); }
    }
    var x :| x in keys && IsMin(keys, x);
    x
  }

  ghost predicate Sorted(s: seq<Bytes>) {
    forall i, j | 0 <= i < j < |s| :: Less(s[i], s[j])
  }

  /** The keys in ascending order. */
  function SortedKeys(keys: set<Bytes>): (s: seq<Bytes>)
    ensures Sorted(s)
    ensures forall k :: k in s <==> k in keys
    ensures |s| == |keys|
    decreases |keys|
  {
    if keys == {} then []
    else
      var low := Min(keys);
      var rest := SortedKeys(keys - {low});
      assert forall k | k in rest :: Less(low, k);
      [low] + rest
  }

  /** Scans a key set in ascending order. */
  method Scan(keys: set<Bytes>) returns (s: seq<Bytes>)
    ensures Sorted(s)
    ensures forall k :: k in s <==> k in keys
    ensures |s| == |keys|
  {
    s := SortedKeys(keys);
  }
}
