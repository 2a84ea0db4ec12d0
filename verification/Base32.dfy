/** The base32hex codec of NSEC3 owner labels (section 7 of RFC 4648), as the store implements it with a 64-bit shift
    register. */
module Base32 {
  import opened Bytes
  import Arith
  import Seqs

  // ---------------------------------------------------------------------------
  // Bit strings: the meaning both directions of the codec are measured against.
  // ---------------------------------------------------------------------------

  function Pow2(n: nat): (p: nat)
    ensures p > 0
  {
    if n == 0 then 1 else 2 * Pow2(n - 1)
  }

  /** The `w` low bits of `v`, most significant first. */
  function Digits(w: nat, v: nat): (bits: Bytes)
    ensures |bits| == w
    ensures forall k | 0 <= k < w :: bits[k] < 2
  {
    if w == 0 then [] else Digits(w - 1, v / 2) + [v % 2]
  }

  /** The number a bit string denotes. */
  function Val(bits: Bytes): nat {
    if bits == [] then 0 else 2 * Val(bits[..|bits| - 1]) + bits[|bits| - 1]
  }

  predicate AreBits(bits: Bytes) {
    forall k | 0 <= k < |bits| :: bits[k] < 2
  }

  predicate Fit(w: nat, vals: Bytes) {
    forall k | 0 <= k < |vals| :: vals[k] < Pow2(w)
  }

  /** All values of `vals` written one after the other with `w` bits each. */
  function Expand(w: nat, vals: Bytes): (bits: Bytes)
    ensures AreBits(bits)
  {
    if vals == [] then [] else Digits(w, vals[0]) + Expand(w, vals[1..])
  }

  /** The values of the complete `w`-bit groups of `bits`. */
  function Chunk(w: nat, bits: Bytes): (vals: Bytes)
    requires 0 < w <= 8 && AreBits(bits)
    ensures Fit(w, vals)
    decreases |bits|
  {
    if |bits| < w then []
    else
      ValBound(bits[..w]);
      Pow2AtMost256(w);
      [Val(bits[..w])] + Chunk(w, bits[w..])
  }

  /** The bits after the last complete group. */
  function Rest(w: nat, bits: Bytes): (rest: Bytes)
    requires 0 < w
    ensures |rest| < w
    decreases |bits|
  {
    if |bits| < w then bits else Rest(w, bits[w..])
  }

  lemma {:induction false} RestLength8(bits: Bytes)
    ensures |Rest(8, bits)| == |bits| % 8
    decreases |bits|
  {
    if |bits| >= 8 { RestLength8(bits[8..]); }
  }

  lemma {:induction false} RestLength5(bits: Bytes)
    ensures |Rest(5, bits)| == |bits| % 5
    decreases |bits|
  {
    if |bits| >= 5 { RestLength5(bits[5..]); }
  }

  lemma {:induction false} ExpandLength(vals: Bytes)
    ensures |Expand(5, vals)| == 5 * |vals|
    ensures |Expand(8, vals)| == 8 * |vals|
  {
    if vals != [] { ExpandLength(vals[1..]); }
  }

  lemma {:induction false} ExpandsAlike(w: nat, a: Bytes, b: Bytes)
    requires |a| == |b|
    ensures |Expand(w, a)| == |Expand(w, b)|
  {
    if a != [] { ExpandsAlike(w, a[1..], b[1..]); }
  }

  lemma Pow2AtMost256(w: nat)
    requires w <= 8
    ensures Pow2(w) <= 256
  {
    assert Pow2(8) == 256 by { assert Pow2(4) == 16; assert Pow2(6) == 64; }
    Pow2Monotone(w, 8);
  }

  lemma {:induction false} Pow2Monotone(a: nat, b: nat)
    requires a <= b
    ensures Pow2(a) <= Pow2(b)
  {
    if a < b { Pow2Monotone(a, b - 1); }
  }

  lemma {:induction false} ValBound(bits: Bytes)
    requires AreBits(bits)
    ensures Val(bits) < Pow2(|bits|)
  {
    if bits != [] { ValBound(bits[..|bits| - 1]); }
  }

  lemma {:induction false} ValOfDigits(w: nat, v: nat)
    requires v < Pow2(w)
    ensures Val(Digits(w, v)) == v
  {
    if w > 0 {
      ValOfDigits(w - 1, v / 2);
      assert Digits(w, v)[..w - 1] == Digits(w - 1, v / 2);
    }
  }

  lemma {:induction false} DigitsOfVal(bits: Bytes)
    requires AreBits(bits)
    ensures Digits(|bits|, Val(bits)) == bits
  {
    if bits != [] {
      var init := bits[..|bits| - 1];
      DigitsOfVal(init);
      assert Val(bits) / 2 == Val(init) && Val(bits) % 2 == bits[|bits| - 1];
      assert bits == init + [bits[|bits| - 1]];
    }
  }

  lemma {:induction false} ValConcat(a: Bytes, b: Bytes)
    ensures Val(a + b) == Val(a) * Pow2(|b|) + Val(b)
  {
    if b == [] {
      assert a + b == a;
    } else {
      var init := b[..|b| - 1];
      ValConcat(a, init);
      assert (a + b)[..|a + b| - 1] == a + init;
      assert Pow2(|b|) == 2 * Pow2(|init|);
      assert Val(a) * Pow2(|b|) == 2 * (Val(a) * Pow2(|init|));
    }
  }

  lemma {:induction false} ExpandConcat(w: nat, a: Bytes, b: Bytes)
    ensures Expand(w, a + b) == Expand(w, a) + Expand(w, b)
  {
    if a == [] {
      assert a + b == b;
    } else {
      assert (a + b)[1..] == a[1..] + b;
      ExpandConcat(w, a[1..], b);
    }
  }

  /** Splitting an expansion gives the values back; an incomplete last group is dropped. */
  lemma {:induction false} ChunkOfExpand(w: nat, vals: Bytes, tail: Bytes)
    requires 0 < w <= 8 && Fit(w, vals) && AreBits(tail) && |tail| < w
    ensures Chunk(w, Expand(w, vals) + tail) == vals
  {
    var bits := Expand(w, vals) + tail;
    if vals != [] {
      assert bits[..w] == Digits(w, vals[0]);
      assert bits[w..] == Expand(w, vals[1..]) + tail;
      ValOfDigits(w, vals[0]);
      ChunkOfExpand(w, vals[1..], tail);
    }
  }

  /** Expanding the groups gives back all bits up to the incomplete last group. */
  lemma {:induction false} ExpandOfChunk(w: nat, bits: Bytes)
    requires 0 < w <= 8 && AreBits(bits)
    ensures Expand(w, Chunk(w, bits)) + Rest(w, bits) == bits
    decreases |bits|
  {
    if |bits| >= w {
      var head, tail := bits[..w], bits[w..];
      ExpandOfChunk(w, tail);
      ChunkCons(w, head, tail);
      Seqs.Assoc(head, Expand(w, Chunk(w, tail)), Rest(w, tail));
      assert head + tail == bits;
    }
  }

  lemma ChunkCons(w: nat, head: Bytes, tail: Bytes)
    requires 0 < w <= 8 && |head| == w && AreBits(head) && AreBits(tail)
    ensures AreBits(head + tail)
    ensures Expand(w, Chunk(w, head + tail)) == head + Expand(w, Chunk(w, tail))
  {
    assert (head + tail)[..w] == head && (head + tail)[w..] == tail;
    DigitsOfVal(head);
    assert Chunk(w, head + tail)[1..] == Chunk(w, tail);
  }

  // ---------------------------------------------------------------------------
  // Order
  // ---------------------------------------------------------------------------

  lemma ValOfCons(bit: byte, rest: Bytes)
    requires bit < 2
    ensures Val([bit] + rest) == (if bit == 0 then 0 else Pow2(|rest|)) + Val(rest)
  {
    ValConcat([bit], rest);
    assert [bit][..0] == [];
    assert Val([bit]) == bit;
    Arith.MulBit(Val([bit]), Pow2(|rest|));
  }

  lemma {:induction false} ValOrder(p: Bytes, q: Bytes)
    requires AreBits(p) && AreBits(q) && |p| == |q|
    ensures Less(p, q) <==> Val(p) < Val(q)
    ensures Val(p) == Val(q) ==> p == q
  {
    if p != [] {
      var p', q' := p[1..], q[1..];
      assert p == [p[0]] + p' && q == [q[0]] + q';
      assert p[0] < 2 && q[0] < 2;
      ValOfCons(p[0], p');
      ValOfCons(q[0], q');
      assert AreBits(p') by { forall k | 0 <= k < |p'| ensures p'[k] < 2 { assert p'[k] == p[k + 1]; } }
      assert AreBits(q') by { forall k | 0 <= k < |q'| ensures q'[k] < 2 { assert q'[k] == q[k + 1]; } }
      ValBound(p');
      ValBound(q');
      ValOrder(p', q');
    }
  }

  /** Writing values with a fixed number of bits keeps the lexicographic order. */
  lemma {:induction false} ExpandOrder(w: nat, a: Bytes, b: Bytes)
    requires |a| == |b| && Fit(w, a) && Fit(w, b)
    ensures Less(Expand(w, a), Expand(w, b)) <==> Less(a, b)
  {
    if a != [] {
      var p, q := Digits(w, a[0]), Digits(w, b[0]);
      ValOfDigits(w, a[0]);
      ValOfDigits(w, b[0]);
      ValOrder(p, q);
      ExpandOrder(w, a[1..], b[1..]);
      ExpandsAlike(w, a[1..], b[1..]);
      if a[0] == b[0] {
        LessAfterPrefix(p, Expand(w, a[1..]), Expand(w, b[1..]));
      } else {
        LessDecidedByPrefix(p, q, Expand(w, a[1..]), Expand(w, b[1..]));
      }
    }
  }

  // ---------------------------------------------------------------------------
  // Characters
  // ---------------------------------------------------------------------------

  function LowerChar(v: nat): byte
    requires v < 32
  {
    if v < 10 then 48 + v else 97 + v - 10
  }

  /** The value of a base32hex digit in either case. */
  function CharVal(c: byte): (r: Option<byte>)
    ensures r.Some? ==> r.value < 32
  {
    if 48 <= c <= 57 then Some(c - 48)
    else if 65 <= c <= 86 then Some(c - 65 + 10)
    else if 97 <= c <= 118 then Some(c - 97 + 10)
    else None
  }

  const PAD: byte := 61

  function ToUpperChar(c: byte): byte { if 97 <= c <= 122 then c - 32 else c }
  function ToLowerChar(c: byte): byte { if 65 <= c <= 90 then c + 32 else c }
  function ToUpper(s: Bytes): Bytes { seq(|s|, i requires 0 <= i < |s| => ToUpperChar(s[i])) }
  function ToLower(s: Bytes): Bytes { seq(|s|, i requires 0 <= i < |s| => ToLowerChar(s[i])) }

  predicate ValidLabel(s: Bytes) {
    forall k | 0 <= k < |s| :: CharVal(s[k]).Some?
  }

  function Vals(s: Bytes): (vals: Bytes)
    requires ValidLabel(s)
    ensures |vals| == |s|
    ensures forall k | 0 <= k < |s| :: vals[k] == CharVal(s[k]).value
  {
    seq(|s|, i requires 0 <= i < |s| => CharVal(s[i]).value)
  }

  function Chars(vals: Bytes): (s: Bytes)
    requires forall k | 0 <= k < |vals| :: vals[k] < 32
    ensures |s| == |vals|
    ensures forall k | 0 <= k < |s| :: s[k] == LowerChar(vals[k])
  {
    seq(|vals|, i requires 0 <= i < |vals| => LowerChar(vals[i]))
  }

  // ---------------------------------------------------------------------------
  // What the codec means
  // ---------------------------------------------------------------------------

  function Zeros(n: nat): (z: Bytes)
    ensures |z| == n && forall k | 0 <= k < n :: z[k] == 0
  {
    seq(n, _ => 0)
  }

  /** Number of zero bits that complete the last 5-bit group. */
  function PadLen(n: nat): (p: nat)
    ensures p < 5 && (n + p) % 5 == 0
  {
    if n % 5 == 0 then 0 else 5 - n % 5
  }

  function Padded(bits: Bytes): (padded: Bytes)
    requires AreBits(bits)
    ensures AreBits(padded)
  {
    bits + Zeros(PadLen(|bits|))
  }

  function GroupsOf5(bits: Bytes): (vals: Bytes)
    requires AreBits(bits)
    ensures forall k | 0 <= k < |vals| :: vals[k] < 32
  {
    FivePow2();
    Chunk(5, Padded(bits))
  }

  /** The digits that spell a bit string. */
  function Text(bits: Bytes): Bytes
    requires AreBits(bits)
  {
    Chars(GroupsOf5(bits))
  }

  function Encoded(b: Bytes): Bytes {
    Text(Expand(8, b))
  }

  function Decoded(s: Bytes): Bytes
    requires ValidLabel(s)
  {
    Chunk(8, Expand(5, Vals(s)))
  }

  /** The part of a label before its first padding character. */
  function Unpadded(s: Bytes): (t: Bytes)
    ensures t <= s && PAD !in t
    ensures |t| < |s| ==> s[|t|] == PAD
  {
    if s == [] || s[0] == PAD then [] else [s[0]] + Unpadded(s[1..])
  }

  function DecodeResult(s: Bytes): Option<Bytes> {
    if s == [] || !ValidLabel(Unpadded(s)) then None else Some(Decoded(Unpadded(s)))
  }

  function TrimPadding(s: Bytes): Bytes {
    if s != [] && s[|s| - 1] == PAD then TrimPadding(s[..|s| - 1]) else s
  }

  /** Decodes an NSEC3 hash label, padded or not, in either case. */
  function HashFromBase32(s: Bytes): Option<Bytes> {
    DecodeResult(ToUpper(TrimPadding(s)))
  }

  // ---------------------------------------------------------------------------
  // The shift register: dropping the high bits of a 64-bit word is harmless
  // ---------------------------------------------------------------------------

  const WORD: nat := 0x1_0000_0000_0000_0000

  function ShiftRight(x: nat, n: nat): nat {
    if n == 0 then x else ShiftRight(x / 2, n - 1)
  }

  /** The register's low bits are exactly the bits not yet written out; what is above them is left over. */
  ghost predicate Register(buf: nat, pending: Bytes) {
    Digits(|pending|, buf) == pending
  }

  lemma EightPow2()
    ensures Pow2(8) == 256
  {
    assert Pow2(6) == 64;
  }

  lemma FivePow2()
    ensures Pow2(5) == 32
  {
  }

  lemma WordIsPow2()
    ensures Pow2(64) == WORD
  {
    hide Pow2;
    EightPow2();
    DoublePow2(8);
    DoublePow2(16);
    DoublePow2(32);
  }

  lemma DoublePow2(n: nat)
    ensures Pow2(n + n) == Pow2(n) * Pow2(n)
  {
    Pow2Add(n, n);
  }

  lemma {:induction false} Pow2Add(a: nat, b: nat)
    ensures Pow2(a + b) == Pow2(a) * Pow2(b)
  {
    if b > 0 {
      Pow2Add(a, b - 1);
      assert Pow2(a) * Pow2(b) == 2 * (Pow2(a) * Pow2(b - 1));
    }
  }

  lemma HalfOfMod(x: nat, k: nat)
    requires k > 0
    ensures (x % (2 * k)) / 2 == (x / 2) % k
    ensures (x % (2 * k)) % 2 == x % 2
  {
    var q, r := x / (2 * k), x % (2 * k);
    Arith.DivMod(x, 2 * k);
    assert q * (2 * k) == 2 * (q * k);
    Arith.DivModUnique(x / 2, k, q, r / 2);
  }

  /** Losing the bits above position `m` does not change the bits below it. */
  lemma {:induction false} LowBitsSurvive(n: nat, m: nat, x: nat)
    requires n <= m
    ensures Digits(n, x % Pow2(m)) == Digits(n, x)
  {
    if n > 0 {
      HalfOfMod(x, Pow2(m - 1));
      LowBitsSurvive(n - 1, m - 1, x / 2);
    }
  }

  lemma {:induction false} DigitsAppend(n: nat, w: nat, x: nat, v: nat)
    requires v < Pow2(w)
    ensures Digits(n + w, x * Pow2(w) + v) == Digits(n, x) + Digits(w, v)
  {
    if w == 0 {
      assert Digits(n, x) + [] == Digits(n, x);
    } else {
      var y := x * Pow2(w) + v;
      assert x * Pow2(w) == 2 * (x * Pow2(w - 1));
      assert y / 2 == x * Pow2(w - 1) + v / 2 && y % 2 == v % 2;
      DigitsAppend(n, w - 1, x, v / 2);
      Seqs.Assoc(Digits(n, x), Digits(w - 1, v / 2), [v % 2]);
    }
  }

  /** Pushing `w` bits into a register that already lost its high bits. */
  lemma ShiftIn(buf: nat, pending: Bytes, w: nat, v: nat)
    requires |pending| + w <= 64 && v < Pow2(w) && Register(buf, pending)
    ensures Register((buf * Pow2(w) + v) % WORD, pending + Digits(w, v))
  {
    WordIsPow2();
    LowBitsSurvive(|pending| + w, 64, buf * Pow2(w) + v);
    DigitsAppend(|pending|, w, buf, v);
  }

  lemma {:induction false} DigitsSplit(n: nat, w: nat, x: nat)
    ensures Digits(n + w, x) == Digits(w, ShiftRight(x, n)) + Digits(n, x)
  {
    if n == 0 {
      assert Digits(w, x) + [] == Digits(w, x);
    } else {
      DigitsSplit(n - 1, w, x / 2);
      Seqs.Assoc(Digits(w, ShiftRight(x, n)), Digits(n - 1, x / 2), [x % 2]);
    }
  }

  /** The oldest `w` pending bits, and what stays pending. */
  lemma ShiftOut(buf: nat, pending: Bytes, w: nat)
    requires w <= |pending| && Register(buf, pending)
    ensures Digits(w, ShiftRight(buf, |pending| - w)) == pending[..w]
    ensures Register(buf, pending[w..])
  {
    DigitsSplit(|pending| - w, w, buf);
  }

  lemma {:induction false} ValOfLow(w: nat, x: nat)
    ensures Val(Digits(w, x)) == x % Pow2(w)
  {
    if w > 0 {
      ValOfLow(w - 1, x / 2);
      HalfOfMod(x, Pow2(w - 1));
      assert Digits(w, x)[..w - 1] == Digits(w - 1, x / 2);
    }
  }

  lemma ShiftPad(buf: nat, pending: Bytes)
    requires 0 < |pending| < 5 && Register(buf, pending)
    ensures ((buf * Pow2(5 - |pending|)) % WORD) % 32 == Val(pending + Zeros(5 - |pending|))
  {
    var n := 5 - |pending|;
    ShiftIn(buf, pending, n, 0);
    ZerosAreDigits(n);
    var x := (buf * Pow2(n)) % WORD;
    assert Digits(5, x) == pending + Zeros(n);
    ValOfLow(5, x);
    FivePow2();
  }

  lemma {:induction false} ZerosAreDigits(n: nat)
    ensures Digits(n, 0) == Zeros(n)
  {
    if n > 0 { ZerosAreDigits(n - 1); }
  }

  // ---------------------------------------------------------------------------
  // The codec
  // ---------------------------------------------------------------------------

  method Base32Hex(b: Bytes) returns (out: Bytes)
    ensures out == Encoded(b)
  {
    out := [];
    if |b| == 0 { return; }
    var buf: nat, bits: nat := 0, 0;
    var i := 0;
    ghost var pending: Bytes := [];
    assert b[0..] == b && pending + Expand(8, b) == Expand(8, b);
    while i < |b|
      invariant 0 <= i <= |b|
      invariant Register(buf, pending) && |pending| == bits < 5
      invariant Encoded(b) == out + Text(pending + Expand(8, b[i..]))
    {
      ghost var rest := Expand(8, b[i + 1..]);
      PushByte(b, i, buf, pending);
      buf := (buf * 256 + b[i]) % WORD;
      bits := bits + 8;
      pending := pending + Digits(8, b[i]);
      while bits >= 5
        invariant Register(buf, pending) && |pending| == bits
        invariant Encoded(b) == out + Text(pending + rest)
      {
        EmitGroup(buf, out, pending, rest);
        bits := bits - 5;
        out := out + [LowerChar(ShiftRight(buf, bits) % 32)];
        pending := pending[5..];
      }
      i := i + 1;
    }
    assert b[|b|..] == [] && pending + Expand(8, []) == pending;
    LastGroup(buf, bits, pending);
    if bits > 0 {
      out := out + [LowerChar(((buf * Pow2(5 - bits)) % WORD) % 32)];
    }
  }

  lemma PushByte(b: Bytes, i: nat, buf: nat, pending: Bytes)
    requires i < |b| && Register(buf, pending) && |pending| < 5
    ensures Register((buf * 256 + b[i]) % WORD, pending + Digits(8, b[i]))
    ensures AreBits(pending)
    ensures pending + Expand(8, b[i..]) == (pending + Digits(8, b[i])) + Expand(8, b[i + 1..])
  {
    EightPow2();
    ShiftIn(buf, pending, 8, b[i]);
    assert b[i..][0] == b[i] && b[i..][1..] == b[i + 1..];
    Seqs.Assoc(pending, Digits(8, b[i]), Expand(8, b[i + 1..]));
  }

  lemma EmitGroup(buf: nat, out: Bytes, pending: Bytes, rest: Bytes)
    requires Register(buf, pending) && AreBits(rest) && |pending| >= 5
    ensures Register(buf, pending[5..])
    ensures AreBits(pending + rest) && AreBits(pending[5..] + rest)
    ensures out + Text(pending + rest)
         == (out + [LowerChar(ShiftRight(buf, |pending| - 5) % 32)]) + Text(pending[5..] + rest)
  {
    ShiftOut(buf, pending, 5);
    FivePow2();
    ValOfLow(5, ShiftRight(buf, |pending| - 5));
    TakeGroup(pending, rest);
    Seqs.Assoc(out, [LowerChar(Val(pending[..5]))], Text(pending[5..] + rest));
  }

  lemma LastGroup(buf: nat, bits: nat, pending: Bytes)
    requires Register(buf, pending) && |pending| == bits < 5
    ensures bits == 0 ==> Text(pending) == []
    ensures bits != 0 ==> Text(pending) == [LowerChar(((buf * Pow2(5 - bits)) % WORD) % 32)]
  {
    if pending != [] {
      ShiftPad(buf, pending);
      PaddedGroup(pending);
    }
  }

  lemma PaddedGroup(pending: Bytes)
    requires AreBits(pending) && 0 < |pending| < 5
    ensures Val(pending + Zeros(5 - |pending|)) < 32
    ensures Text(pending) == [LowerChar(Val(pending + Zeros(5 - |pending|)))]
  {
    var last := pending + Zeros(5 - |pending|);
    ValBound(last);
    FivePow2();
    PaddedIs(pending);
    OneGroup(last);
  }

  lemma PaddedIs(pending: Bytes)
    requires AreBits(pending) && 0 < |pending| < 5
    ensures Padded(pending) == pending + Zeros(5 - |pending|)
  {
  }

  lemma OneGroup(bits: Bytes)
    requires AreBits(bits) && |bits| == 5
    ensures Chunk(5, bits) == [Val(bits)]
  {
    assert bits[..5] == bits && bits[5..] == [];
    assert Chunk(5, bits[5..]) == [];
  }

  lemma TakeGroup(pending: Bytes, rest: Bytes)
    requires AreBits(pending) && AreBits(rest) && |pending| >= 5
    ensures AreBits(pending + rest) && AreBits(pending[5..] + rest) && AreBits(pending[..5])
    ensures Val(pending[..5]) < 32
    ensures Text(pending + rest) == [LowerChar(Val(pending[..5]))] + Text(pending[5..] + rest)
  {
    var bits := pending + rest;
    var z := Zeros(PadLen(|bits|));
    assert (bits + z)[..5] == pending[..5];
    assert (bits + z)[5..] == (pending[5..] + rest) + z;
    assert PadLen(|bits|) == PadLen(|bits| - 5);
    ValBound(pending[..5]);
    FivePow2();
    assert GroupsOf5(bits) == [Val(pending[..5])] + GroupsOf5(pending[5..] + rest);
  }

  method DecodeBase32Hex(s: Bytes) returns (r: Option<Bytes>)
    ensures r == DecodeResult(s)
  {
    hide Decoding, DecodeResult, ValidLabel, CharVal, ShiftRight, Digits;
    if |s| == 0 { EmptyLabel(); return None; }
    var buf: nat, bits: nat := 0, 0;
    var out: Bytes := [];
    ghost var body := Unpadded(s);
    ghost var pending: Bytes := [];
    NothingDecoded(body);
    var i := 0;
    while i < |s| && s[i] != PAD
      invariant 0 <= i <= |body|
      invariant |pending| == bits < 8
      invariant Decoding(body, i, out, buf, pending)
    {
      UnpaddedContains(s, i);
      var idx := CharVal(s[i]);
      if idx.None? {
        NotALabel(s, body, i);
        return None;
      }
      PushChar(body, i, out, buf, pending);
      buf := (buf * 32 + idx.value) % WORD;
      bits := bits + 5;
      pending := pending + Digits(5, idx.value);
      if bits >= 8 {
        PopByte(body, i + 1, out, buf, bits, pending);
        bits := bits - 8;
        out := out + [ShiftRight(buf, bits) % 256];
        pending := pending[8..];
      }
      i := i + 1;
    }
    if i < |s| { UnpaddedContains(s, i); }
    DecodedIs(s, body, out, buf, pending);
    return Some(out);
  }

  /** After `i` digits: whole bytes in `out`, the other bits pending in the register. */
  ghost predicate Decoding(s: Bytes, i: nat, out: Bytes, buf: nat, pending: Bytes) {
    && i <= |s| && ValidLabel(s[..i]) && Register(buf, pending)
    && Expand(5, Vals(s[..i])) == Expand(8, out) + pending
  }

  lemma EmptyLabel()
    ensures DecodeResult([]) == None
  {
  }

  lemma NothingDecoded(s: Bytes)
    ensures Decoding(s, 0, [], 0, [])
  {
  }

  lemma DecodedIs(s: Bytes, body: Bytes, out: Bytes, buf: nat, pending: Bytes)
    requires s != [] && body == Unpadded(s) && Decoding(body, |body|, out, buf, pending) && |pending| < 8
    ensures DecodeResult(s) == Some(out)
  {
    assert body[..|body|] == body;
    AnyBytesFit(out);
    ChunkOfExpand(8, out, pending);
  }

  lemma NotALabel(s: Bytes, body: Bytes, i: nat)
    requires body == Unpadded(s) && i < |body| && CharVal(body[i]).None?
    ensures DecodeResult(s) == None
  {
  }

  lemma PushChar(s: Bytes, i: nat, out: Bytes, buf: nat, pending: Bytes)
    requires Decoding(s, i, out, buf, pending) && |pending| < 8
    requires i < |s| && CharVal(s[i]).Some?
    ensures Decoding(s, i + 1, out, (buf * 32 + CharVal(s[i]).value) % WORD,
                     pending + Digits(5, CharVal(s[i]).value))
  {
    var v := CharVal(s[i]).value;
    FivePow2();
    ShiftIn(buf, pending, 5, v);
    ValsSnoc(s, i);
    ExpandConcat(5, Vals(s[..i]), [v]);
    assert Expand(5, [v]) == Digits(5, v) + Expand(5, []);
    assert Digits(5, v) + [] == Digits(5, v);
    Seqs.Assoc(Expand(8, out), pending, Digits(5, v));
  }

  lemma ValsSnoc(s: Bytes, i: nat)
    requires i < |s| && ValidLabel(s[..i]) && CharVal(s[i]).Some?
    ensures ValidLabel(s[..i + 1]) && Vals(s[..i + 1]) == Vals(s[..i]) + [CharVal(s[i]).value]
  {
    var t := s[..i + 1];
    assert t == s[..i] + [s[i]];
    forall k | 0 <= k < |t| ensures CharVal(t[k]).Some? {
      if k < i { assert t[k] == s[..i][k]; }
    }
  }

  lemma PopByte(s: Bytes, i: nat, out: Bytes, buf: nat, bits: nat, pending: Bytes)
    requires Decoding(s, i, out, buf, pending) && |pending| == bits >= 8
    ensures Decoding(s, i, out + [ShiftRight(buf, bits - 8) % 256], buf, pending[8..])
  {
    EightPow2();
    ShiftOut(buf, pending, 8);
    ValOfLow(8, ShiftRight(buf, bits - 8));
    DigitsOfVal(pending[..8]);
    var v := Val(pending[..8]);
    ExpandConcat(8, out, [v]);
    assert Expand(8, [v]) == Digits(8, v) + Expand(8, []);
    assert Digits(8, v) + [] == Digits(8, v) == pending[..8];
    assert pending == pending[..8] + pending[8..];
    Seqs.Assoc(Expand(8, out), pending[..8], pending[8..]);
  }

  lemma AnyBytesFit(b: Bytes)
    ensures Fit(8, b)
  {
    EightPow2();
  }

  lemma UnpaddedContains(s: Bytes, i: nat)
    requires i < |s| && i <= |Unpadded(s)|
    ensures s[i] != PAD <==> i < |Unpadded(s)|
    ensures i < |Unpadded(s)| ==> Unpadded(s)[i] == s[i]
  {
  }

  // ---------------------------------------------------------------------------
  // Round trips
  // ---------------------------------------------------------------------------

  lemma ValsOfChars(vals: Bytes)
    requires forall k | 0 <= k < |vals| :: vals[k] < 32
    ensures ValidLabel(Chars(vals)) && Vals(Chars(vals)) == vals
  {
  }

  lemma CharsOfVals(s: Bytes)
    requires ValidLabel(s)
    ensures Chars(Vals(s)) == ToLower(s)
  {
  }

  lemma ValsFit(s: Bytes)
    requires ValidLabel(s)
    ensures Fit(5, Vals(s))
  {
    FivePow2();
  }

  /** The bits of an encoding are the bits of the input and fewer than five zeros. */
  lemma EncodedBits(b: Bytes)
    ensures ValidLabel(Encoded(b))
    ensures Expand(5, Vals(Encoded(b))) == Expand(8, b) + Zeros(PadLen(8 * |b|))
  {
    ExpandLength(b);
    var padded := Expand(8, b) + Zeros(PadLen(|Expand(8, b)|));
    ValsOfChars(GroupsOf5(Expand(8, b)));
    ExpandOfChunk(5, padded);
    PaddedIsWhole(Expand(8, b));
    assert Expand(5, Chunk(5, padded)) + [] == Expand(5, Chunk(5, padded));
  }

  lemma PaddedIsWhole(bits: Bytes)
    ensures Rest(5, bits + Zeros(PadLen(|bits|))) == []
  {
    var padded := bits + Zeros(PadLen(|bits|));
    assert |padded| % 5 == 0 by { assert |padded| == |bits| + PadLen(|bits|); }
    RestLength5(padded);
    assert |Rest(5, padded)| == 0;
  }

  /** Decoding an encoding gives the bytes back, also where the 64-bit register overflowed. */
  lemma DecodeOfEncode(b: Bytes)
    requires b != []
    ensures HashFromBase32(Encoded(b)) == Some(b)
  {
    EncodedBits(b);
    AnyBytesFit(b);
    ChunkOfExpand(8, b, Zeros(PadLen(8 * |b|)));
    EncodedLength(b);
    DecodeIgnoresCase(Encoded(b));
  }

  lemma EncodedLength(b: Bytes)
    ensures |Encoded(b)| == (8 * |b| + 4) / 5
  {
    EncodedBits(b);
    ExpandLength(b);
    ExpandLength(Vals(Encoded(b)));
  }

  /** Trimming, upper-casing and padding do not matter on a label of base32hex digits. */
  lemma DecodeIgnoresCase(s: Bytes)
    requires ValidLabel(s)
    ensures HashFromBase32(s) == (if s == [] then None else Some(Decoded(s)))
    ensures HashFromBase32(ToUpper(s)) == HashFromBase32(s)
  {
    NothingToTrim(s);
    forall k | 0 <= k < |s| ensures CharVal(ToUpper(s)[k]) == CharVal(s[k]) {
      assert ToUpper(s)[k] == ToUpperChar(s[k]);
    }
    NothingToTrim(ToUpper(s));
    assert ToUpper(ToUpper(s)) == ToUpper(s);
    assert Vals(ToUpper(s)) == Vals(s);
  }

  lemma NothingToTrim(s: Bytes)
    requires ValidLabel(s)
    ensures TrimPadding(s) == s && Unpadded(s) == s
  {
    UnpaddedOfValid(s);
    if s != [] { assert CharVal(s[|s| - 1]).Some?; }
  }

  lemma {:induction false} UnpaddedOfValid(s: Bytes)
    requires ValidLabel(s)
    ensures Unpadded(s) == s
  {
    if s != [] {
      assert forall k | 0 <= k < |s[1..]| :: s[1..][k] == s[k + 1];
      UnpaddedOfValid(s[1..]);
      assert CharVal(s[0]).Some?;
    }
  }

  /** The bits decoding throws away because they do not fill a byte. */
  function Leftover(s: Bytes): Bytes
    requires ValidLabel(s)
  {
    Rest(8, Expand(5, Vals(s)))
  }

  /** Re-encoding a decoded label gives its lower-case form exactly when the bits thrown away are fewer than five
      zeros; a label whose length is a multiple of eight throws none away. */
  lemma EncodeOfDecode(s: Bytes)
    requires ValidLabel(s)
    ensures Encoded(Decoded(s)) == ToLower(s) <==> Leftover(s) == Zeros(|Leftover(s)|) && |Leftover(s)| < 5
    ensures |s| % 8 == 0 ==> Leftover(s) == []
  {
    var bits := Expand(5, Vals(s));
    var again := Encoded(Decoded(s));
    var kept := Expand(8, Decoded(s));
    ExpandOfChunk(8, bits);
    RestLength8(bits);
    ExpandLength(Vals(s));
    ExpandLength(Decoded(s));
    EncodedBits(Decoded(s));
    var pad := Zeros(PadLen(|kept|));
    assert bits == kept + Leftover(s) && Expand(5, Vals(again)) == kept + pad;
    ValsFit(s);
    ValsFit(again);
    CharsOfVals(s);
    CharsOfVals(again);
    EncodedIsLower(Decoded(s));
    if |s| % 8 == 0 {
      Arith.DivModUnique(5 * |s|, 8, 5 * (|s| / 8), 0);
    }
    if |Leftover(s)| < 5 && Leftover(s) == Zeros(|Leftover(s)|) {
      assert |kept| + |Leftover(s)| == 5 * |s|;
      PadIs(|kept|, |Leftover(s)|, |s|);
      assert Leftover(s) == pad;
      SameExpansion(Vals(again), Vals(s));
    }
    if again == ToLower(s) {
      ValsOfLower(s);
      assert pad == (kept + pad)[|kept|..] == (kept + Leftover(s))[|kept|..] == Leftover(s);
    }
  }

  lemma PadIs(n: nat, pad: nat, groups: nat)
    requires pad < 5 && n + pad == 5 * groups
    ensures PadLen(n) == pad
  {
  }

  lemma ValsOfLower(s: Bytes)
    requires ValidLabel(s)
    ensures ValidLabel(ToLower(s)) && Vals(ToLower(s)) == Vals(s)
  {
    assert forall k | 0 <= k < |s| :: CharVal(ToLower(s)[k]) == CharVal(s[k]);
  }

  lemma EncodedIsLower(b: Bytes)
    ensures ToLower(Encoded(b)) == Encoded(b)
  {
  }

  lemma SameExpansion(a: Bytes, b: Bytes)
    requires Fit(5, a) && Fit(5, b) && Expand(5, a) == Expand(5, b)
    ensures a == b
  {
    ChunkOfExpand(5, a, []);
    ChunkOfExpand(5, b, []);
    assert Expand(5, a) + [] == Expand(5, a);
    assert Expand(5, b) + [] == Expand(5, b);
  }

  // ---------------------------------------------------------------------------
  // Text order against byte order
  // ---------------------------------------------------------------------------

  predicate LowerLabel(s: Bytes) {
    ValidLabel(s) && ToLower(s) == s
  }

  /** On lower-case labels, comparing characters is comparing digit values. */
  lemma {:induction false} TextOrder(a: Bytes, b: Bytes)
    requires LowerLabel(a) && LowerLabel(b)
    ensures Less(a, b) <==> Less(Vals(a), Vals(b))
  {
    if a != [] && b != [] {
      assert ToLower(a)[0] == a[0] && ToLower(b)[0] == b[0];
      LowerTail(a);
      LowerTail(b);
      TextOrder(a[1..], b[1..]);
    }
  }

  lemma LowerTail(a: Bytes)
    requires LowerLabel(a) && a != []
    ensures LowerLabel(a[1..]) && Vals(a)[1..] == Vals(a[1..])
  {
    assert forall k | 0 <= k < |a[1..]| :: a[1..][k] == a[k + 1];
    forall k | 0 <= k < |a[1..]| ensures ToLower(a[1..])[k] == a[1..][k] {
      assert ToLower(a)[k + 1] == a[k + 1];
    }
  }

  /** Sorting equally long labels as text and sorting the hashes they encode is the same. */
  lemma EncodedOrder(x: Bytes, y: Bytes)
    requires |x| == |y|
    ensures Less(Encoded(x), Encoded(y)) <==> Less(x, y)
  {
    var a, b := Encoded(x), Encoded(y);
    EncodedBits(x);
    EncodedBits(y);
    EncodedIsLower(x);
    EncodedIsLower(y);
    TextOrder(a, b);
    EncodedLength(x);
    EncodedLength(y);
    ValsFit(a);
    ValsFit(b);
    ExpandOrder(5, Vals(a), Vals(b));
    ExpandsAlike(8, x, y);
    AnyBytesFit(x);
    AnyBytesFit(y);
    ExpandOrder(8, x, y);
    var z := Zeros(PadLen(8 * |x|));
    if Expand(8, x) == Expand(8, y) {
      LessIrreflexive(Expand(8, x));
      LessAfterPrefix(Expand(8, x), z, z);
      LessIrreflexive(z);
    } else {
      LessDecidedByPrefix(Expand(8, x), Expand(8, y), z, z);
    }
  }

  ghost predicate OrderAgrees(a: Bytes, b: Bytes)
    requires ValidLabel(a) && ValidLabel(b)
  {
    Less(a, b) <==> Less(Decoded(a), Decoded(b))
  }

  /** For labels of length n, text order is decoded byte order exactly when n is a multiple of eight. */
  lemma LabelOrderIsHashOrder(n: nat)
    ensures (forall a, b | LowerLabel(a) && LowerLabel(b) && |a| == |b| == n :: OrderAgrees(a, b)) <==> n % 8 == 0
  {
    if n % 8 == 0 {
      forall a, b | LowerLabel(a) && LowerLabel(b) && |a| == |b| == n ensures OrderAgrees(a, b) {
        WholeBytesOrder(a, b);
      }
    } else {
      var a, b := seq(n, _ => 48), seq(n - 1, _ => 48) + [49];
      LastDigitIsLost(n);
      assert ToLower(a) == a && ToLower(b) == b;
      assert a == a[..n - 1] + [48] && b == a[..n - 1] + [49];
      LessAfterPrefix(a[..n - 1], [48], [49]);
      LessIrreflexive(Decoded(a));
      assert !OrderAgrees(a, b);
    }
  }

  lemma WholeBytesOrder(a: Bytes, b: Bytes)
    requires LowerLabel(a) && LowerLabel(b) && |a| == |b| && |a| % 8 == 0
    ensures Less(a, b) <==> Less(Decoded(a), Decoded(b))
  {
    EncodeOfDecode(a);
    EncodeOfDecode(b);
    DecodedLength(a);
    DecodedLength(b);
    EncodedOrder(Decoded(a), Decoded(b));
  }

  lemma DecodedLength(s: Bytes)
    requires ValidLabel(s)
    ensures |Decoded(s)| == 5 * |s| / 8
  {
    var bits := Expand(5, Vals(s));
    ExpandLength(Vals(s));
    ExpandOfChunk(8, bits);
    ExpandLength(Decoded(s));
  }

  lemma LastDigitIsLost(n: nat)
    requires n % 8 != 0
    ensures var a: Bytes, b: Bytes := seq(n, _ => 48), seq(n - 1, _ => 48) + [49];
            ValidLabel(a) && ValidLabel(b) && Decoded(a) == Decoded(b)
  {
    var a: Bytes, b: Bytes := seq(n, _ => 48), seq(n - 1, _ => 48) + [49];
    var p := Vals(a)[..n - 1];
    assert Vals(a) == p + [0] && Vals(b) == p + [1] by { hide Expand, Digits, Chunk; }
    var head := Expand(5, p) + Digits(4, 0);
    LastDigitBits(p, 0);
    LastDigitBits(p, 1);
    ExpandLength(p);
    assert |head| + 1 == 5 * n;
    FiveTimes(n);
    ChunkIgnoresLastBit(head, 0, 1);
  }

  lemma FiveTimes(n: nat)
    requires n % 8 != 0
    ensures (5 * n) % 8 != 0
  {
  }

  lemma LastDigitBits(p: Bytes, v: byte)
    requires v < 2
    ensures Expand(5, p + [v]) == (Expand(5, p) + Digits(4, 0)) + [v]
  {
    ExpandConcat(5, p, [v]);
    assert Digits(5, v) == Digits(4, 0) + [v];
    assert Expand(5, [v]) == Digits(5, v) + Expand(5, []);
    assert Digits(5, v) + [] == Digits(5, v);
    Seqs.Assoc(Expand(5, p), Digits(4, 0), [v]);
  }

  /** The last bit of a bit string that does not end at a byte boundary is thrown away. */
  lemma {:induction false} ChunkIgnoresLastBit(bits: Bytes, u: byte, v: byte)
    requires AreBits(bits) && u < 2 && v < 2 && (|bits| + 1) % 8 != 0
    ensures Chunk(8, bits + [u]) == Chunk(8, bits + [v])
    decreases |bits|
  {
    if |bits| >= 8 {
      assert (bits + [u])[8..] == bits[8..] + [u] && (bits + [v])[8..] == bits[8..] + [v];
      assert (bits + [u])[..8] == bits[..8] == (bits + [v])[..8];
      ChunkIgnoresLastBit(bits[8..], u, v);
    }
  }
}
