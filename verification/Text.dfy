/** Decimal and dotted text inside index keys. */
module Text {
  import opened Bytes
  import opened Names

  const COLON: byte := 58
  const DOT: byte := 46
  const TILDE: byte := 126

  /** Decimal digits without leading zeros. */
  function Decimal(v: nat): (s: Bytes)
    ensures s != []
    ensures forall k | 0 <= k < |s| :: 48 <= s[k] <= 57
  {
    if v < 10 then [48 + v] else Decimal(v / 10) + [48 + v % 10]
  }

  /** The last `w` decimal digits of `v`, zero-padded: what `%010d` prints for w = 10. */
  function PaddedDecimal(w: nat, v: nat): (s: Bytes)
    ensures |s| == w
    ensures forall k | 0 <= k < w :: 48 <= s[k] <= 57
  {
    if w == 0 then [] else PaddedDecimal(w - 1, v / 10) + [48 + v % 10]
  }

  function Pow10(n: nat): nat {
    if n == 0 then 1 else 10 * Pow10(n - 1)
  }

  /** Zero-padding makes text order the numeric order. */
  lemma {:induction false} PaddedOrder(w: nat, a: nat, b: nat)
    requires a < Pow10(w) && b < Pow10(w)
    ensures Less(PaddedDecimal(w, a), PaddedDecimal(w, b)) <==> a < b
    ensures PaddedDecimal(w, a) == PaddedDecimal(w, b) <==> a == b
  {
    if w > 0 {
      var p, q := PaddedDecimal(w - 1, a / 10), PaddedDecimal(w - 1, b / 10);
      PaddedOrder(w - 1, a / 10, b / 10);
      var x: Bytes, y: Bytes := [48 + a % 10], [48 + b % 10];
      if p == q {
        LessAfterPrefix(p, x, y);
        assert Less(x, y) <==> a % 10 < b % 10;
        assert PaddedDecimal(w, a)[w - 1] == x[0] && PaddedDecimal(w, b)[w - 1] == y[0];
      } else {
        LessDecidedByPrefix(p, q, x, y);
        assert PaddedDecimal(w, a)[..w - 1] == p && PaddedDecimal(w, b)[..w - 1] == q;
      }
    }
  }

  lemma TenDigitsHoldU32()
    ensures Pow10(10) > 0xFFFF_FFFF
  {
    assert Pow10(2) == 100;
    assert Pow10(4) == 10000;
    assert Pow10(6) == 1000000;
    assert Pow10(8) == 100000000;
  }

  /** A name in dotted form. */
  function Dotted(name: Name): Bytes {
    if name == [] then [DOT] else DottedLabels(name)
  }

  function DottedLabels(name: Name): Bytes {
    if name == [] then [] else name[0] + [DOT] + DottedLabels(name[1..])
  }

  /** The key of one signature in the expiry index: expiration, owner, covered type and key tag. */
  function ExpiryKey(expiration: u32, owner: Name, covered: nat, keyTag: nat): Bytes {
    PaddedDecimal(10, expiration) + ([COLON] + Dotted(owner) + [COLON] + Decimal(covered) + [COLON] + Decimal(keyTag))
  }

  lemma {:induction false} DecimalInjective(a: nat, b: nat)
    ensures Decimal(a) == Decimal(b) <==> a == b
  {
    if Decimal(a) == Decimal(b) {
      if a >= 10 && b >= 10 {
        var p, q := Decimal(a / 10), Decimal(b / 10);
        assert Decimal(a)[..|Decimal(a)| - 1] == p && Decimal(b)[..|Decimal(b)| - 1] == q;
        assert Decimal(a)[|p|] == 48 + a % 10 && Decimal(b)[|q|] == 48 + b % 10;
        DecimalInjective(a / 10, b / 10);
      } else {
        OneDigit(a);
        OneDigit(b);
      }
    }
  }

  lemma OneDigit(a: nat)
    ensures |Decimal(a)| == 1 <==> a < 10
  {
    if a >= 10 { assert |Decimal(a / 10)| > 0; }
  }

  /** The last colon of a text decides where its last number starts. */
  lemma LastNumber(a: Bytes, d: Bytes, b: Bytes, e: Bytes)
    requires a + ([COLON] + d) == b + ([COLON] + e) && COLON !in d && COLON !in e
    ensures a == b && d == e
  {
    var s := a + ([COLON] + d);
    forall i | |a| < i < |s| ensures s[i] != COLON { assert s[i] == d[i - |a| - 1]; }
    forall i | |b| < i < |s| ensures s[i] != COLON { assert s[i] == e[i - |b| - 1]; }
    assert s[|a|] == COLON && s[|b|] == COLON;
    assert s[..|a|] == a && s[..|b|] == b && s[|a| + 1..] == d && s[|b| + 1..] == e;
  }

  lemma KeyParts(expiration: u32, owner: Name, covered: nat, keyTag: nat)
    ensures ExpiryKey(expiration, owner, covered, keyTag) ==
            PaddedDecimal(10, expiration) + ([COLON] + ((Dotted(owner) + ([COLON] + Decimal(covered))) +
                ([COLON] + Decimal(keyTag))))
  {
  }

  /** The key tells apart signatures that differ in expiration, owner text, covered type or key tag. */
  lemma ExpiryKeyInjective(e: u32, n: Name, c: nat, t: nat, e': u32, n': Name, c': nat, t': nat)
    ensures ExpiryKey(e, n, c, t) == ExpiryKey(e', n', c', t') <==>
            e == e' && Dotted(n) == Dotted(n') && c == c' && t == t'
  {
    hide ExpiryKey, PaddedDecimal, Decimal, Dotted;
    KeyParts(e, n, c, t);
    KeyParts(e', n', c', t');
    if ExpiryKey(e, n, c, t) == ExpiryKey(e', n', c', t') {
      var rest := (Dotted(n) + ([COLON] + Decimal(c))) + ([COLON] + Decimal(t));
      var rest' := (Dotted(n') + ([COLON] + Decimal(c'))) + ([COLON] + Decimal(t'));
      SameRest(PaddedDecimal(10, e), rest, PaddedDecimal(10, e'), rest');
      TenDigitsHoldU32();
      PaddedOrder(10, e, e');
      LastNumber(Dotted(n) + ([COLON] + Decimal(c)), Decimal(t), Dotted(n') + ([COLON] + Decimal(c')), Decimal(t'));
      LastNumber(Dotted(n), Decimal(c), Dotted(n'), Decimal(c'));
      DecimalInjective(t, t');
      DecimalInjective(c, c');
    }
  }

  lemma SameRest(p: Bytes, r: Bytes, q: Bytes, s: Bytes)
    requires |p| == |q| && p + ([COLON] + r) == q + ([COLON] + s)
    ensures p == q && r == s
  {
    var x := p + ([COLON] + r);
    assert x[..|p|] == p && x[..|q|] == q && x[|p| + 1..] == r && x[|q| + 1..] == s;
  }

  /** Labels as they come from a zone: neither empty nor with a dot inside. */
  predicate Plain(name: Name) {
    forall i | 0 <= i < |name| :: name[i] != [] && DOT !in name[i]
  }

  /** The owner text tells plain names apart. */
  lemma {:induction false} DottedInjective(m: Name, n: Name)
    requires Plain(m) && Plain(n)
    ensures Dotted(m) == Dotted(n) <==> m == n
  {
    if Dotted(m) == Dotted(n) && m != [] && n != [] {
      FirstLabel(m[0], DottedLabels(m[1..]), n[0], DottedLabels(n[1..]));
      RestDotted(m[1..]);
      RestDotted(n[1..]);
      DottedInjective(m[1..], n[1..]);
      assert m == [m[0]] + m[1..] && n == [n[0]] + n[1..];
    } else if m != [] {
      assert Dotted(m)[0] == m[0][0];
    } else if n != [] {
      assert Dotted(n)[0] == n[0][0];
    }
  }

  lemma RestDotted(n: Name)
    requires Plain(n)
    ensures DottedLabels(n) == (if n == [] then [] else Dotted(n))
    ensures n != [] ==> Dotted(n) != [] && Dotted(n)[0] != DOT
  {
    if n != [] { assert Dotted(n)[0] == n[0][0] && n[0][0] in n[0]; }
  }

  lemma FirstLabel(a: Bytes, x: Bytes, b: Bytes, y: Bytes)
    requires a + [DOT] + x == b + [DOT] + y && DOT !in a && DOT !in b
    ensures a == b && x == y
  {
    var s := a + [DOT] + x;
    forall i | 0 <= i < |a| ensures s[i] != DOT { assert s[i] == a[i]; }
    forall i | 0 <= i < |b| ensures s[i] != DOT { assert s[i] == b[i]; }
    assert s[|a|] == DOT && s[|b|] == DOT;
    assert s[..|a|] == a && s[..|b|] == b && s[|a| + 1..] == x && s[|b| + 1..] == y;
  }

  /** Text order of expiry keys refines the numeric order of expirations. */
  lemma ExpiryKeyOrder(e: u32, n: Name, c: nat, t: nat, e': u32, n': Name, c': nat, t': nat)
    requires e < e'
    ensures Less(ExpiryKey(e, n, c, t), ExpiryKey(e', n', c', t'))
  {
    TenDigitsHoldU32();
    PaddedOrder(10, e, e');
    LessDecidedByPrefix(PaddedDecimal(10, e), PaddedDecimal(10, e'),
                        [COLON] + Dotted(n) + [COLON] + Decimal(c) + [COLON] + Decimal(t),
                        [COLON] + Dotted(n') + [COLON] + Decimal(c') + [COLON] + Decimal(t'));
  }

  /** The scan bound of `ExpiringBefore`: the cut-off followed by a character above every separator. */
  function CutoffKey(cutoff: u32): Bytes {
    PaddedDecimal(10, cutoff) + [TILDE]
  }

  /** A key is past the bound exactly when its expiration is past the cut-off. */
  lemma CutoffKeyOrder(cutoff: u32, e: u32, n: Name, c: nat, t: nat)
    ensures Less(CutoffKey(cutoff), ExpiryKey(e, n, c, t)) <==> e > cutoff
  {
    TenDigitsHoldU32();
    PaddedOrder(10, cutoff, e);
    var rest: Bytes := [COLON] + Dotted(n) + [COLON] + Decimal(c) + [COLON] + Decimal(t);
    assert rest[0] == COLON;
    if cutoff == e {
      LessAfterPrefix(PaddedDecimal(10, e), [TILDE], rest);
    } else {
      LessDecidedByPrefix(PaddedDecimal(10, cutoff), PaddedDecimal(10, e), [TILDE], rest);
    }
  }
}
