/** Exclusive or on words, defined bit by bit on numbers, and its sum over a buffer. */
module Checksums {
  import opened Packets

  function XorBit(a: nat, b: nat): nat {
    if a % 2 == b % 2 then 0 else 1
  }

  function Pow2(k: nat): nat {
    if k == 0 then 1 else 2 * Pow2(k - 1)
  }

  /** The lowest k bits of a ^ b. */
  function Xor(a: nat, b: nat, k: nat): nat {
    if k == 0 then 0 else 2 * Xor(a / 2, b / 2, k - 1) + XorBit(a, b)
  }

  lemma XorParts(a: nat, b: nat, k: nat)
    requires k > 0
    ensures Xor(a, b, k) / 2 == Xor(a / 2, b / 2, k - 1) && Xor(a, b, k) % 2 == XorBit(a, b)
  {
    HalfOf(Xor(a / 2, b / 2, k - 1), XorBit(a, b));
  }

  lemma HalfOf(h: nat, bit: nat)
    requires bit < 2
    ensures (2 * h + bit) / 2 == h && (2 * h + bit) % 2 == bit
  {
  }

  function Bit(a: nat, i: nat): nat {
    if i == 0 then a % 2 else Bit(a / 2, i - 1)
  }

  /** Xor is the exclusive or of the bits, position by position. */
  lemma {:induction false} XorBits(a: nat, b: nat, k: nat, i: nat)
    requires i < k
    ensures Bit(Xor(a, b, k), i) == if Bit(a, i) == Bit(b, i) then 0 else 1
  {
    hide Xor;
    XorParts(a, b, k);
    if i > 0 {
      XorBits(a / 2, b / 2, k - 1, i - 1);
    }
  }

  lemma {:induction false} XorRange(a: nat, b: nat, k: nat)
    ensures Xor(a, b, k) < Pow2(k)
  {
    if k > 0 {
      XorRange(a / 2, b / 2, k - 1);
    }
  }

  lemma {:induction false} XorComm(a: nat, b: nat, k: nat)
    ensures Xor(a, b, k) == Xor(b, a, k)
  {
    if k > 0 {
      XorComm(a / 2, b / 2, k - 1);
    }
  }

  lemma {:induction false} XorAssoc(a: nat, b: nat, c: nat, k: nat)
    ensures Xor(Xor(a, b, k), c, k) == Xor(a, Xor(b, c, k), k)
  {
    if k > 0 {
      XorAssoc(a / 2, b / 2, c / 2, k - 1);
      XorParts(a, b, k);
      XorParts(b, c, k);
      XorBitAssoc(Xor(a, b, k), Xor(b, c, k), a, b, c);
    }
  }

  lemma XorBitAssoc(x: nat, y: nat, a: nat, b: nat, c: nat)
    requires x % 2 == XorBit(a, b) && y % 2 == XorBit(b, c)
    ensures XorBit(x, c) == XorBit(a, y)
  {
  }

  lemma {:induction false} XorZero(a: nat, k: nat)
    requires a < Pow2(k)
    ensures Xor(a, 0, k) == a == Xor(0, a, k)
  {
    if k > 0 {
      XorZero(a / 2, k - 1);
    }
  }

  lemma {:induction false} XorSelf(a: nat, k: nat)
    ensures Xor(a, a, k) == 0
  {
    if k > 0 {
      XorSelf(a / 2, k - 1);
    }
  }

  // ---- 16 bit words ----

  function Xor16(a: u16, b: u16): u16 {
    XorRange(a, b, 16);
    Pow2Of16();
    Xor(a, b, 16)
  }

  lemma Pow2Of16()
    ensures Pow2(16) == 0x1_0000
  {
    assert Pow2(8) == 256;
  }

  lemma Xor16Laws(a: u16, b: u16, c: u16)
    ensures Xor16(a, b) == Xor16(b, a)
    ensures Xor16(Xor16(a, b), c) == Xor16(a, Xor16(b, c))
    ensures Xor16(a, a) == 0 && Xor16(a, 0) == a == Xor16(0, a)
  {
    Pow2Of16();
    XorComm(a, b, 16);
    XorAssoc(a, b, c, 16);
    XorSelf(a, 16);
    XorZero(a, 16);
  }

  /** Two words differ exactly when their exclusive or is not zero. */
  lemma Xor16Differ(a: u16, b: u16)
    ensures Xor16(a, b) == 0 <==> a == b
  {
    hide Xor16;
    if Xor16(a, b) == 0 {
      Xor16Laws(a, a, b);
      Xor16Laws(b, 0, 0);
    }
    Xor16Laws(a, 0, 0);
  }

  /** A word applied twice cancels. */
  lemma Xor16Cancel(a: u16, b: u16)
    ensures Xor16(Xor16(a, b), b) == a
  {
    hide Xor16;
    Xor16Laws(a, b, b);
    Xor16Laws(b, b, b);
  }

  function XorAll(s: seq<u16>): u16 {
    if s == [] then 0 else Xor16(XorAll(s[..|s| - 1]), s[|s| - 1])
  }

  lemma {:induction false} XorAllConcat(s: seq<u16>, t: seq<u16>)
    ensures XorAll(s + t) == Xor16(XorAll(s), XorAll(t))
  {
    hide Xor16;
    if t == [] {
      assert s + t == s;
      Xor16Laws(XorAll(s), 0, 0);
    } else {
      var n := |t| - 1;
      assert (s + t)[..|s + t| - 1] == s + t[..n];
      XorAllConcat(s, t[..n]);
      Xor16Laws(XorAll(s), XorAll(t[..n]), t[n]);
    }
  }

  lemma XorAllOne(w: u16)
    ensures XorAll([w]) == w
  {
    hide Xor16;
    Xor16Laws(w, 0, 0);
    assert [w][..0] == [];
  }

  lemma {:induction false} XorAllZeros(s: seq<u16>)
    requires forall i :: 0 <= i < |s| ==> s[i] == 0
    ensures XorAll(s) == 0
  {
    hide Xor16;
    if s != [] {
      XorAllZeros(s[..|s| - 1]);
      Xor16Laws(0, 0, 0);
    }
  }

  /** Replacing one word changes the sum by the exclusive or of the old and the new word. */
  lemma XorAllReplace(s: seq<u16>, i: nat, v: u16)
    requires i < |s|
    ensures XorAll(s[i := v]) == Xor16(XorAll(s), Xor16(s[i], v))
  {
    hide Xor16, XorAll;
    var l, r := s[..i], s[i + 1..];
    var x, y, w := XorAll(l), XorAll(r), s[i];
    assert s == l + [w] + r && s[i := v] == l + [v] + r;
    XorAllConcat(l, [w]);
    XorAllConcat(l + [w], r);
    XorAllConcat(l, [v]);
    XorAllConcat(l + [v], r);
    XorAllOne(w);
    XorAllOne(v);
    Rearrange(x, w, v, y);
  }

  lemma Rearrange(x: u16, w: u16, v: u16, y: u16)
    ensures Xor16(Xor16(x, v), y) == Xor16(Xor16(Xor16(x, w), y), Xor16(w, v))
  {
    hide Xor16;
    var xw := Xor16(x, w);
    Xor16Laws(xw, y, Xor16(w, v));           // (xw.y).(w.v) == xw.(y.(w.v))
    Xor16Laws(y, Xor16(w, v), 0);            // y.(w.v) == (w.v).y
    Xor16Laws(xw, Xor16(w, v), y);           // xw.((w.v).y) == (xw.(w.v)).y
    Xor16Laws(xw, w, v);                     // xw.(w.v) == (xw.w).v
    Xor16Cancel(x, w);                       // xw.w == x
  }
}
