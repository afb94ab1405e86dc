/** Bytes as integers, with exclusive-or defined bit by bit. */
module Bytes {

  type Byte = i: int | 0 <= i < 256

  /** CC_MAXMSGSIZE: the longest message of CCcam, with its header. */
  const MAX_MESSAGE: nat := 1024

  function Add8(a: int, b: int): Byte {
    (a + b) % 256
  }

  function Sub8(a: int, b: int): Byte {
    (a - b) % 256
  }

  function XorNat(a: nat, b: nat): nat
    decreases a + b
  {
    if a == 0 then b else if b == 0 then a
    else (a + b) % 2 + 2 * XorNat(a / 2, b / 2)
  }

  /** The C operator `^` on two bytes. */
  function Xor(a: Byte, b: Byte): Byte {
    XorBelow(a, b, 8);
    XorNat(a, b)
  }

  function Pow2(n: nat): (p: nat)
    ensures p > 0
  {
    if n == 0 then 1 else 2 * Pow2(n - 1)
  }

  lemma {:induction false} XorBelow(a: nat, b: nat, n: nat)
    requires a < Pow2(n) && b < Pow2(n)
    ensures XorNat(a, b) < Pow2(n)
    ensures Pow2(8) == 256
    decreases n
  {
    if a != 0 && b != 0 {
      XorBelow(a / 2, b / 2, n - 1);
    }
  }

  lemma {:induction false} XorNatComm(a: nat, b: nat)
    ensures XorNat(a, b) == XorNat(b, a)
    decreases a + b
  {
    if a != 0 && b != 0 {
      XorNatComm(a / 2, b / 2);
    }
  }

  lemma {:induction false} XorNatAssoc(a: nat, b: nat, c: nat)
    ensures XorNat(XorNat(a, b), c) == XorNat(a, XorNat(b, c))
    decreases a + b + c
  {
    if a + b + c > 0 {
      XorNatAssoc(a / 2, b / 2, c / 2);
      XorThree(a, b, c);
      XorThree(b, c, a);
      XorNatComm(a, XorNat(b, c));
      XorNatComm(a / 2, XorNat(b / 2, c / 2));
      SameBits(XorNat(XorNat(a, b), c), XorNat(XorNat(b, c), a));
    }
  }

  lemma XorThree(a: nat, b: nat, c: nat)
    ensures XorNat(XorNat(a, b), c) / 2 == XorNat(XorNat(a / 2, b / 2), c / 2)
    ensures XorNat(XorNat(a, b), c) % 2 == (a + b + c) % 2
  {
    hide XorNat;
    XorHalves(a, b);
    XorOnto(XorNat(a, b), XorNat(a / 2, b / 2), a + b, c);
  }

  lemma XorOnto(x: nat, half: nat, sum: nat, c: nat)
    requires x / 2 == half && x % 2 == sum % 2
    ensures XorNat(x, c) / 2 == XorNat(half, c / 2)
    ensures XorNat(x, c) % 2 == (sum + c) % 2
  {
    hide XorNat;
    XorHalves(x, c);
  }

  lemma SameBits(x: nat, y: nat)
    requires x / 2 == y / 2 && x % 2 == y % 2
    ensures x == y
  {
  }

  /** Low bit and remaining bits of an exclusive-or, including the zero cases. */
  lemma XorHalves(a: nat, b: nat)
    ensures XorNat(a, b) % 2 == (a + b) % 2
    ensures XorNat(a, b) / 2 == XorNat(a / 2, b / 2)
  {
    hide XorNat;
    XorNatUnfolds(a, b);
    XorNatUnfolds(a / 2, b / 2);
    if a == 0 {
    } else if b == 0 {
    } else {
      BitAndRest((a + b) % 2, XorNat(a / 2, b / 2));
    }
  }

  lemma XorNatUnfolds(a: nat, b: nat)
    ensures XorNat(a, b) == if a == 0 then b else if b == 0 then a else (a + b) % 2 + 2 * XorNat(a / 2, b / 2)
  {
  }

  /** Quotient and remainder are determined by what they add up to. */
  lemma DivUnique(a: nat, d: nat, q: nat, r: nat)
    requires a == d * q + r && r < d
    ensures a / d == q && a % d == r
  {
    var q', r' := a / d, a % d;
    Scale(d, q - q');
    assert d * (q - q') == d * q - d * q' == r' - r;
  }

  lemma Scale(d: nat, t: int)
    ensures t >= 1 ==> d * t >= d
    ensures t <= -1 ==> d * t <= 0 - d
  {
  }

  lemma BitAndRest(bit: nat, rest: nat)
    requires bit < 2
    ensures (bit + 2 * rest) % 2 == bit && (bit + 2 * rest) / 2 == rest
  {
  }

  // -- single bits

  /** Bit `j` of a number; a negative one has the bits of its two's complement. */
  function Bit(n: int, j: nat): (b: int)
    ensures 0 <= b < 2
  {
    n / Pow2(j) % 2
  }

  lemma DivDiv(n: int, a: nat, b: nat)
    requires a > 0 && b > 0
    ensures n / (a * b) == n / a / b
  {
    var q, r := n / a, n % a;
    var q', r' := q / b, q % b;
    Expand(a, b, q', r', r);
    Quotient(n, a * b, q', a * r' + r);
  }

  lemma Expand(a: nat, b: nat, q: int, r': nat, r: nat)
    requires r' < b && r < a
    ensures a * (b * q + r') + r == a * b * q + (a * r' + r) && 0 <= a * r' + r < a * b
  {
    assert a * (b * q + r') == a * (b * q) + a * r';
    assert a * (b * q) == a * b * q;
    LastBlock(a, b, r');
  }

  lemma LastBlock(a: nat, b: nat, r: nat)
    requires r < b
    ensures 0 <= a * r && a * r + a <= a * b
  {
    var k := b - 1 - r;
    assert a * b == a * r + a + a * k;
  }

  lemma Quotient(n: int, d: nat, q: int, r: nat)
    requires d > 0 && n == d * q + r && r < d
    ensures n / d == q
  {
    var q', r' := n / d, n % d;
    Scale(d, q - q');
    assert d * (q - q') == d * q - d * q' == r' - r;
  }

  lemma {:induction false} PowerPairs(m: nat, n: nat)
    ensures Pow2(m) * Pow2(n) == Pow2(m + n)
  {
    if m > 0 {
      PowerPairs(m - 1, n);
    }
  }

  /** Shifting moves the bits. */
  lemma ShiftedBit(n: int, k: nat, j: nat)
    ensures Bit(n / Pow2(k), j) == Bit(n, k + j)
  {
    PowerPairs(k, j);
    DivDiv(n, Pow2(k), Pow2(j));
  }

  lemma {:induction false} BitOfLow(n: int, j: nat, k: nat)
    requires j < k
    ensures Bit(n % Pow2(k), j) == Bit(n, j)
    decreases k
  {
    hide Bit;
    var p := Pow2(k - 1);
    LowParts(n, p);
    if j == 0 {
      LowBit(n);
      LowBit(n % (2 * p));
    } else {
      BitOfLow(n / 2, j - 1, k - 1);
      NextBit(n, j - 1);
      NextBit(n % (2 * p), j - 1);
    }
  }

  lemma LowParts(n: int, p: nat)
    requires p > 0
    ensures n % (2 * p) / 2 == n / 2 % p && n % (2 * p) % 2 == n % 2
  {
    var q, r := n / (2 * p), n % (2 * p);
    var m := p * q;
    assert n == 2 * m + r;
    assert n / 2 == m + r / 2 && n % 2 == r % 2;
    Quotient(n / 2, p, q, r / 2);
  }

  lemma NextBit(n: int, j: nat)
    ensures Bit(n / 2, j) == Bit(n, j + 1)
  {
    DivDiv(n, 2, Pow2(j));
  }

  lemma LowBit(n: int)
    ensures Bit(n, 0) == n % 2
  {
  }

  /** Exclusive-or adds bit by bit. */
  lemma {:induction false} XorBit(a: nat, b: nat, j: nat)
    ensures Bit(XorNat(a, b), j) == (Bit(a, j) + Bit(b, j)) % 2
    decreases j
  {
    hide XorNat, Bit;
    XorHalves(a, b);
    if j == 0 {
      LowBit(a);
      LowBit(b);
      LowBit(XorNat(a, b));
    } else {
      XorBit(a / 2, b / 2, j - 1);
      NextBit(a, j - 1);
      NextBit(b, j - 1);
      NextBit(XorNat(a, b), j - 1);
    }
  }

  lemma XorByteBit(a: Byte, b: Byte, j: nat)
    ensures Bit(Xor(a, b), j) == (Bit(a, j) + Bit(b, j)) % 2
  {
    XorBit(a, b, j);
  }

  lemma {:induction false} AllOnes(k: nat, j: nat)
    requires j < k
    ensures Bit(Pow2(k) - 1, j) == 1
    decreases k
  {
    hide Bit;
    var p := Pow2(k - 1);
    assert Pow2(k) == 2 * p && (2 * p - 1) / 2 == p - 1 && (2 * p - 1) % 2 == 1;
    if j == 0 {
      LowBit(2 * p - 1);
    } else {
      AllOnes(k - 1, j - 1);
      NextBit(2 * p - 1, j - 1);
    }
  }

  lemma {:induction false} XorNatSelf(a: nat)
    ensures XorNat(a, a) == 0
  {
    if a != 0 {
      XorNatSelf(a / 2);
    }
  }

  lemma XorComm(a: Byte, b: Byte)
    ensures Xor(a, b) == Xor(b, a)
  {
    XorNatComm(a, b);
  }

  lemma XorAssoc(a: Byte, b: Byte, c: Byte)
    ensures Xor(Xor(a, b), c) == Xor(a, Xor(b, c))
  {
    XorNatAssoc(a, b, c);
  }

  /** Exclusive-or with the same byte twice changes nothing. */
  lemma XorCancel(a: Byte, k: Byte)
    ensures Xor(Xor(a, k), k) == a
    ensures Xor(k, Xor(k, a)) == a
    ensures Xor(a, a) == 0
  {
    XorNatSelf(k);
    XorNatSelf(a);
    XorAssoc(a, k, k);
    XorAssoc(k, k, a);
  }

  lemma {:induction false} ComplementNat(a: nat, n: nat)
    requires a < Pow2(n)
    ensures XorNat(a, Pow2(n) - 1) == Pow2(n) - 1 - a
    decreases n
  {
    hide XorNat;
    if n == 0 {
      XorNatSelf(0);
    } else {
      var h := Pow2(n - 1);
      ComplementHalves(a, h);
      ComplementNat(a / 2, n - 1);
      XorHalves(a, 2 * h - 1);
      SameBits(XorNat(a, 2 * h - 1), 2 * h - 1 - a);
    }
  }

  lemma ComplementHalves(a: nat, h: nat)
    requires a < 2 * h
    ensures a / 2 < h && (2 * h - 1) / 2 == h - 1
    ensures (2 * h - 1 - a) / 2 == h - 1 - a / 2 && (2 * h - 1 - a) % 2 == (a + (2 * h - 1)) % 2
  {
  }

  /** The C operator `~` on a byte is exclusive-or with 255. */
  lemma Complement(a: Byte)
    ensures Xor(a, 255) == 255 - a
  {
    hide XorNat;
    XorBelow(a, a, 8);
    ComplementNat(a, 8);
  }

  lemma XorZero(a: Byte)
    ensures Xor(a, 0) == a && Xor(0, a) == a
  {
  }

  /** The byte that arrives, and the state it leaves, when the two ends of a cipher disagree. */
  lemma XorFourTerms(z: Byte, k: Byte, s: Byte, t: Byte)
    ensures var wire := Xor(Xor(z, k), s);
            var got := Xor(Xor(wire, k), t);
            got == Xor(z, Xor(s, t)) && Xor(t, got) == Xor(s, z)
  {
    hide Xor;
    var got := Xor(Xor(Xor(Xor(z, k), s), k), t);
    calc {
      got;
      { XorAssoc(Xor(z, k), s, k); XorComm(s, k); }
      Xor(Xor(Xor(z, k), Xor(k, s)), t);
      { XorAssoc(Xor(z, k), k, s); XorCancel(z, k); }
      Xor(Xor(z, s), t);
      { XorAssoc(z, s, t); }
      Xor(z, Xor(s, t));
    }
    calc {
      Xor(t, got);
      { XorAssoc(z, s, t); XorComm(t, got); }
      Xor(Xor(Xor(z, s), t), t);
      { XorCancel(Xor(z, s), t); }
      Xor(z, s);
      { XorComm(z, s); }
      Xor(s, z);
    }
  }

  /** The exclusive-or of a run of bytes. */
  function XorAll(s: seq<Byte>): Byte {
    if s == [] then 0 else Xor(s[0], XorAll(s[1..]))
  }

  /** Byte-wise exclusive-or of two runs of the same length. */
  function XorSeq(s: seq<Byte>, t: seq<Byte>): (u: seq<Byte>)
    requires |s| == |t|
    ensures |u| == |s|
  {
    seq(|s|, i requires 0 <= i < |s| => Xor(s[i], t[i]))
  }

  lemma {:induction false} XorAllOfXorSeq(s: seq<Byte>, t: seq<Byte>)
    requires |s| == |t|
    ensures XorAll(XorSeq(s, t)) == Xor(XorAll(s), XorAll(t))
  {
    hide Xor;
    if s == [] {
      XorZero(0);
    } else {
      XorAllOfXorSeq(s[1..], t[1..]);
      assert XorSeq(s, t)[1..] == XorSeq(s[1..], t[1..]);
      XorSwap(s[0], t[0], XorAll(s[1..]), XorAll(t[1..]));
    }
  }

  lemma XorSwap(a: Byte, b: Byte, c: Byte, d: Byte)
    ensures Xor(Xor(a, b), Xor(c, d)) == Xor(Xor(a, c), Xor(b, d))
  {
    hide Xor;
    XorAssoc(a, b, Xor(c, d));
    XorAssoc(b, c, d);
    XorComm(b, c);
    XorAssoc(c, b, d);
    XorAssoc(a, c, Xor(b, d));
  }

  /** A buffer with the bytes `out` written over it from position `at`. */
  function Put(buf: seq<Byte>, at: nat, out: seq<Byte>): (r: seq<Byte>)
    requires at + |out| <= |buf|
    ensures |r| == |buf|
  {
    buf[..at] + out + buf[at + |out|..]
  }

  lemma PutAt(buf: seq<Byte>, at: nat, out: seq<Byte>)
    requires at + |out| < |buf|
    ensures Put(buf, at, out)[at + |out|] == buf[at + |out|]
  {
  }

  lemma PutSnoc(buf: seq<Byte>, at: nat, out: seq<Byte>, z: Byte)
    requires at + |out| < |buf|
    ensures Put(buf, at, out)[at + |out| := z] == Put(buf, at, out + [z])
  {
  }

  lemma PutAll(buf: seq<Byte>, out: seq<Byte>)
    requires |out| == |buf|
    ensures Put(buf, 0, out) == out
  {
  }

  lemma PutTwice(buf: seq<Byte>, at: nat, first: seq<Byte>, second: seq<Byte>)
    requires at + |first| <= |buf| && |first| == |second|
    ensures Put(Put(buf, at, first), at, second) == Put(buf, at, second)
    ensures Put(buf, at, first)[at..at + |first|] == first
  {
  }

  function Zeros(n: nat): (r: seq<Byte>)
    ensures |r| == n
  {
    seq(n, _ => 0)
  }
}
