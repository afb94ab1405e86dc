/**
 The gbox block cipher (oscam/oscam_8249/module-gbox.c).

 Four sub-ciphers rewrite an eight byte window while a 32-bit key rotates one
 bit per step; the full cipher applies them to overlapping windows at both
 ends of the buffer around an exclusive-or chain.
 */
module Gbox {
  import opened Bytes

  /** `Lookup_Table`, in rows of sixteen. */
  const LOOKUP: seq<seq<Byte>> := [
    [0x25, 0x38, 0xD4, 0xCD, 0x17, 0x7A, 0x5E, 0x6C, 0x52, 0x42, 0xFE, 0x68, 0xAB, 0x3F, 0xF7, 0xBE],
    [0x47, 0x57, 0x71, 0xB0, 0x23, 0xC1, 0x26, 0x6C, 0x41, 0xCE, 0x94, 0x37, 0x45, 0x04, 0xA2, 0xEA],
    [0x07, 0x58, 0x35, 0x55, 0x08, 0x2A, 0x0F, 0xE7, 0xAC, 0x76, 0xF0, 0xC1, 0xE6, 0x09, 0x10, 0xDD],
    [0xC5, 0x8D, 0x2E, 0xD9, 0x03, 0x9C, 0x3D, 0x2C, 0x4D, 0x41, 0x0C, 0x5E, 0xDE, 0xE4, 0x90, 0xAE]]

  function Lookup(i: int): Byte
    requires 0 <= i < 64
  {
    LOOKUP[i / 16][i % 16]
  }

  type Key = k: seq<Byte> | |k| == 4
    witness [0, 0, 0, 0]

  type Window = w: seq<Byte> | |w| == 8
    witness [0, 0, 0, 0, 0, 0, 0, 0]

  // --------------------------------------------------------- key rotation

  function RotByte(a: Byte, left: Byte): Byte {
    a / 2 + 128 * (left % 2)
  }

  function UnrotByte(a: Byte, right: Byte): Byte {
    a * 2 % 256 + right / 128
  }

  /** One step of the 32-bit key to the right, and one back to the left. */
  function Rot(k: Key): Key {
    [RotByte(k[0], k[3]), RotByte(k[1], k[0]), RotByte(k[2], k[1]), RotByte(k[3], k[2])]
  }

  function Unrot(k: Key): Key {
    [UnrotByte(k[0], k[1]), UnrotByte(k[1], k[2]), UnrotByte(k[2], k[3]), UnrotByte(k[3], k[0])]
  }

  function RotBy(k: Key, n: nat): Key
    decreases n
  {
    if n == 0 then k else RotBy(Rot(k), n - 1)
  }

  // ------------------------------------------------------ the sub-ciphers

  /** The two window ciphers: `gbox_encrypt8` and `gbox_encryptA`, each with its inverse. */
  datatype Kind = Eight | A

  /** The new byte after `z`, which held `w`; `ka` and `kb` are the two key bytes in use. */
  function EncByte(kind: Kind, z: Byte, w: Byte, ka: Byte, kb: Byte): Byte {
    var mixed := Lookup(Sub8(z, ka) % 64);
    match kind
    case Eight => Sub8(Xor(mixed, Sub8(w, Lookup(z / 4))), kb)
    case A => Add8(kb, Xor(mixed, Add8(Lookup(Xor(ka, z) / 4) * 2, w)))
  }

  function DecByte(kind: Kind, z: Byte, w: Byte, ka: Byte, kb: Byte): Byte {
    var mixed := Lookup(Sub8(z, ka) % 64);
    match kind
    case Eight => Add8(Lookup(z / 4), Xor(mixed, Add8(kb, w)))
    case A => Sub8(Xor(mixed, Sub8(w, kb)), Lookup(Xor(ka, z) / 4) * 2)
  }

  function EncStep(kind: Kind, w: Window, i: nat, k: Key): Window
    requires i < 8
  {
    w[(i + 1) % 8 := EncByte(kind, w[i], w[(i + 1) % 8], k[(i + 1) % 4], k[i % 4])]
  }

  function DecStep(kind: Kind, w: Window, i: nat, k: Key): Window
    requires i < 8
  {
    w[(i + 1) % 8 := DecByte(kind, w[i], w[(i + 1) % 8], k[(i + 1) % 4], k[i % 4])]
  }

  datatype Out = Out(w: Window, k: Key)

  /** `n` steps of encryption: the key moves first, positions go down, the last step is at 0. */
  function Enc(kind: Kind, n: nat, w: Window, k: Key): Out {
    if n == 0 then Out(w, k)
    else Enc(kind, n - 1, EncStep(kind, w, (n - 1) % 8, Rot(k)), Rot(k))
  }

  /** `n` steps of decryption: positions go up from 0, the key moves last. */
  function Dec(kind: Kind, n: nat, w: Window, k: Key): Out {
    if n == 0 then Out(w, k)
    else
      var o := Dec(kind, n - 1, w, k);
      Out(DecStep(kind, o.w, (n - 1) % 8, o.k), Unrot(o.k))
  }

  // ------------------------------------------------------ the whole cipher

  function EncryptAt(kind: Kind, buf: seq<Byte>, at: nat, k: Key): (r: seq<Byte>)
    requires at + 8 <= |buf|
    ensures |r| == |buf|
  {
    Put(buf, at, Enc(kind, 32, buf[at..at + 8], k).w)
  }

  function DecryptAt(kind: Kind, buf: seq<Byte>, at: nat, k: Key): (r: seq<Byte>)
    requires at + 8 <= |buf|
    ensures |r| == |buf|
  {
    Put(buf, at, Dec(kind, 32, buf[at..at + 8], k).w)
  }

  /** Each byte exclusive-or its successor; the last one stays. */
  function Chain(buf: seq<Byte>): (r: seq<Byte>)
    ensures |r| == |buf|
  {
    seq(|buf|, i requires 0 <= i < |buf| => if i + 1 < |buf| then Xor(buf[i + 1], buf[i]) else buf[i])
  }

  /** From the back: each byte exclusive-or its already restored successor. */
  function Unchain(buf: seq<Byte>): (r: seq<Byte>)
    ensures |r| == |buf|
  {
    if |buf| <= 1 then buf
    else
      var tail := Unchain(buf[1..]);
      [Xor(tail[0], buf[0])] + tail
  }

  function EncryptB(buf: seq<Byte>, k: Key): (r: seq<Byte>)
    requires |buf| >= 9
    ensures |r| == |buf|
  {
    DecryptAt(Eight, EncryptAt(Eight, Chain(buf), 0, k), |buf| - 9, k)
  }

  function DecryptB(buf: seq<Byte>, k: Key): (r: seq<Byte>)
    requires |buf| >= 9
    ensures |r| == |buf|
  {
    Unchain(DecryptAt(Eight, EncryptAt(Eight, buf, |buf| - 9, k), 0, k))
  }

  function Encrypt(buf: seq<Byte>, k: Key): (r: seq<Byte>)
    requires |buf| >= 9
    ensures |r| == |buf|
  {
    EncryptB(EncryptAt(A, buf, 0, k), k)
  }

  function Decrypt(buf: seq<Byte>, k: Key): (r: seq<Byte>)
    requires |buf| >= 9
    ensures |r| == |buf|
  {
    DecryptAt(A, DecryptB(buf, k), 0, k)
  }

  // ---------------------------------------------------------- key lemmas

  lemma UnrotUndoesRot(k: Key)
    ensures Unrot(Rot(k)) == k && Rot(Unrot(k)) == k
  {
    hide RotByte, UnrotByte;
    RotByteBack(k[0], k[3], k[1]);
    RotByteBack(k[1], k[0], k[2]);
    RotByteBack(k[2], k[1], k[3]);
    RotByteBack(k[3], k[2], k[0]);
  }

  lemma RotByteBack(a: Byte, left: Byte, right: Byte)
    ensures UnrotByte(RotByte(a, left), RotByte(right, a)) == a
    ensures RotByte(UnrotByte(a, right), UnrotByte(left, a)) == a
  {
    TopBit(a / 2, left % 2);
    TopBit(right / 2, a % 2);
    TopBit(a % 128, a / 128);
    TopBit(left % 128, left / 128);
    LowBit(a % 128, right / 128);
    LowBit(left % 128, a / 128);
  }

  lemma TopBit(h: nat, t: nat)
    requires h < 128 && t < 2
    ensures (h + 128 * t) / 128 == t && (h + 128 * t) * 2 % 256 == 2 * h
  {
  }

  lemma LowBit(h: nat, t: nat)
    requires t < 2
    ensures (2 * h + t) / 2 == h && (2 * h + t) % 2 == t
  {
  }

  function High(a: nat, p: nat): nat
    requires p > 0
  {
    a / p
  }

  function Low(a: nat, p: nat): nat
    requires p > 0
  {
    a % p
  }

  /** A byte after `n` rotations: its high bits moved down, the low bits of its left neighbour above them. */
  function Partly(n: nat, a: Byte, left: Byte): int
    requires n <= 8
  {
    High(a, Pow2(n)) + Low(left, Pow2(n)) * Pow2(8 - n)
  }

  /** Dividing by `p` and then by two. */
  lemma DivTwice(a: nat, p: nat)
    requires p > 0
    ensures High(a, 2 * p) == High(a, p) / 2
    ensures Low(a, 2 * p) == Low(a, p) + p * (High(a, p) % 2)
  {
    var x, r := a / p, a % p;
    var m, s := x / 2, x % 2;
    assert p * x == 2 * p * m + p * s;
    assert p * s == if s == 1 then p else 0;
    DivUnique(a, 2 * p, m, r + p * s);
  }

  /** The numbers of one rotation step: `x`, `y` the high parts, `u`, `v` the low bits. */
  lemma RotateParts(x: nat, u: nat, y: nat, v: nat, p: nat, h: nat)
    requires p * h == 128
    ensures (x + u * (2 * h)) / 2 == x / 2 + u * h
    ensures (y + v * (2 * h)) % 2 == y % 2
    ensures (u + p * (y % 2)) * h == u * h + 128 * (y % 2)
  {
    assert u * (2 * h) == 2 * (u * h) && v * (2 * h) == 2 * (v * h);
    if y % 2 == 0 {
    } else {
      assert (u + p) * h == u * h + p * h;
    }
  }

  lemma PartlyStep(n: nat, a: Byte, b: Byte, c: Byte)
    requires n < 8 && 0 <= Partly(n, a, b) < 256 && 0 <= Partly(n, b, c) < 256
    ensures Partly(n + 1, a, b) == RotByte(Partly(n, a, b), Partly(n, b, c))
  {
    hide High, Low;
    var p, h := Pow2(n), Pow2(7 - n);
    PowerPairs(n, 7 - n);
    XorBelow(0, 0, 8);
    assert Pow2(8 - n) == 2 * h && Pow2(n + 1) == 2 * p;
    StepInParts(p, h, a, b, c);
  }

  lemma StepInParts(p: nat, h: nat, a: Byte, b: Byte, c: Byte)
    requires p > 0 && p * h == 128
    ensures High(a, 2 * p) + Low(b, 2 * p) * h ==
            (High(a, p) + Low(b, p) * (2 * h)) / 2 + 128 * ((High(b, p) + Low(c, p) * (2 * h)) % 2)
  {
    hide High, Low;
    DivTwice(a, p);
    DivTwice(b, p);
    RotateParts(High(a, p), Low(b, p), High(b, p), Low(c, p), p, h);
  }

  lemma {:induction false} PartlyRotated(k: Key, n: nat)
    requires n <= 8
    ensures var r := RotTail(k, n);
            && r[0] == Partly(n, k[0], k[3]) && r[1] == Partly(n, k[1], k[0])
            && r[2] == Partly(n, k[2], k[1]) && r[3] == Partly(n, k[3], k[2])
  {
    hide Partly, RotByte;
    if n == 0 {
      WholeByte(k[0], k[3]);
      WholeByte(k[1], k[0]);
      WholeByte(k[2], k[1]);
      WholeByte(k[3], k[2]);
    } else {
      PartlyRotated(k, n - 1);
      PartlyStep(n - 1, k[0], k[3], k[2]);
      PartlyStep(n - 1, k[1], k[0], k[3]);
      PartlyStep(n - 1, k[2], k[1], k[0]);
      PartlyStep(n - 1, k[3], k[2], k[1]);
    }
  }

  /** `RotBy` with the last step on the outside. */
  function RotTail(k: Key, n: nat): Key {
    if n == 0 then k else Rot(RotTail(k, n - 1))
  }

  lemma {:induction false} RotAdd(k: Key, m: nat, n: nat)
    ensures RotBy(RotBy(k, m), n) == RotBy(k, m + n)
    ensures RotBy(k, m) == RotTail(k, m)
    decreases m
  {
    hide Rot;
    if m > 0 {
      RotAdd(Rot(k), m - 1, n);
      RotShift(k, m - 1);
    }
  }

  lemma {:induction false} RotShift(k: Key, n: nat)
    ensures RotTail(Rot(k), n) == Rot(RotTail(k, n))
  {
    if n > 0 {
      RotShift(k, n - 1);
    }
  }

  lemma EightRotationsMoveAByte(k: Key)
    ensures RotBy(k, 8) == [k[3], k[0], k[1], k[2]]
  {
    hide RotBy, RotTail;
    RotAdd(k, 8, 0);
    PartlyRotated(k, 8);
    WholeByte(k[0], k[3]);
    WholeByte(k[1], k[0]);
    WholeByte(k[2], k[1]);
    WholeByte(k[3], k[2]);
  }

  lemma WholeByte(a: Byte, left: Byte)
    ensures Partly(0, a, left) == a && Partly(8, a, left) == left
  {
    PowerEnds();
    hide Pow2;
  }

  lemma PowerEnds()
    ensures Pow2(0) == 1 && Pow2(8) == 256
  {
  }

  /** Thirty-two rotations are none. */
  lemma FullRotation(k: Key)
    ensures RotBy(k, 32) == k
  {
    hide RotBy, Rot;
    var k1 := RotBy(k, 8);
    var k2 := RotBy(k1, 8);
    var k3 := RotBy(k2, 8);
    EightRotationsMoveAByte(k);
    EightRotationsMoveAByte(k1);
    EightRotationsMoveAByte(k2);
    EightRotationsMoveAByte(k3);
    RotAdd(k, 8, 8);
    RotAdd(k, 16, 8);
    RotAdd(k, 24, 8);
  }

  // -------------------------------------------------------- cipher lemmas

  lemma BytesUndone(kind: Kind, z: Byte, w: Byte, ka: Byte, kb: Byte)
    ensures DecByte(kind, z, EncByte(kind, z, w, ka, kb), ka, kb) == w
    ensures EncByte(kind, z, DecByte(kind, z, w, ka, kb), ka, kb) == w
  {
    var mixed := Lookup(Sub8(z, ka) % 64);
    var t := if kind == Eight then Lookup(z / 4) else Lookup(Xor(ka, z) / 4) * 2;
    hide Xor, Lookup, Add8, Sub8;
    XorCancel(Sub8(w, t), mixed);
    XorCancel(Add8(t, w), mixed);
    XorCancel(Sub8(w, kb), mixed);
    XorCancel(Add8(kb, w), mixed);
    AddSub(t, w);
    AddSub(kb, w);
    AddSub(t, Xor(mixed, Add8(kb, w)));
    AddSub(kb, Xor(mixed, Sub8(w, t)));
    AddSub(t, Xor(mixed, Sub8(w, kb)));
    AddSub(kb, Xor(mixed, Add8(t, w)));
  }

  lemma AddSub(t: int, w: Byte)
    ensures Sub8(Add8(t, w), t) == w && Add8(t, Sub8(w, t)) == w
  {
    OffByMultiple(w, (t + w) / 256);
    OffByMultiple(w, (w - t) / 256);
  }

  lemma OffByMultiple(w: Byte, q: int)
    ensures (w - 256 * q) % 256 == w
  {
  }

  lemma StepsUndone(kind: Kind, w: Window, i: nat, k: Key)
    requires i < 8
    ensures DecStep(kind, EncStep(kind, w, i, k), i, k) == w
    ensures EncStep(kind, DecStep(kind, w, i, k), i, k) == w
  {
    hide EncByte, DecByte;
    BytesUndone(kind, w[i], w[(i + 1) % 8], k[(i + 1) % 4], k[i % 4]);
  }

  lemma {:induction false} DecUndoesEnc(kind: Kind, n: nat, w: Window, k: Key)
    ensures var o := Enc(kind, n, w, k); Dec(kind, n, o.w, o.k) == Out(w, k)
    decreases n
  {
    hide EncStep, DecStep, Rot, Unrot;
    if n > 0 {
      DecUndoesEnc(kind, n - 1, EncStep(kind, w, (n - 1) % 8, Rot(k)), Rot(k));
      StepsUndone(kind, w, (n - 1) % 8, Rot(k));
      UnrotUndoesRot(k);
    }
  }

  lemma {:induction false} EncUndoesDec(kind: Kind, n: nat, w: Window, k: Key)
    ensures var o := Dec(kind, n, w, k); Enc(kind, n, o.w, o.k) == Out(w, k)
    decreases n
  {
    hide EncStep, DecStep, Rot, Unrot;
    if n > 0 {
      EncUndoesDec(kind, n - 1, w, k);
      var o := Dec(kind, n - 1, w, k);
      StepsUndone(kind, o.w, (n - 1) % 8, o.k);
      UnrotUndoesRot(o.k);
    }
  }

  lemma {:induction false} EncRotatesKey(kind: Kind, n: nat, w: Window, k: Key)
    ensures Enc(kind, n, w, k).k == RotBy(k, n)
    decreases n
  {
    hide EncStep, Rot;
    if n > 0 {
      EncRotatesKey(kind, n - 1, EncStep(kind, w, (n - 1) % 8, Rot(k)), Rot(k));
    }
  }

  /** Every sub-cipher call hands the key back as it got it, whatever is in the window. */
  lemma KeySurvives(kind: Kind, w: Window, k: Key)
    ensures Enc(kind, 32, w, k).k == k
    ensures Dec(kind, 32, w, k).k == k
  {
    hide Enc, Dec, RotBy;
    EncRotatesKey(kind, 32, w, k);
    FullRotation(k);
    var o := Dec(kind, 32, w, k);
    EncUndoesDec(kind, 32, w, k);
    EncRotatesKey(kind, 32, o.w, o.k);
    FullRotation(o.k);
  }

  /** At any position of a buffer the two window ciphers undo each other, in both orders. */
  lemma WindowRoundTrip(kind: Kind, buf: seq<Byte>, at: nat, k: Key)
    requires at + 8 <= |buf|
    ensures DecryptAt(kind, EncryptAt(kind, buf, at, k), at, k) == buf
    ensures EncryptAt(kind, DecryptAt(kind, buf, at, k), at, k) == buf
  {
    hide Enc, Dec, Put;
    var w: Window := buf[at..at + 8];
    KeySurvives(kind, w, k);
    DecUndoesEnc(kind, 32, w, k);
    EncUndoesDec(kind, 32, w, k);
    PutTwice(buf, at, Enc(kind, 32, w, k).w, w);
    PutTwice(buf, at, Dec(kind, 32, w, k).w, w);
    PutSelf(buf, at, 8);
  }

  lemma PutSelf(buf: seq<Byte>, at: nat, n: nat)
    requires at + n <= |buf|
    ensures Put(buf, at, buf[at..at + n]) == buf
  {
  }

  lemma ChainRoundTrip(buf: seq<Byte>)
    ensures Unchain(Chain(buf)) == buf
    ensures Chain(Unchain(buf)) == buf
  {
    UnchainUndoesChain(buf);
    ChainUndoesUnchain(buf);
  }

  lemma {:induction false} UnchainUndoesChain(buf: seq<Byte>)
    ensures Unchain(Chain(buf)) == buf
    decreases |buf|
  {
    hide Xor;
    if |buf| > 1 {
      UnchainUndoesChain(buf[1..]);
      assert Chain(buf)[1..] == Chain(buf[1..]);
      XorCancel(buf[0], buf[1]);
    }
  }

  lemma {:induction false} ChainUndoesUnchain(buf: seq<Byte>)
    ensures Chain(Unchain(buf)) == buf
    decreases |buf|
  {
    hide Xor;
    if |buf| > 1 {
      var tail := Unchain(buf[1..]);
      ChainUndoesUnchain(buf[1..]);
      assert Unchain(buf)[1..] == tail;
      XorCancel(buf[0], tail[0]);
    }
  }

  /**
   The whole cipher: decryption undoes encryption and encryption undoes
   decryption, for every buffer of nine bytes or more and every key.  Below
   seventeen bytes the two windows overlap, and it does not matter.
   */
  lemma GboxRoundTrip(buf: seq<Byte>, k: Key)
    requires |buf| >= 9
    ensures Decrypt(Encrypt(buf, k), k) == buf
    ensures Encrypt(Decrypt(buf, k), k) == buf
  {
    hide EncryptAt, DecryptAt, Chain, Unchain;
    var end := |buf| - 9;
    // encryption first
    var a := EncryptAt(A, buf, 0, k);
    var b := Chain(a);
    var c := EncryptAt(Eight, b, 0, k);
    WindowRoundTrip(Eight, c, end, k);
    WindowRoundTrip(Eight, b, 0, k);
    ChainRoundTrip(a);
    WindowRoundTrip(A, buf, 0, k);
    // decryption first
    var d := EncryptAt(Eight, buf, end, k);
    var e := DecryptAt(Eight, d, 0, k);
    var f := Unchain(e);
    WindowRoundTrip(A, f, 0, k);
    ChainRoundTrip(e);
    WindowRoundTrip(Eight, d, 0, k);
    WindowRoundTrip(Eight, buf, end, k);
  }

  /**
   The whole cipher on a buffer whose two windows do not overlap: both kinds on
   the first eight bytes, with the exclusive-or of neighbours in between; the
   inverse of the first kind on the eight bytes before the last; between them
   only the exclusive-or of neighbours; and the last byte as it was.
   */
  lemma LongBuffer(buf: seq<Byte>, k: Key)
    requires |buf| >= 17
    ensures var n, r := |buf|, Encrypt(buf, k);
            var a := Enc(A, 32, buf[..8], k).w;
            && |r| == n && r[n - 1] == buf[n - 1]
            && (forall i :: 8 <= i < n - 9 ==> r[i] == Xor(buf[i + 1], buf[i]))
            && r[..8] == Enc(Eight, 32, Neighbours(a + [buf[8]]), k).w
            && r[n - 9..n - 1] == Dec(Eight, 32, Neighbours(buf[n - 9..]), k).w
  {
    hide Enc, Dec, Xor, EncryptAt, DecryptAt, Chain;
    var n := |buf|;
    var a := EncryptAt(A, buf, 0, k);
    var b := Chain(a);
    var c := EncryptAt(Eight, b, 0, k);
    EncryptsOnly(A, buf, 0, k);
    EncryptsOnly(Eight, b, 0, k);
    DecryptsOnly(Eight, c, n - 9, k);
    assert buf[0..8] == buf[..8] && b[0..8] == b[..8] && c[n - 9..n - 9 + 8] == b[n - 9..n - 1];
    ChainOf(a, 0);
    ChainOf(a, n - 9);
    assert a[0..9] == a[..8] + [buf[8]] && a[n - 9..n] == buf[n - 9..];
    var r := DecryptAt(Eight, c, n - 9, k);
    assert a[0..8] == a[..8] && c[0..8] == c[..8] == r[..8] && r[n - 9..n - 9 + 8] == r[n - 9..n - 1];
    forall i | 8 <= i < n - 9 ensures b[i] == Xor(buf[i + 1], buf[i]) {
      ChainAt(a, i);
    }
    ChainAt(a, n - 1);
    assert r[n - 1] == c[n - 1] == b[n - 1] == a[n - 1];
  }

  lemma EncryptsOnly(kind: Kind, buf: seq<Byte>, at: nat, k: Key)
    requires at + 8 <= |buf|
    ensures var r := EncryptAt(kind, buf, at, k);
            && r[at..at + 8] == Enc(kind, 32, buf[at..at + 8], k).w
            && forall i :: 0 <= i < at || at + 8 <= i < |buf| ==> r[i] == buf[i]
  {
    hide Enc;
  }

  lemma DecryptsOnly(kind: Kind, buf: seq<Byte>, at: nat, k: Key)
    requires at + 8 <= |buf|
    ensures var r := DecryptAt(kind, buf, at, k);
            && r[at..at + 8] == Dec(kind, 32, buf[at..at + 8], k).w
            && forall i :: 0 <= i < at || at + 8 <= i < |buf| ==> r[i] == buf[i]
  {
    hide Dec;
  }

  lemma ChainOf(a: seq<Byte>, at: nat)
    requires at + 9 <= |a|
    ensures Chain(a)[at..at + 8] == Neighbours(a[at..at + 9])
  {
    hide Xor;
  }

  lemma ChainAt(a: seq<Byte>, i: nat)
    requires i < |a|
    ensures Chain(a)[i] == if i + 1 < |a| then Xor(a[i + 1], a[i]) else a[i]
  {
  }

  /** Each byte but the last exclusive-or the one behind it. */
  function Neighbours(s: seq<Byte>): (r: seq<Byte>)
    requires |s| == 9
    ensures |r| == 8
  {
    seq(8, i requires 0 <= i < 8 => Xor(s[i + 1], s[i]))
  }

  // ------------------------------------- rotation and steps in plain numbers

  /** The key as a number of 32 bits. */
  function Number(k: Key): nat {
    var a: nat, b: nat, c: nat, d: nat := k[0], k[1], k[2], k[3];
    ((a * 256 + b) * 256 + c) * 256 + d
  }

  /** One rotation moves the 32 bits down by one, and the last one to the top. */
  lemma RotIsShift(k: Key)
    ensures Number(Rot(k)) == Number(k) / 2 + 0x8000_0000 * (Number(k) % 2)
  {
    hide RotByte;
    ByteParts(k[0], k[3]);
    ByteParts(k[1], k[0]);
    ByteParts(k[2], k[1]);
    ByteParts(k[3], k[2]);
    Halves(k[0] / 2, k[1] / 2, k[2] / 2, k[3] / 2, k[0] % 2, k[1] % 2, k[2] % 2, k[3] % 2);
  }

  lemma ByteParts(a: Byte, left: Byte)
    ensures a == 2 * (a / 2) + a % 2 && RotByte(a, left) == a / 2 + 128 * (left % 2)
  {
  }

  lemma Halves(a: nat, b: nat, c: nat, d: nat, p: nat, q: nat, r: nat, s: nat)
    requires s < 2
    ensures var n := (((2 * a + p) * 256 + 2 * b + q) * 256 + 2 * c + r) * 256 + 2 * d + s;
            n % 2 == s && n / 2 == ((a * 256 + b + 128 * p) * 256 + c + 128 * q) * 256 + d + 128 * r
  {
    BitAndRest(s, ((a * 256 + b + 128 * p) * 256 + c + 128 * q) * 256 + d + 128 * r);
  }

  /**
   The bits of a step of `gbox_encrypt8`: what it stores behind position `i`,
   with one key byte added back, is the exclusive-or of a table entry and of
   what was there less another entry.  Nothing else changes.
   */
  lemma EightBits(w: Window, i: nat, k: Key, j: nat)
    requires i < 8
    ensures var v, next := EncStep(Eight, w, i, k), (i + 1) % 8;
            var z: int, was: int, now: int, ka: int, kb: int := w[i], w[next], v[next], k[(i + 1) % 4], k[i % 4];
            && (forall m :: 0 <= m < 8 && m != next ==> v[m] == w[m])
            && Bit((now + kb) % 256, j) ==
               (Bit(Lookup((z - ka) % 64), j) + Bit((was - Lookup(z / 4)) % 256, j)) % 2
  {
    hide EncByte, Bit, Lookup;
    var next := (i + 1) % 8;
    EightByteBits(w[i], w[next], k[(i + 1) % 4], k[i % 4], j);
  }

  lemma EightByteBits(z: Byte, w: Byte, ka: Byte, kb: Byte, j: nat)
    ensures var z': int, w': int, v: int := z, w, EncByte(Eight, z, w, ka, kb);
            Bit((v + kb) % 256, j) == (Bit(Lookup((z' - ka) % 64), j) + Bit((w' - Lookup(z / 4)) % 256, j)) % 2
  {
    hide Bit, Xor, XorNat, Lookup, LOOKUP;
    var mixed, low := Lookup(Sub8(z, ka) % 64), Sub8(w, Lookup(z / 4));
    AddedBack(kb, Xor(mixed, low));
    XorByteBit(mixed, low, j);
    SameEntry(z, ka);
    Lowered(w, Lookup(z / 4));
    hide Sub8;
  }

  /** The bits of a step of `gbox_encryptA`; `top` is the exclusive-or of the byte at `i` and one key byte. */
  lemma ABits(w: Window, i: nat, k: Key, top: Byte, j: nat)
    requires i < 8 && forall b: nat :: b < 8 ==> Bit(top, b) == (Bit(k[(i + 1) % 4], b) + Bit(w[i], b)) % 2
    ensures var v, next := EncStep(A, w, i, k), (i + 1) % 8;
            var z: int, was: int, now: int, ka: int, kb: int := w[i], w[next], v[next], k[(i + 1) % 4], k[i % 4];
            && (forall m :: 0 <= m < 8 && m != next ==> v[m] == w[m])
            && Bit((now - kb) % 256, j) ==
               (Bit(Lookup((z - ka) % 64), j) + Bit((was + 2 * Lookup(top / 4)) % 256, j)) % 2
  {
    hide EncByte, Bit, Lookup;
    var next := (i + 1) % 8;
    AByteBits(w[i], w[next], k[(i + 1) % 4], k[i % 4], top, j);
  }

  lemma AByteBits(z: Byte, w: Byte, ka: Byte, kb: Byte, top: Byte, j: nat)
    requires forall b: nat :: b < 8 ==> Bit(top, b) == (Bit(ka, b) + Bit(z, b)) % 2
    ensures var z': int, w': int, v: int := z, w, EncByte(A, z, w, ka, kb);
            Bit((v - kb) % 256, j) == (Bit(Lookup((z' - ka) % 64), j) + Bit((w' + 2 * Lookup(top / 4)) % 256, j)) % 2
  {
    hide Bit, Xor, XorNat, Lookup, LOOKUP, Pow2;
    forall b: nat | b < 8 ensures Bit(top, b) == Bit(Xor(ka, z), b) {
      XorByteBit(ka, z, b);
    }
    XorBelow(0, 0, 8);
    EqualBits(top, Xor(ka, z), 8);
    var mixed, high := Lookup(Sub8(z, ka) % 64), Add8(Lookup(top / 4) * 2, w);
    AddedBack(kb, Xor(mixed, high));
    XorByteBit(mixed, high, j);
    SameEntry(z, ka);
    Raised(w, Lookup(top / 4));
    hide Sub8, Add8;
  }

  /** Numbers of `n` bits are equal if their bits are. */
  lemma {:induction false} EqualBits(a: nat, b: nat, n: nat)
    requires a < Pow2(n) && b < Pow2(n) && forall j: nat :: j < n ==> Bit(a, j) == Bit(b, j)
    ensures a == b
    decreases n
  {
    hide Bit;
    if n > 0 {
      Bytes.LowBit(a);
      Bytes.LowBit(b);
      forall j: nat | j < n - 1 ensures Bit(a / 2, j) == Bit(b / 2, j) {
        NextBit(a, j);
        NextBit(b, j);
      }
      EqualBits(a / 2, b / 2, n - 1);
      SameBits(a, b);
    }
  }

  lemma AddedBack(kb: Byte, x: Byte)
    ensures var v: int, v': int := Sub8(x, kb), Add8(kb, x); (v + kb) % 256 == x && (v' - kb) % 256 == x
  {
    AddSub(kb, x);
  }

  lemma Lowered(w: Byte, low: Byte)
    ensures var w': int := w; Sub8(w, low) == (w' - low) % 256
  {
  }

  lemma Raised(w: Byte, high: Byte)
    ensures var w': int := w; Add8(high * 2, w) == (w' + 2 * high) % 256
  {
  }

  lemma SameEntry(z: Byte, ka: Byte)
    ensures var z': int := z; Sub8(z, ka) % 64 == (z' - ka) % 64
  {
  }

  /** Two steps of each kind from known bytes: which table entries, which key byte where, and in which order. */
  lemma KnownSteps(w: Window, v: Window, k: Key)
    requires w[0] == 255 && w[1] == 173 && w[2] == 192
    requires v[0] == 255 && v[1] == 223 && v[2] == 167
    requires k[0] == 12 && k[1] == 20 && k[2] == 0 && k[3] == 0
    ensures Enc(Eight, 2, w, k) == Out(w[1 := 240][2 := 236], [3, 5, 0, 0])
    ensures Enc(A, 2, v, k) == Out(v[1 := 246][2 := 31], [3, 5, 0, 0])
  {
    hide Enc, EncByte;
    KnownEight();
    KnownA();
    TwoSteps(Eight, w, k, 236, 240);
    TwoSteps(A, v, k, 31, 246);
    assert Rot(Rot(k)) == [3, 5, 0, 0];
    assert w[2 := 236][1 := 240] == w[1 := 240][2 := 236];
    assert v[2 := 31][1 := 246] == v[1 := 246][2 := 31];
  }

  lemma KnownEight()
    ensures EncByte(Eight, 173, 192, 0, 10) == 236 && EncByte(Eight, 255, 173, 5, 3) == 240
  {
    hide Xor;
    Complement(9);
    Complement(12);
  }

  lemma KnownA()
    ensures EncByte(A, 223, 167, 0, 10) == 31 && EncByte(A, 255, 223, 5, 3) == 246
  {
    KnownFirst();
    KnownSecond();
  }

  lemma KnownFirst()
    ensures EncByte(A, 223, 167, 0, 10) == 31
  {
    hide Xor;
    XorZero(223);
    Complement(234);
  }

  lemma KnownSecond()
    ensures EncByte(A, 255, 223, 5, 3) == 246
  {
    hide Xor;
    Complement(5);
    Complement(12);
  }

  lemma TwoSteps(kind: Kind, w: Window, k: Key, y: Byte, z: Byte)
    requires var r := Rot(k); y == EncByte(kind, w[1], w[2], r[2], r[1])
    requires var r := Rot(Rot(k)); z == EncByte(kind, w[0], w[1], r[1], r[0])
    ensures Enc(kind, 2, w, k) == Out(w[2 := y][1 := z], Rot(Rot(k)))
  {
    hide EncByte, Rot;
    var v := w[2 := y];
    assert Enc(kind, 2, w, k) == Enc(kind, 1, v, Rot(k));
    assert Enc(kind, 1, v, Rot(k)) == Enc(kind, 0, v[1 := z], Rot(Rot(k)));
  }

  // ------------------------------------------------- the steps as performed

  /** One rotation of the key array to the right. */
  method RotateRight(pass: array<Byte>)
    requires pass.Length == 4
    modifies pass
    ensures pass[..] == Rot(old(pass[..]))
  {
    var temp := pass[3];
    pass[3] := RotByte(pass[3], pass[2]);
    pass[2] := RotByte(pass[2], pass[1]);
    pass[1] := RotByte(pass[1], pass[0]);
    pass[0] := RotByte(pass[0], temp);
  }

  /** One rotation of the key array to the left. */
  method RotateLeft(pass: array<Byte>)
    requires pass.Length == 4
    modifies pass
    ensures pass[..] == Unrot(old(pass[..]))
  {
    var temp := pass[0];
    pass[0] := UnrotByte(pass[0], pass[1]);
    pass[1] := UnrotByte(pass[1], pass[2]);
    pass[2] := UnrotByte(pass[2], pass[3]);
    pass[3] := UnrotByte(pass[3], temp);
  }

  /** `gbox_encrypt8` and `gbox_encryptA` on the window at `at`. */
  method EncryptWindow(kind: Kind, buffer: array<Byte>, at: nat, pass: array<Byte>)
    requires at + 8 <= buffer.Length && pass.Length == 4 && buffer != pass
    modifies buffer, pass
    ensures buffer[..] == EncryptAt(kind, old(buffer[..]), at, old(pass[..]))
    ensures pass[..] == old(pass[..])
  {
    hide EncByte, EncStep, Rot;
    ghost var before, w0: Window, k0: Key := buffer[..], buffer[at..at + 8], pass[..];
    PutSelf(before, at, 8);
    for counter := 32 downto 0
      invariant buffer[..] == Put(before, at, buffer[at..at + 8])
      invariant Enc(kind, counter, buffer[at..at + 8], pass[..]) == Enc(kind, 32, w0, k0)
    {
      RotateRight(pass);
      StepInPlace(kind, true, buffer, at, counter % 8, pass, before);
    }
    KeySurvives(kind, w0, k0);
  }

  /** `gbox_decrypt8` and `gbox_decryptA` on the window at `at`. */
  method DecryptWindow(kind: Kind, buffer: array<Byte>, at: nat, pass: array<Byte>)
    requires at + 8 <= buffer.Length && pass.Length == 4 && buffer != pass
    modifies buffer, pass
    ensures buffer[..] == DecryptAt(kind, old(buffer[..]), at, old(pass[..]))
    ensures pass[..] == old(pass[..])
  {
    hide DecByte, DecStep, Unrot;
    ghost var before, w0: Window, k0: Key := buffer[..], buffer[at..at + 8], pass[..];
    PutSelf(before, at, 8);
    for counter := 0 to 32
      invariant buffer[..] == Put(before, at, buffer[at..at + 8])
      invariant Out(buffer[at..at + 8], pass[..]) == Dec(kind, counter, w0, k0)
    {
      StepInPlace(kind, false, buffer, at, counter % 8, pass, before);
      RotateLeft(pass);
    }
    KeySurvives(kind, w0, k0);
  }

  /** The body of the loops: the byte after position `i` of the window is rewritten. */
  method StepInPlace(kind: Kind, encrypt: bool, buffer: array<Byte>, at: nat, i: nat, pass: array<Byte>,
                     ghost before: seq<Byte>)
    requires at + 8 <= buffer.Length && i < 8 && pass.Length == 4 && buffer != pass
    requires |before| == buffer.Length && buffer[..] == Put(before, at, buffer[at..at + 8])
    modifies buffer
    ensures var w: Window := old(buffer[at..at + 8]);
            buffer[at..at + 8] == if encrypt then EncStep(kind, w, i, pass[..]) else DecStep(kind, w, i, pass[..])
    ensures buffer[..] == Put(before, at, buffer[at..at + 8])
  {
    hide EncByte, DecByte;
    hide Pow2, Chain, Unchain, Lookup, Number;
    var next := (i + 1) % 8;
    var z, w, ka, kb := buffer[at + i], buffer[at + next], pass[(i + 1) % 4], pass[i % 4];
    buffer[at + next] := if encrypt then EncByte(kind, z, w, ka, kb) else DecByte(kind, z, w, ka, kb);
  }

  method EncryptBufferB(buffer: array<Byte>, key: array<Byte>)
    requires buffer.Length >= 9 && key.Length == 4 && buffer != key
    modifies buffer, key
    ensures buffer[..] == EncryptB(old(buffer[..]), old(key[..])) && key[..] == old(key[..])
  {
    hide Xor, EncryptAt, DecryptAt;
    for counter := 0 to buffer.Length - 1
      invariant forall i :: 0 <= i < buffer.Length ==>
        buffer[i] == if i < counter then Chain(old(buffer[..]))[i] else old(buffer[i])
      invariant key[..] == old(key[..])
    {
      buffer[counter] := Xor(buffer[counter + 1], buffer[counter]);
    }
    assert buffer[..] == Chain(old(buffer[..]));
    EncryptWindow(Eight, buffer, 0, key);
    DecryptWindow(Eight, buffer, buffer.Length - 9, key);
  }

  method DecryptBufferB(buffer: array<Byte>, key: array<Byte>)
    requires buffer.Length >= 9 && key.Length == 4 && buffer != key
    modifies buffer, key
    ensures buffer[..] == DecryptB(old(buffer[..]), old(key[..])) && key[..] == old(key[..])
  {
    hide Xor, EncryptAt, DecryptAt;
    EncryptWindow(Eight, buffer, buffer.Length - 9, key);
    DecryptWindow(Eight, buffer, 0, key);
    ghost var coded := buffer[..];
    var n := buffer.Length;
    assert Unchain(coded[n - 1..]) == buffer[n - 1..];
    for counter := n - 1 downto 0
      invariant buffer[..counter] == coded[..counter]
      invariant buffer[counter..] == Unchain(coded[counter..])
      invariant key[..] == old(key[..])
    {
      assert coded[counter..][1..] == coded[counter + 1..];
      assert buffer[counter] == buffer[..counter + 1][counter] == coded[counter];
      ghost var tail := buffer[counter + 1..];
      buffer[counter] := Xor(buffer[counter + 1], buffer[counter]);
      assert buffer[counter..] == [buffer[counter]] + tail;
      assert buffer[..counter] == coded[..counter + 1][..counter];
    }
    assert coded[0..] == coded && buffer[0..] == buffer[..];
  }

  /** `gbox_encrypt`: the buffer is encrypted in place and the key is left as it was. */
  method EncryptBuffer(buffer: array<Byte>, key: array<Byte>)
    requires buffer.Length >= 9 && key.Length == 4 && buffer != key
    modifies buffer, key
    ensures buffer[..] == Encrypt(old(buffer[..]), old(key[..])) && key[..] == old(key[..])
  {
    EncryptWindow(A, buffer, 0, key);
    EncryptBufferB(buffer, key);
  }

  /** `gbox_decrypt`. */
  method DecryptBuffer(buffer: array<Byte>, key: array<Byte>)
    requires buffer.Length >= 9 && key.Length == 4 && buffer != key
    modifies buffer, key
    ensures buffer[..] == Decrypt(old(buffer[..]), old(key[..])) && key[..] == old(key[..])
  {
    DecryptBufferB(buffer, key);
    DecryptWindow(A, buffer, 0, key);
  }
}
