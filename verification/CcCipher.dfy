/**
 The stream cipher of a CCcam connection (oscam/oscam_8249/module-cccam.c).

 A block has two parts that behave very differently.  The _ring_ (key table,
 counter, sum) moves one step per byte and never looks at the data; the
 _state_ byte is a running exclusive-or of the plain bytes that went through.
 */
module CcCipher {
  import opened Bytes

  datatype Mode = Decrypt | Encrypt

  datatype RingData = RingData(table: seq<Byte>, counter: Byte, sum: Byte)

  type Ring = r: RingData | |r.table| == 256
    witness RingData(seq(256, _ => 0), 0, 0)

  datatype Block = Block(ring: Ring, state: Byte)

  // ---------------------------------------------------------------- the ring

  function SwapAt(t: seq<Byte>, i: nat, j: nat): (t': seq<Byte>)
    requires i < |t| && j < |t|
    ensures |t'| == |t|
  {
    t[i := t[j]][j := t[i]]
  }

  function Advance(r: Ring): Ring {
    var c := Add8(r.counter, 1);
    var s := Add8(r.sum, r.table[c]);
    RingData(SwapAt(r.table, c, s), c, s)
  }

  /** The key byte of a ring that has just been advanced. */
  function KeyByte(r: Ring): Byte {
    r.table[Add8(r.table[r.counter], r.table[r.sum])]
  }

  function AdvanceBy(r: Ring, n: nat): Ring
    decreases n
  {
    if n == 0 then r else AdvanceBy(Advance(r), n - 1)
  }

  // ------------------------------------------------------------ the ciphers

  /** The two ciphers differ in one line: CCcam mixes the state into the byte, RC4 does not. */
  datatype Cipher = CCcam | Rc4

  datatype Step = Step(out: Byte, block: Block)

  function CryptByte(c: Cipher, b: Block, z: Byte, mode: Mode): Step {
    var ring := Advance(b.ring);
    var o := if c == CCcam then Xor(Xor(z, KeyByte(ring)), b.state) else Xor(z, KeyByte(ring));
    Step(o, Block(ring, Xor(b.state, if mode == Encrypt then z else o)))
  }

  datatype Run = Run(out: seq<Byte>, block: Block)

  function CryptSeq(c: Cipher, b: Block, data: seq<Byte>, mode: Mode): (r: Run)
    ensures |r.out| == |data|
    decreases |data|
  {
    if data == [] then Run([], b)
    else
      var first := CryptByte(c, b, data[0], mode);
      var rest := CryptSeq(c, first.block, data[1..], mode);
      Run([first.out] + rest.out, rest.block)
  }

  // ------------------------------------------------------- the key schedule

  function Identity(): (t: seq<Byte>)
    ensures |t| == 256
  {
    seq(256, i requires 0 <= i < 256 => i)
  }

  function Schedule(key: seq<Byte>, t: seq<Byte>, i: nat, j: Byte): (t': seq<Byte>)
    requires |key| > 0 && |t| == 256 && i <= 256
    ensures |t'| == 256
    decreases 256 - i
  {
    if i == 256 then t
    else
      var j' := Add8(j, Add8(key[i % |key|], t[i]));
      Schedule(key, SwapAt(t, i, j'), i + 1, j')
  }

  function InitBlock(key: seq<Byte>): Block
    requires |key| > 0
  {
    Block(RingData(Schedule(key, Identity(), 0, 0), 0, 0), key[0])
  }

  // --------------------------------------- the block as the program holds it

  class CryptBlock {
    const keytable: array<Byte>
    var state: Byte
    var counter: Byte
    var sum: Byte

    ghost predicate Valid() {
      keytable.Length == 256
    }

    ghost function Value(): Block
      requires Valid()
      reads this, keytable
    {
      Block(RingData(keytable[..], counter, sum), state)
    }

    constructor ()
      ensures Valid() && fresh(keytable)
    {
      keytable := new Byte[256](_ => 0);
      state, counter, sum := 0, 0, 0;
    }

    /** SWAPC on two cells of the key table. */
    method Swap(i: nat, j: nat)
      requires Valid() && i < 256 && j < 256
      modifies keytable
      ensures keytable[..] == SwapAt(old(keytable[..]), i, j)
    {
      var p := keytable[i];
      keytable[i] := keytable[j];
      keytable[j] := p;
    }

    method Init(key: seq<Byte>)
      requires Valid() && |key| > 0
      modifies this, keytable
      ensures Value() == InitBlock(key)
    {
      for i := 0 to 256
        invariant forall k :: 0 <= k < i ==> keytable[k] == k
      {
        keytable[i] := i;
      }
      assert keytable[..] == Identity();
      var j: Byte := 0;
      for i := 0 to 256
        invariant Schedule(key, keytable[..], i, j) == Schedule(key, Identity(), 0, 0)
      {
        j := Add8(j, Add8(key[i % |key|], keytable[i]));
        Swap(i, j);
      }
      state := key[0];
      counter := 0;
      sum := 0;
    }

    /** memcpy of a whole block. */
    method CopyFrom(other: CryptBlock)
      requires Valid() && other.Valid() && keytable != other.keytable
      modifies this, keytable
      ensures Value() == old(other.Value())
    {
      forall i | 0 <= i < 256 {
        keytable[i] := other.keytable[i];
      }
      assert keytable[..] == other.keytable[..];
      state, counter, sum := other.state, other.counter, other.sum;
    }

    /** One step of the ring, and the key byte it yields. */
    method NextKeyByte() returns (k: Byte)
      requires Valid()
      modifies `counter, `sum, keytable
      ensures Value() == old(Value()).(ring := Advance(old(Value().ring)))
      ensures k == KeyByte(Value().ring)
    {
      counter := Add8(counter, 1);
      sum := Add8(sum, keytable[counter]);
      Swap(counter, sum);
      k := keytable[Add8(keytable[counter], keytable[sum])];
    }

    /** The body of the cipher loop: one byte through the cipher. */
    method CryptOne(cipher: Cipher, z: Byte, mode: Mode) returns (o: Byte)
      requires Valid()
      modifies this, keytable
      ensures Step(o, Value()) == CryptByte(cipher, old(Value()), z, mode)
    {
      var k := NextKeyByte();
      o := Xor(z, k);
      if cipher == CCcam {
        o := Xor(o, state);
      }
      state := Xor(state, if mode == Encrypt then z else o);
    }

    /** Runs one of the two ciphers over `data[from..from + len]`, in place. */
    method Crypt(cipher: Cipher, data: array<Byte>, from: nat, len: nat, mode: Mode)
      requires Valid() && data != keytable && from + len <= data.Length
      modifies this, keytable, data
      ensures var r := CryptSeq(cipher, old(Value()), old(data[from..from + len]), mode);
              Value() == r.block && data[..] == Put(old(data[..]), from, r.out)
    {
      hide CryptByte;
      ghost var before, input, b := data[..], data[from..from + len], Value();
      ghost var run := Run([], b);
      assert Put(before, from, []) == before;
      for i := 0 to len
        invariant run == CryptSeq(cipher, b, input[..i], mode) && run.block == Value()
        invariant data[..] == Put(before, from, run.out)
      {
        PutAt(before, from, run.out);
        CryptNext(cipher, b, input, i, mode);
        var o := CryptOne(cipher, data[from + i], mode);
        PutSnoc(before, from, run.out, o);
        data[from + i] := o;
        run := Run(run.out + [o], Value());
      }
      assert input[..len] == input;
    }
  }

  // ------------------------------------------------------------ properties

  /** Chunking: a message may be run through the cipher in pieces. */
  lemma {:induction false} CryptAppend(c: Cipher, b: Block, d: seq<Byte>, e: seq<Byte>, mode: Mode)
    ensures var first := CryptSeq(c, b, d, mode);
            var second := CryptSeq(c, first.block, e, mode);
            CryptSeq(c, b, d + e, mode) == Run(first.out + second.out, second.block)
    decreases |d|
  {
    hide CryptByte;
    if d == [] {
      assert d + e == e;
    } else {
      assert (d + e)[0] == d[0] && (d + e)[1..] == d[1..] + e;
      var first := CryptByte(c, b, d[0], mode);
      var rest := CryptSeq(c, first.block, d[1..], mode);
      CryptAppend(c, first.block, d[1..], e, mode);
      var last := CryptSeq(c, rest.block, e, mode).out;
      assert [first.out] + (rest.out + last) == ([first.out] + rest.out) + last;
    }
  }

  lemma CryptSnoc(c: Cipher, b: Block, d: seq<Byte>, z: Byte, mode: Mode)
    ensures var first := CryptSeq(c, b, d, mode);
            var last := CryptByte(c, first.block, z, mode);
            CryptSeq(c, b, d + [z], mode) == Run(first.out + [last.out], last.block)
  {
    CryptAppend(c, b, d, [z], mode);
  }

  lemma CryptNext(c: Cipher, b: Block, input: seq<Byte>, i: nat, mode: Mode)
    requires i < |input|
    ensures var run := CryptSeq(c, b, input[..i], mode);
            var next := CryptByte(c, run.block, input[i], mode);
            CryptSeq(c, b, input[..i + 1], mode) == Run(run.out + [next.out], next.block)
  {
    assert input[..i + 1] == input[..i] + [input[i]];
    CryptSnoc(c, b, input[..i], input[i], mode);
  }

  // -- the ring

  /** The ring after a run depends on the length of the run and on nothing else. */
  lemma {:induction false} RingIgnoresData(c: Cipher, b: Block, data: seq<Byte>, mode: Mode)
    ensures CryptSeq(c, b, data, mode).block.ring == AdvanceBy(b.ring, |data|)
    decreases |data|
  {
    hide Advance, KeyByte, Xor;
    if data != [] {
      RingIgnoresData(c, CryptByte(c, b, data[0], mode).block, data[1..], mode);
    }
  }

  ghost predicate Injective(t: seq<Byte>) {
    forall i, j :: 0 <= i < j < |t| ==> t[i] != t[j]
  }

  lemma SwapKeepsInjective(t: seq<Byte>, i: nat, j: nat)
    requires i < |t| && j < |t| && Injective(t)
    ensures Injective(SwapAt(t, i, j))
    ensures multiset(SwapAt(t, i, j)) == multiset(t)
  {
  }

  function ValuesOf(t: seq<Byte>): (s: set<int>)
    ensures forall v :: v in s ==> v in t && 0 <= v < 256
  {
    if t == [] then {} else ValuesOf(t[..|t| - 1]) + {t[|t| - 1]}
  }

  function Below(n: nat): (s: set<int>)
    ensures forall i :: i in s <==> 0 <= i < n
  {
    if n == 0 then {} else Below(n - 1) + {n - 1}
  }

  lemma {:induction false} BelowHasSize(n: nat)
    ensures |Below(n)| == n
  {
    if n > 0 {
      BelowHasSize(n - 1);
    }
  }

  lemma {:induction false} DistinctValues(t: seq<Byte>)
    requires Injective(t)
    ensures |ValuesOf(t)| == |t|
  {
    if t != [] {
      DistinctValues(t[..|t| - 1]);
    }
  }

  lemma SubsetOfSameSize(s: set<int>, t: set<int>)
    requires s <= t && |s| == |t|
    ensures s == t
  {
    assert t == s + (t - s);
  }

  /** A table of 256 different bytes holds every byte. */
  lemma InjectiveIsOnto(t: seq<Byte>, z: Byte)
    requires |t| == 256 && Injective(t)
    ensures z in t
  {
    hide ValuesOf, Below, Injective;
    DistinctValues(t);
    BelowHasSize(|t|);
    SubsetOfSameSize(ValuesOf(t), Below(|t|));
  }

  lemma {:induction false} SchedulePermutes(key: seq<Byte>, t: seq<Byte>, i: nat, j: Byte)
    requires |key| > 0 && |t| == 256 && i <= 256 && Injective(t)
    ensures Injective(Schedule(key, t, i, j))
    decreases 256 - i
  {
    if i < 256 {
      var j' := Add8(j, Add8(key[i % |key|], t[i]));
      SwapKeepsInjective(t, i, j');
      SchedulePermutes(key, SwapAt(t, i, j'), i + 1, j');
    }
  }

  lemma {:induction false} AdvancePermutes(r: Ring, n: nat)
    requires Injective(r.table)
    ensures Injective(AdvanceBy(r, n).table)
    decreases n
  {
    if n > 0 {
      var c := Add8(r.counter, 1);
      SwapKeepsInjective(r.table, c, Add8(r.sum, r.table[c]));
      AdvancePermutes(Advance(r), n - 1);
    }
  }

  /** From any key, after any run of either cipher, the key table is a permutation of 0..255. */
  lemma TableStaysPermutation(key: seq<Byte>, c: Cipher, data: seq<Byte>, mode: Mode)
    requires |key| > 0
    ensures var t := CryptSeq(c, InitBlock(key), data, mode).block.ring.table;
            Injective(t) && forall z: Byte :: z in t
  {
    SchedulePermutes(key, Identity(), 0, 0);
    RingIgnoresData(c, InitBlock(key), data, mode);
    AdvancePermutes(InitBlock(key).ring, |data|);
    var t := CryptSeq(c, InitBlock(key), data, mode).block.ring.table;
    forall z: Byte ensures z in t {
      InjectiveIsOnto(t, z);
    }
  }

  // -- the key stream

  /** One step: the counter goes up by one, the sum by the entry there, and these two entries change places. */
  lemma StepOfRing(r: Ring, k: nat)
    requires k < 256
    ensures var next, c := Advance(r), (r.counter + 1) % 256;
            var s := (r.sum + r.table[c]) % 256;
            && next.counter == c && next.sum == s
            && next.table[k] == r.table[if k == c then s else if k == s then c else k]
  {
  }

  /**
   A byte through a cipher, from the table as it was before: the key byte stands
   at the sum of the two entries that change places, and CCcam adds the state.
   */
  lemma ByteOfStream(c: Cipher, b: Block, z: Byte, mode: Mode)
    ensures var t, i := b.ring.table, (b.ring.counter + 1) % 256;
            var j := (b.ring.sum + t[i]) % 256;
            var at := Add8(t[j], t[i]);
            var k := t[if at == i then j else if at == j then i else at];
            CryptByte(c, b, z, mode).out == if c == CCcam then Xor(Xor(z, k), b.state) else Xor(z, k)
  {
    hide Xor;
  }

  /** The table entries that `n` steps add to the sum. */
  function Read(r: Ring, n: nat): nat {
    if n == 0 then 0 else Read(r, n - 1) + AdvanceBy(r, n - 1).table[(r.counter + n) % 256]
  }

  lemma {:induction false} AdvanceLast(r: Ring, n: nat)
    requires n > 0
    ensures AdvanceBy(r, n) == Advance(AdvanceBy(r, n - 1))
    decreases n
  {
    hide Advance;
    if n > 1 {
      AdvanceLast(Advance(r), n - 1);
    }
  }

  /** After `n` steps the counter has gone up by `n`, and the sum by the entries read. */
  lemma {:induction false} CounterAndSum(r: Ring, n: nat)
    ensures AdvanceBy(r, n).counter == (r.counter + n) % 256
    ensures AdvanceBy(r, n).sum == (r.sum + Read(r, n)) % 256
  {
    hide Advance;
    if n > 0 {
      hide AdvanceBy;
      var before := AdvanceBy(r, n - 1);
      CounterAndSum(r, n - 1);
      AdvanceLast(r, n);
      StepOfRing(before, 0);
      ModTwice(r.counter + n - 1, 1);
      ModTwice(r.sum + Read(r, n - 1), before.table[(r.counter + n) % 256]);
    }
  }

  lemma ModTwice(a: int, b: int)
    ensures (a % 256 + b) % 256 == (a + b) % 256
  {
  }

  /** A known answer: three zero bytes through the table of the identity. */
  lemma KnownAnswer()
    ensures CryptSeq(Rc4, Block(RingData(Identity(), 0, 0), 0), [0, 0, 0], Encrypt).out == [2, 5, 7]
  {
    var b0 := Block(RingData(Identity(), 0, 0), 0);
    var s1 := CryptByte(Rc4, b0, 0, Encrypt);
    XorZero(2);
    XorZero(5);
    XorZero(7);
    XorZero(0);
    assert s1.out == 2;
    var s2 := CryptByte(Rc4, s1.block, 0, Encrypt);
    assert s2.out == 5;
    var s3 := CryptByte(Rc4, s2.block, 0, Encrypt);
    assert s3.out == 7;
    assert [0, 0, 0][1..] == [0, 0] && [0, 0][1..] == [0] && [0][1..] == [];
  }

  /** Keys whose bytes from the third on are 255, 254, .., 2: from there on every entry stays where it is. */
  function StillKey(first: Byte): (k: seq<Byte>)
    ensures |k| == 256
  {
    seq(256, i requires 0 <= i < 256 => if i == 0 then first else (257 - i) % 256)
  }

  lemma {:induction false} StaysFrom(first: Byte, t: seq<Byte>, i: nat)
    requires 1 <= i <= 256 && |t| == 256 && forall k :: i <= k < 256 ==> t[k] == k
    ensures Schedule(StillKey(first), t, i, i - 1) == t
    decreases 256 - i
  {
    if i < 256 {
      assert Add8(i - 1, Add8(StillKey(first)[i % 256], t[i])) == i;
      assert SwapAt(t, i, i) == t;
      hide StillKey, Add8, SwapAt;
      StaysFrom(first, t, i + 1);
    }
  }

  /** A key written twice is the same key: its bytes are used in turn. */
  lemma {:induction false} KeyRepeats(key: seq<Byte>, t: seq<Byte>, i: nat, j: Byte)
    requires |key| > 0 && |t| == 256 && i <= 256
    ensures Schedule(key + key, t, i, j) == Schedule(key, t, i, j)
    decreases 256 - i
  {
    if i < 256 {
      SameKeyByte(key, i);
      var j' := Add8(j, Add8(key[i % |key|], t[i]));
      KeyRepeats(key, SwapAt(t, i, j'), i + 1, j');
    }
  }

  lemma SameKeyByte(key: seq<Byte>, i: nat)
    requires |key| > 0
    ensures (key + key)[i % |key + key|] == key[i % |key|]
  {
    var n := |key|;
    TwiceAround(i, n, i / |key + key|, i % |key + key|);
  }

  lemma TwiceAround(i: nat, n: nat, q: nat, r: nat)
    requires n > 0 && i == (n + n) * q + r && r < n + n
    ensures i % n == if r < n then r else r - n
  {
    var even := n * (2 * q);
    assert even == (n + n) * q;
    assert n * (2 * q + 1) == even + n;
    if r < n {
      DivUnique(i, n, 2 * q, r);
    } else {
      DivUnique(i, n, 2 * q + 1, r - n);
    }
  }

  lemma OneRound(key: seq<Byte>, t: seq<Byte>, i: nat, j: Byte, next: Byte)
    requires |key| == 256 && |t| == 256 && i < 256 && next == Add8(j, Add8(key[i], t[i]))
    ensures Schedule(key, t, i, j) == Schedule(key, SwapAt(t, i, next), i + 1, next)
  {
    hide Add8, SwapAt;
    assert i % |key| == i;
  }

  /** Two known tables: the key 0, 0, 255, 254, .., 2 leaves every entry in place, and 1, 0, 255, 254, .., 2 lets the first two change places. */
  lemma KnownSchedule()
    ensures var b := InitBlock(StillKey(0));
            b.ring.counter == 0 && b.ring.sum == 0 && b.state == 0 && forall i :: 0 <= i < 256 ==> b.ring.table[i] == i
    ensures var b := InitBlock(StillKey(1));
            && b.ring.counter == 0 && b.ring.sum == 0 && b.state == 1
            && forall i :: 0 <= i < 256 ==> b.ring.table[i] == if i == 0 then 1 else if i == 1 then 0 else i
  {
    hide Schedule;
    OneRound(StillKey(0), Identity(), 0, 0, 0);
    assert SwapAt(Identity(), 0, 0) == Identity();
    StaysFrom(0, Identity(), 1);
    var t := SwapAt(Identity(), 0, 1);
    OneRound(StillKey(1), Identity(), 0, 0, 1);
    OneRound(StillKey(1), t, 1, 1, 1);
    assert SwapAt(t, 1, 1) == t;
    StaysFrom(1, t, 2);
  }

  /** The first byte through a new block: of the key itself it sees the first byte, as the state. */
  lemma FirstByteOfKey(key: seq<Byte>, z: Byte)
    requires key != []
    ensures var r := InitBlock(key).ring;
            && CryptByte(CCcam, InitBlock(key), z, Encrypt).out == Xor(Xor(z, KeyByte(Advance(r))), key[0])
            && r.counter == 0 && r.sum == 0
  {
  }

  // -- the state

  /** What a run adds to the state: the exclusive-or of its plain bytes. */
  lemma {:induction false} StateIsXorOfPlain(c: Cipher, b: Block, data: seq<Byte>, mode: Mode)
    ensures var r := CryptSeq(c, b, data, mode);
            r.block.state == Xor(b.state, XorAll(if mode == Encrypt then data else r.out))
    decreases |data|
  {
    hide Advance, KeyByte, Xor;
    if data == [] {
      XorZero(b.state);
    } else {
      var first := CryptByte(c, b, data[0], mode);
      var rest := CryptSeq(c, first.block, data[1..], mode);
      StateIsXorOfPlain(c, first.block, data[1..], mode);
      assert ([first.out] + rest.out)[1..] == rest.out;
      XorAssoc(b.state, if mode == Encrypt then data[0] else first.out,
               XorAll(if mode == Encrypt then data[1..] else rest.out));
    }
  }

  /**
   Two ends that share a ring but disagree in their state agree again after a
   single byte: the sender's new state is the wire byte without its key byte,
   and so is the receiver's.
   */
  lemma OneByteResync(ring: Ring, s: Byte, t: Byte, z: Byte)
    ensures var e := CryptByte(CCcam, Block(ring, s), z, Encrypt);
            var d := CryptByte(CCcam, Block(ring, t), e.out, Decrypt);
            d.out == Xor(z, Xor(s, t)) && d.block == e.block
  {
    var k := KeyByte(Advance(ring));
    hide Advance, KeyByte, Xor;
    XorFourTerms(z, k, s, t);
  }

  /** Equal blocks: decryption gives the plain bytes back and leaves both ends equal. */
  lemma {:induction false} RoundTrip(c: Cipher, b: Block, data: seq<Byte>)
    ensures var e := CryptSeq(c, b, data, Encrypt);
            CryptSeq(c, b, e.out, Decrypt) == Run(data, e.block)
    decreases |data|
  {
    hide Advance, KeyByte, Xor;
    if data != [] {
      var e := CryptByte(c, b, data[0], Encrypt);
      XorFourTerms(data[0], KeyByte(Advance(b.ring)), b.state, b.state);
      XorCancel(data[0], KeyByte(Advance(b.ring)));
      XorCancel(b.state, b.state);
      XorZero(data[0]);
      assert CryptByte(c, b, e.out, Decrypt) == Step(data[0], e.block);
      RoundTrip(c, e.block, data[1..]);
    }
  }

  /** Encrypting what was decrypted gives the wire bytes back. */
  lemma {:induction false} EncryptUndoesDecrypt(b: Block, wire: seq<Byte>)
    ensures var d := CryptSeq(CCcam, b, wire, Decrypt);
            CryptSeq(CCcam, b, d.out, Encrypt) == Run(wire, d.block)
    decreases |wire|
  {
    hide Advance, KeyByte, Xor;
    if wire != [] {
      var d := CryptByte(CCcam, b, wire[0], Decrypt);
      XorFourTerms(wire[0], KeyByte(Advance(b.ring)), b.state, b.state);
      XorCancel(b.state, b.state);
      XorZero(wire[0]);
      EncryptUndoesDecrypt(d.block, wire[1..]);
      var rest := CryptSeq(CCcam, d.block, wire[1..], Decrypt);
      assert ([d.out] + rest.out)[1..] == rest.out;
    }
  }

  /**
   Resynchronisation.  With equal rings and any two states, everything after
   the first byte arrives intact, the first byte is off by exactly the
   difference of the states, and afterwards both ends are equal in full.
   */
  lemma Resync(ring: Ring, s: Byte, t: Byte, data: seq<Byte>)
    requires data != []
    ensures var e := CryptSeq(CCcam, Block(ring, s), data, Encrypt);
            CryptSeq(CCcam, Block(ring, t), e.out, Decrypt)
            == Run([Xor(data[0], Xor(s, t))] + data[1..], e.block)
  {
    hide CryptByte;
    var first := CryptByte(CCcam, Block(ring, s), data[0], Encrypt);
    OneByteResync(ring, s, t, data[0]);
    RoundTrip(CCcam, first.block, data[1..]);
  }
}
