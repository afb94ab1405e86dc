/**
 The CCcam login: key set-up from one seed at both ends, the three raw
 messages of the client (hash, user, password proof) and the server's answer.
 SHA-1 appears only through its result, the same twenty bytes at both ends.
 */
module CcHandshake {
  import opened Bytes
  import opened CcCipher
  import opened CcSession
  import opened Sequences
  import opened CcConnection

  const MAGIC: seq<Byte> := [67, 67, 99, 97, 109, 0]  // "CCcam" and its terminator

  // ------------------------------------------------------------- key set-up

  function XorSeedAt(seed: seq<Byte>, i: nat): Byte
    requires |seed| == 16 && i < 16
  {
    if i >= 8 then Mul8(i - 8, seed[i - 8]) else if i <= 5 then Xor(seed[i], MAGIC[i]) else seed[i]
  }

  /** `cc_xor`: masks the seed with the magic word and fills its second half. */
  function XorSeed(seed: seq<Byte>): (r: seq<Byte>)
    requires |seed| == 16
    ensures |r| == 16
  {
    seq(16, i requires 0 <= i < 16 => XorSeedAt(seed, i))
  }

  function Mul8(a: int, b: int): Byte {
    a * b % 256
  }

  datatype Keys = Keys(first: Block, second: Block, proof: seq<Byte>)

  /** The block keyed by the hash, the block keyed by the seed, and the hash as it is sent. */
  function SetUp(seed: seq<Byte>, hash: seq<Byte>): Keys
    requires |seed| == 16 && |hash| == 20
  {
    var first := CryptSeq(CCcam, InitBlock(hash), XorSeed(seed), Decrypt);
    var second := CryptSeq(CCcam, InitBlock(first.out), hash, Decrypt);
    Keys(first.block, second.block, second.out)
  }

  // ------------------------------------------------------------- the client

  function Cut(s: seq<Byte>, n: nat): seq<Byte> {
    if |s| <= n then s else s[..n]
  }

  /** A string in a zeroed buffer, of which the first twenty bytes are sent. */
  function Padded20(s: seq<Byte>): (r: seq<Byte>)
    ensures |r| == 20
  {
    Cut(s, 20) + seq(20 - |Cut(s, 20)|, _ => 0)
  }

  /** The bytes of the three login messages, and the client's sending block afterwards. */
  function ClientLogin(b: Block, proof: seq<Byte>, user: seq<Byte>, pwd: seq<Byte>): Run {
    var hash := CryptSeq(CCcam, b, proof, Encrypt);
    var name := CryptSeq(CCcam, hash.block, Padded20(user), Encrypt);
    var magic := CryptSeq(CCcam, AfterPassword(name.block, Cut(pwd, 63)), MAGIC, Encrypt);
    Run(hash.out + name.out + magic.out, magic.block)
  }

  /** The password itself is never sent; both ends run it through their block. */
  function AfterPassword(b: Block, pwd: seq<Byte>): Block {
    CryptSeq(CCcam, b, pwd, Encrypt).block
  }

  // ------------------------------------------------------------- the server

  datatype Account = Account(user: seq<Byte>, pwd: seq<Byte>)

  /** A C string: the bytes before the first zero. */
  function CString(s: seq<Byte>): seq<Byte> {
    if s == [] || s[0] == 0 then [] else [s[0]] + CString(s[1..])
  }

  predicate Legal(user: seq<Byte>) {
    forall i :: 0 <= i < |user| ==> !(0 < user[i] < 0x20)
  }

  predicate SameUser(user: seq<Byte>, a: Account) {
    Cut(user, 20) == Cut(a.user, 20)
  }

  datatype Verdict = Accepted(index: nat, block: Block) | Rejected(block: Block)

  /** One password check: the proof in `buf` decrypted behind the account's password. */
  function Check(saved: Block, buf: seq<Byte>, a: Account): Run {
    CryptSeq(CCcam, AfterPassword(saved, Cut(a.pwd, 64)), buf, Decrypt)
  }

  /**
   The account loop from position `i` on.  A failed check leaves its own output
   in the buffer, and that is what the next account with the same user decrypts.
   */
  function FindAccount(saved: Block, last: Block, buf: seq<Byte>, user: seq<Byte>, accounts: seq<Account>, i: nat): (v: Verdict)
    requires i <= |accounts|
    ensures v.Accepted? ==> i <= v.index < |accounts|
    decreases |accounts| - i
  {
    if i == |accounts| then Rejected(last)
    else if !SameUser(user, accounts[i]) then FindAccount(saved, last, buf, user, accounts, i + 1)
    else
      var r := Check(saved, buf, accounts[i]);
      if r.out == MAGIC then Accepted(i, r.block)
      else FindAccount(saved, r.block, r.out, user, accounts, i + 1)
  }

  datatype Login = Gone(code: int) | IllegalUser | Checked(user: seq<Byte>, verdict: Verdict)

  /** The server's reading of the three login messages. */
  function ServerLogin(b: Block, wire: seq<Byte>, accounts: seq<Account>): Login {
    if |wire| < 20 then Gone(-1)
    else
      var hash := CryptSeq(CCcam, b, wire[..20], Decrypt);
      if |wire| < 40 then Gone(-2)
      else
        var name := CryptSeq(CCcam, hash.block, wire[20..40], Decrypt);
        var user := CString(name.out);
        if !Legal(user) then IllegalUser
        else if |wire| < 46 then Gone(-2)
        else Checked(user, FindAccount(name.block, name.block, wire[40..46], user, accounts, 0))
  }

  // ---------------------------------------------------------------- lemmas

  // -- the key set-up in plain terms

  /**
   The masked seed, bit by bit: the first six bytes are added to "CCcam" and a
   zero, the next two stay, and each byte of the second half is its index times
   the byte of the first half as it was before.
   */
  lemma SeedIs(seed: seq<Byte>, i: nat, j: nat)
    requires |seed| == 16 && i < 8
    ensures var r, magic := XorSeed(seed), [67, 67, 99, 97, 109, 0, 0, 0];
            Bit(r[i], j) == (Bit(seed[i], j) + Bit(magic[i], j)) % 2 && r[8 + i] == i * seed[i] % 256
  {
    hide Xor;
    if i < 6 {
      XorByteBit(seed[i], MAGIC[i], j);
    } else {
      NoBits(j);
    }
  }

  lemma {:induction false} NoBits(j: nat)
    ensures Bit(0, j) == 0
  {
    DivUnique(0, Pow2(j), 0, 0);
  }

  /**
   The key set-up backwards: there is a second key that encrypts, under the
   hash, to the masked seed and leaves the first block; and under that second
   key the proof encrypts to the hash and leaves the second block.
   */
  lemma SetUpUndone(seed: seq<Byte>, hash: seq<Byte>) returns (key: seq<Byte>)
    requires |seed| == 16 && |hash| == 20
    ensures var keys := SetUp(seed, hash);
            && |key| == 16 && |keys.proof| == 20
            && CryptSeq(CCcam, InitBlock(hash), key, Encrypt) == Run(XorSeed(seed), keys.first)
            && CryptSeq(CCcam, InitBlock(key), keys.proof, Encrypt) == Run(hash, keys.second)
  {
    hide CryptSeq, InitBlock;
    key := CryptSeq(CCcam, InitBlock(hash), XorSeed(seed), Decrypt).out;
    EncryptUndoesDecrypt(InitBlock(hash), XorSeed(seed));
    EncryptUndoesDecrypt(InitBlock(key), hash);
  }

  // -- names and short logins

  /** Of two names the server compares twenty bytes. */
  lemma SameUserIff(user: seq<Byte>, a: Account)
    ensures SameUser(user, a) <==>
            user == a.user || (|user| >= 20 && |a.user| >= 20 && forall i :: 0 <= i < 20 ==> user[i] == a.user[i])
  {
    if |user| >= 20 && |a.user| >= 20 {
      assert SameUser(user, a) <==> user[..20] == a.user[..20];
      if SameUser(user, a) {
        assert forall i :: 0 <= i < 20 ==> user[i] == user[..20][i] == a.user[..20][i];
      }
    }
  }

  /** A connection that ends within one of the three messages, before or behind a name that is legal. */
  lemma ShortLogin(b: Block, wire: seq<Byte>, accounts: seq<Account>)
    requires |wire| < 46
    ensures var login := ServerLogin(b, wire, accounts);
            if |wire| < 20 then login == Gone(-1) else login == Gone(-2) || (|wire| >= 40 && login == IllegalUser)
  {
  }

  /** What a client sends behind a password, and its block afterwards. */
  function Proof(saved: Block, pwd: seq<Byte>): Run {
    CryptSeq(CCcam, AfterPassword(saved, pwd), MAGIC, Encrypt)
  }

  /** A check succeeds on exactly the bytes that a client sends behind the account's password. */
  lemma CheckSucceedsIff(saved: Block, buf: seq<Byte>, a: Account)
    ensures var sent := Proof(saved, Cut(a.pwd, 64));
            && (Check(saved, buf, a).out == MAGIC <==> buf == sent.out)
            && (buf == sent.out ==> Check(saved, buf, a).block == sent.block)
  {
    hide CryptSeq;
    var b := AfterPassword(saved, Cut(a.pwd, 64));
    RoundTrip(CCcam, b, MAGIC);
    EncryptUndoesDecrypt(b, buf);
  }

  /** The magic word as an end with another password of the same length reads it. */
  function Spoilt(difference: Byte): seq<Byte> {
    [Xor(MAGIC[0], difference)] + MAGIC[1..]
  }

  function Difference(p: seq<Byte>, q: seq<Byte>): Byte {
    Xor(XorAll(q), XorAll(p))
  }

  lemma AfterPasswordIs(b: Block, pwd: seq<Byte>)
    ensures AfterPassword(b, pwd) == Block(AdvanceBy(b.ring, |pwd|), Xor(b.state, XorAll(pwd)))
  {
    hide CryptSeq, Xor;
    RingIgnoresData(CCcam, b, pwd, Encrypt);
    StateIsXorOfPlain(CCcam, b, pwd, Encrypt);
  }

  /**
   Passwords of one length: of the account's password the check sees no more
   than the exclusive-or of its bytes.
   */
  lemma OtherPasswordReads(saved: Block, a: Account, q: seq<Byte>)
    requires |Cut(a.pwd, 64)| == |q|
    ensures Check(saved, Proof(saved, q).out, a) == Run(Spoilt(Difference(Cut(a.pwd, 64), q)), Proof(saved, q).block)
  {
    hide CryptSeq, Xor, XorAll, AdvanceBy;
    var p := Cut(a.pwd, 64);
    AfterPasswordIs(saved, p);
    AfterPasswordIs(saved, q);
    var x, y, st := XorAll(q), XorAll(p), saved.state;
    XorSwap(st, x, st, y);
    XorCancel(st, st);
    XorZero(Xor(x, y));
    XorCancel(x, st);
    Resync(AdvanceBy(saved.ring, |q|), Xor(st, x), Xor(st, y), MAGIC);
  }

  lemma SpoiltIff(difference: Byte)
    ensures Spoilt(difference) == MAGIC <==> difference == 0
  {
    hide Xor;
    XorCancel(difference, MAGIC[0]);
    XorCancel(0, MAGIC[0]);
    XorZero(MAGIC[0]);
    assert Spoilt(difference)[0] == Xor(MAGIC[0], difference);
  }

  lemma DifferenceIff(p: seq<Byte>, q: seq<Byte>)
    ensures Difference(p, q) == 0 <==> XorAll(p) == XorAll(q)
  {
    hide Xor, XorAll;
    XorCancel(XorAll(p), XorAll(q));
    XorCancel(XorAll(q), XorAll(q));
  }

  /** A client with a password of the account's length gets in exactly when the bytes of both add up alike. */
  lemma SameLengthAcceptedIff(saved: Block, a: Account, q: seq<Byte>)
    requires |Cut(a.pwd, 64)| == |q|
    ensures Check(saved, Proof(saved, q).out, a).out == MAGIC <==> XorAll(Cut(a.pwd, 64)) == XorAll(q)
  {
    hide CryptSeq, Xor, XorAll, Spoilt, Difference;
    OtherPasswordReads(saved, a, q);
    SpoiltIff(Difference(Cut(a.pwd, 64), q));
    DifferenceIff(Cut(a.pwd, 64), q);
  }

  /** So the order of the bytes does not matter: the password "ba" lets in a client with "ab". */
  lemma SwappedPasswordAccepted(saved: Block, user: seq<Byte>, x: Byte, y: Byte)
    ensures Check(saved, Proof(saved, [x, y]).out, Account(user, [y, x])).out == MAGIC
  {
    hide CryptSeq, Xor;
    SameLengthAcceptedIff(saved, Account(user, [y, x]), [x, y]);
    XorAllOfTwo(x, y);
    XorAllOfTwo(y, x);
    XorComm(x, y);
  }

  lemma XorAllOfTwo(x: Byte, y: Byte)
    ensures XorAll([x, y]) == Xor(x, y)
  {
    hide Xor;
    assert [x, y][1..] == [y] && [y][1..] == [];
    assert XorAll([y]) == Xor(y, XorAll([]));
    XorZero(y);
  }

  /**
   The server cuts a password at 64 bytes, the client at 63: from 64 bytes on
   the server's key stream is one step ahead of the client's.
   */
  lemma LongPasswordsPart(b: Block, pwd: seq<Byte>)
    requires |pwd| >= 64
    ensures AfterPassword(b, Cut(pwd, 64)).ring == Advance(AfterPassword(b, Cut(pwd, 63)).ring)
  {
    hide CryptSeq, Advance, Xor;
    AfterPasswordIs(b, Cut(pwd, 64));
    AfterPasswordIs(b, Cut(pwd, 63));
    AdvanceOnce(b.ring, 63);
  }

  lemma {:induction false} AdvanceOnce(r: Ring, n: nat)
    ensures AdvanceBy(r, n + 1) == Advance(AdvanceBy(r, n))
    decreases n
  {
    hide Advance;
    if n > 0 {
      AdvanceOnce(Advance(r), n - 1);
    }
  }

  /** What the accounts before `k` have made of the proof, if all of them refuse it. */
  function BufferAt(saved: Block, buf: seq<Byte>, user: seq<Byte>, accounts: seq<Account>, i: nat, k: nat): seq<Byte>
    requires i <= k <= |accounts|
    decreases k - i
  {
    if i == k then buf
    else BufferAt(saved, if SameUser(user, accounts[i]) then Check(saved, buf, accounts[i]).out else buf,
                  user, accounts, i + 1, k)
  }

  predicate RefusedBefore(saved: Block, buf: seq<Byte>, user: seq<Byte>, accounts: seq<Account>, i: nat, k: nat)
    requires i <= k <= |accounts|
    decreases k - i
  {
    i == k ||
    (if SameUser(user, accounts[i]) then
       var r := Check(saved, buf, accounts[i]).out;
       r != MAGIC && RefusedBefore(saved, r, user, accounts, i + 1, k)
     else RefusedBefore(saved, buf, user, accounts, i + 1, k))
  }

  /**
   The exact rule for an account with the client's user and password: it is
   accepted if and only if the checks before it have left the proof as it was
   received.  The program does not restore the buffer between two checks.
   */
  lemma {:induction false} RightAccountAcceptedIff(saved: Block, last: Block, buf: seq<Byte>, user: seq<Byte>,
                                                   accounts: seq<Account>, i: nat, k: nat, pwd: seq<Byte>)
    requires i <= k < |accounts|
    requires RefusedBefore(saved, buf, user, accounts, i, k)
    requires SameUser(user, accounts[k]) && Cut(accounts[k].pwd, 64) == Cut(pwd, 63)
    ensures var sent := Proof(saved, Cut(pwd, 63));
            FindAccount(saved, last, buf, user, accounts, i) == Accepted(k, sent.block)
            <==> BufferAt(saved, buf, user, accounts, i, k) == sent.out
    decreases k - i
  {
    hide CryptSeq, Check;
    if i == k {
      CheckSucceedsIff(saved, buf, accounts[k]);
    } else if SameUser(user, accounts[i]) {
      var r := Check(saved, buf, accounts[i]);
      RightAccountAcceptedIff(saved, r.block, r.out, user, accounts, i + 1, k, pwd);
    } else {
      RightAccountAcceptedIff(saved, last, buf, user, accounts, i + 1, k, pwd);
    }
  }

  /** Without an earlier account of the same user nothing has touched the proof. */
  lemma {:induction false} FirstMatchUntouched(saved: Block, buf: seq<Byte>, user: seq<Byte>,
                                               accounts: seq<Account>, i: nat, k: nat)
    requires i <= k <= |accounts|
    requires forall j :: i <= j < k ==> !SameUser(user, accounts[j])
    ensures RefusedBefore(saved, buf, user, accounts, i, k)
    ensures BufferAt(saved, buf, user, accounts, i, k) == buf
    decreases k - i
  {
    if i < k {
      FirstMatchUntouched(saved, buf, user, accounts, i + 1, k);
    }
  }

  /** A client that may appear on the server's list: a printable name without zeros. */
  predicate PlainName(user: seq<Byte>) {
    forall i :: 0 <= i < |user| ==> user[i] >= 0x20
  }

  lemma {:induction false} CStringOfPadded(s: seq<Byte>, n: nat)
    requires forall i :: 0 <= i < |s| ==> s[i] != 0
    ensures CString(s + seq(n, _ => 0)) == s
    decreases |s|
  {
    var padded := s + seq(n, _ => 0);
    if s != [] {
      assert padded[1..] == s[1..] + seq(n, _ => 0);
      CStringOfPadded(s[1..], n);
    }
  }

  /** The block of either end after the client's hash and name. */
  function AfterName(b: Block, proof: seq<Byte>, user: seq<Byte>): Block {
    CryptSeq(CCcam, CryptSeq(CCcam, b, proof, Encrypt).block, Padded20(user), Encrypt).block
  }

  /** Whatever the password, the server reads the client's name and checks the proof it sent. */
  lemma LoginIsRead(b: Block, proof: seq<Byte>, user: seq<Byte>, pwd: seq<Byte>, accounts: seq<Account>, tail: seq<Byte>)
    requires |proof| == 20 && PlainName(user)
    ensures var client, name := ClientLogin(b, proof, user, pwd), AfterName(b, proof, user);
            var sent := Proof(name, Cut(pwd, 63));
            && |client.out| == 46 && client.block == sent.block
            && ServerLogin(b, client.out + tail, accounts) == Checked(Cut(user, 20), FindAccount(name, name, sent.out, Cut(user, 20), accounts, 0))
  {
    hide CryptSeq, FindAccount;
    var hash := CryptSeq(CCcam, b, proof, Encrypt);
    var name := CryptSeq(CCcam, hash.block, Padded20(user), Encrypt);
    var magic := CryptSeq(CCcam, AfterPassword(name.block, Cut(pwd, 63)), MAGIC, Encrypt);
    RoundTrip(CCcam, b, proof);
    RoundTrip(CCcam, hash.block, Padded20(user));
    CStringOfPadded(Cut(user, 20), 20 - |Cut(user, 20)|);
    var wire := hash.out + name.out + magic.out + tail;
    assert wire[..20] == hash.out && wire[20..40] == name.out && wire[40..46] == magic.out;
  }

  lemma SameCut(user: seq<Byte>, accounts: seq<Account>)
    ensures forall j :: 0 <= j < |accounts| ==> SameUser(Cut(user, 20), accounts[j]) == SameUser(user, accounts[j])
  {
  }

  /**
   The login theorem.  Whatever the seed: an honest client whose user first
   matches account `k`, with that account's password, is accepted as `k`; the
   server has read its name, and the block the server decrypts with is the one
   the client encrypts with.  (A password of 64 bytes or more is cut at 64
   bytes by the server and at 63 by the client, so it cannot meet the premise.)
   */
  lemma LoginSucceeds(b: Block, proof: seq<Byte>, user: seq<Byte>, pwd: seq<Byte>, accounts: seq<Account>,
                      k: nat, tail: seq<Byte>)
    requires |proof| == 20 && PlainName(user)
    requires k < |accounts| && SameUser(user, accounts[k]) && Cut(accounts[k].pwd, 64) == Cut(pwd, 63)
    requires forall j :: 0 <= j < k ==> !SameUser(user, accounts[j])
    ensures var client := ClientLogin(b, proof, user, pwd);
            |client.out| == 46 &&
            ServerLogin(b, client.out + tail, accounts) == Checked(Cut(user, 20), Accepted(k, client.block))
  {
    hide CryptSeq, Check, FindAccount;
    var name := AfterName(b, proof, user);
    var sent := Proof(name, Cut(pwd, 63));
    LoginIsRead(b, proof, user, pwd, accounts, tail);
    SameCut(user, accounts);
    FirstMatchUntouched(name, sent.out, Cut(user, 20), accounts, 0, k);
    RightAccountAcceptedIff(name, name, sent.out, Cut(user, 20), accounts, 0, k, pwd);
  }

  /** Accounts of other users are passed over. */
  lemma {:induction false} PassesOver(saved: Block, last: Block, buf: seq<Byte>, user: seq<Byte>, accounts: seq<Account>, i: nat, k: nat)
    requires i <= k <= |accounts| && forall j :: i <= j < k ==> !SameUser(user, accounts[j])
    ensures FindAccount(saved, last, buf, user, accounts, i) == FindAccount(saved, last, buf, user, accounts, k)
    decreases k - i
  {
    hide SameUser, Check;
    if i < k {
      PassesOver(saved, last, buf, user, accounts, i + 1, k);
    }
  }

  /** One account of the client's name: accepted or rejected by the exclusive-or of the passwords. */
  lemma OnlyAccountIff(saved: Block, last: Block, user: seq<Byte>, accounts: seq<Account>, k: nat, q: seq<Byte>)
    requires k < |accounts| && forall j :: 0 <= j < |accounts| ==> (SameUser(user, accounts[j]) <==> j == k)
    requires |Cut(accounts[k].pwd, 64)| == |q|
    ensures var v := FindAccount(saved, last, Proof(saved, q).out, user, accounts, 0);
            if XorAll(Cut(accounts[k].pwd, 64)) == XorAll(q) then v == Accepted(k, Proof(saved, q).block) else v.Rejected?
  {
    hide CryptSeq, SameUser, Check, XorAll, Proof, Xor;
    var a, sent := accounts[k], Proof(saved, q);
    PassesOver(saved, last, sent.out, user, accounts, 0, k);
    SameLengthAcceptedIff(saved, a, q);
    OtherPasswordReads(saved, a, q);
    var r := Check(saved, sent.out, a);
    PassesOver(saved, r.block, r.out, user, accounts, k + 1, |accounts|);
  }

  /**
   The login of any client, right password or wrong, whose name belongs to one
   account with a password of the same length: it is let in if and only if the
   two passwords add up alike.
   */
  lemma LoginAcceptedIff(b: Block, proof: seq<Byte>, user: seq<Byte>, pwd: seq<Byte>, accounts: seq<Account>,
                         k: nat, tail: seq<Byte>)
    requires |proof| == 20 && PlainName(user)
    requires k < |accounts| && forall j :: 0 <= j < |accounts| ==> (SameUser(user, accounts[j]) <==> j == k)
    requires |Cut(accounts[k].pwd, 64)| == |Cut(pwd, 63)|
    ensures var client := ClientLogin(b, proof, user, pwd);
            var login := ServerLogin(b, client.out + tail, accounts);
            && login.Checked? && login.user == Cut(user, 20)
            && if XorAll(Cut(accounts[k].pwd, 64)) == XorAll(Cut(pwd, 63)) then login.verdict == Accepted(k, client.block)
               else login.verdict.Rejected?
  {
    hide CryptSeq, FindAccount, XorAll;
    var name := AfterName(b, proof, user);
    LoginIsRead(b, proof, user, pwd, accounts, tail);
    SameCut(user, accounts);
    OnlyAccountIff(name, name, Cut(user, 20), accounts, k, Cut(pwd, 63));
  }

  /**
   The exact rule for two accounts of one name.  The first one's password has
   the length of the client's and adds up differently; the second one's is the
   client's.  The first check leaves the magic word with its first byte spoilt,
   and that is what the second check decrypts: it succeeds if and only if the
   six bytes received happen to be just these.
   */
  lemma SecondAccountIff(saved: Block, last: Block, user: seq<Byte>, accounts: seq<Account>, j: nat, k: nat, q: seq<Byte>)
    requires j < k < |accounts| && forall i :: 0 <= i < |accounts| ==> (SameUser(user, accounts[i]) <==> i == j || i == k)
    requires |Cut(accounts[j].pwd, 64)| == |q| && Cut(accounts[k].pwd, 64) == q
    requires XorAll(Cut(accounts[j].pwd, 64)) != XorAll(q)
    ensures var sent := Proof(saved, q);
            var v := FindAccount(saved, last, sent.out, user, accounts, 0);
            if sent.out == Spoilt(Difference(Cut(accounts[j].pwd, 64), q)) then v == Accepted(k, sent.block) else v.Rejected?
  {
    hide CryptSeq, SameUser, Check, XorAll, Proof, Xor, Spoilt, Difference;
    var sent := Proof(saved, q);
    PassesOver(saved, last, sent.out, user, accounts, 0, j);
    SameLengthAcceptedIff(saved, accounts[j], q);
    OtherPasswordReads(saved, accounts[j], q);
    var r := Check(saved, sent.out, accounts[j]);
    PassesOver(saved, r.block, r.out, user, accounts, j + 1, k);
    CheckSucceedsIff(saved, r.out, accounts[k]);
    var r' := Check(saved, r.out, accounts[k]);
    PassesOver(saved, r'.block, r'.out, user, accounts, k + 1, |accounts|);
  }

  /**
   Which it hardly ever does: the second account is rejected unless the first
   one's password adds up to one particular byte.
   */
  lemma SecondAccountRefused(saved: Block, last: Block, user: seq<Byte>, accounts: seq<Account>, j: nat, k: nat, q: seq<Byte>)
    requires j < k < |accounts| && forall i :: 0 <= i < |accounts| ==> (SameUser(user, accounts[i]) <==> i == j || i == k)
    requires |Cut(accounts[j].pwd, 64)| == |q| && Cut(accounts[k].pwd, 64) == q
    requires XorAll(Cut(accounts[j].pwd, 64)) != XorAll(q)
    requires XorAll(Cut(accounts[j].pwd, 64)) != Xor(KeyByte(Advance(AdvanceBy(saved.ring, |q|))), saved.state)
    ensures FindAccount(saved, last, Proof(saved, q).out, user, accounts, 0).Rejected?
  {
    hide CryptSeq, SameUser, FindAccount, XorAll, Xor, Advance, AdvanceBy, KeyByte;
    var p := XorAll(Cut(accounts[j].pwd, 64));
    SecondAccountIff(saved, last, user, accounts, j, k, q);
    AfterPasswordIs(saved, q);
    FirstByteOut(AfterPassword(saved, q), MAGIC);
    FirstBytesDiffer(MAGIC[0], KeyByte(Advance(AdvanceBy(saved.ring, |q|))), saved.state, p, XorAll(q));
    XorSwap(saved.state, XorAll(q), saved.state, p);
    XorCancel(saved.state, saved.state);
    XorCancel(XorAll(q), saved.state);
    XorZero(Xor(XorAll(q), p));
  }

  lemma FirstBytesDiffer(z: Byte, k: Byte, state: Byte, p: Byte, q: Byte)
    requires p != q && p != Xor(k, state)
    ensures var s, t := Xor(state, q), Xor(state, p);
            Xor(z, Xor(s, t)) != z && Xor(z, Xor(s, t)) != Xor(Xor(z, k), s)
  {
    hide Xor;
    var s, t := Xor(state, q), Xor(state, p);
    XorComm(s, t);
    XorAssoc(z, k, s);
    // z cancels on the left
    XorCancel(Xor(s, t), z);
    XorCancel(Xor(k, s), z);
    XorCancel(0, z);
    XorZero(z);
    // s ^ t == 0 only if p == q
    XorCancel(t, s);
    XorZero(s);
    XorCancel(q, state);
    XorCancel(p, state);
    // t ^ s == k ^ s only if t == k
    XorCancel(k, s);
    XorComm(state, p);
    XorCancel(p, state);
    XorComm(s, k);
  }

  lemma FirstByteOut(b: Block, data: seq<Byte>)
    requires data != []
    ensures CryptSeq(CCcam, b, data, Encrypt).out[0] == Xor(Xor(data[0], KeyByte(Advance(b.ring))), b.state)
  {
  }

  const ACK: seq<Byte> := MAGIC + seq(14, _ => 0)

  /** The proof is "CCcam" with its terminator; the answer is the same word in twenty bytes. */
  lemma MagicWords()
    ensures MAGIC == [67, 67, 99, 97, 109, 0] && |ACK| == 20
    ensures forall i :: 0 <= i < 20 ==> ACK[i] == if i < 6 then [67, 67, 99, 97, 109, 0][i] else 0
  {
  }

  /**
   From the seed to the session.  After the key set-up, the login of an honest
   client and the server's answer, each direction starts with equal blocks at
   its two ends.  So what the client sends, requests included, the server takes
   as sent; and what the server sends the client delivers, with a first flag
   that is intact, if and only if no request is withdrawn in flight and no
   message but the last makes it start anew.
   */
  lemma LoginThenSession(seed: seq<Byte>, hash: seq<Byte>, user: seq<Byte>, pwd: seq<Byte>, accounts: seq<Account>,
                         k: nat, node: int, events: seq<Event>, asks: Asks, messages: seq<Event>, room: nat)
    requires |seed| == 16 && |hash| == 20 && PlainName(user) && room >= 4 + CW_LEN
    requires k < |accounts| && SameUser(user, accounts[k]) && Cut(accounts[k].pwd, 64) == Cut(pwd, 63)
    requires forall j :: 0 <= j < k ==> !SameUser(user, accounts[j])
    requires forall i :: 0 <= i < |events| ==> Sendable(events[i], room)
    requires forall i :: 0 <= i < |messages| ==> Servable(messages[i], room)
    requires Honest(events, asks, None)
    ensures var keys := SetUp(seed, hash);
            var client := ClientLogin(keys.second, keys.proof, user, pwd);
            var login := ServerLogin(keys.second, client.out, accounts);
            var ack := CryptSeq(CCcam, keys.first, ACK, Encrypt);
            var answer := CryptSeq(CCcam, keys.first, ack.out, Decrypt);
            && login == Checked(Cut(user, 20), Accepted(k, client.block))
            && answer == Run(ACK, ack.block)
            && (RecvAll(answer.block, SendAll(ack.block, node, events).out, node, Reader(None, true), asks, room).deliveries
                == Expected(events, node, 0)
                <==> CyclesOnlyLast(events) && NoneTaken(events, asks))
            && ServeAll(client.block, SendAll(client.block, node, messages).out, room).deliveries
               == AsSent(Served(messages))
  {
    hide CryptSeq, ClientLogin, ServerLogin, SendAll, RecvAll, ServeAll, Served, Expected, Xor, Honest, NoneTaken, CyclesOnlyLast, NeverCycles;
    var keys := SetUp(seed, hash);
    var client := ClientLogin(keys.second, keys.proof, user, pwd);
    LoginSucceeds(keys.second, keys.proof, user, pwd, accounts, k, []);
    assert client.out + [] == client.out;
    RoundTrip(CCcam, keys.first, ACK);
    var ack := CryptSeq(CCcam, keys.first, ACK, Encrypt).block;
    XorCancel(ack.state, ack.state);
    XorCancel(client.block.state, client.block.state);
    SessionDelivers(ack.ring, ack.state, ack.state, node, events, Reader(None, true), asks, room);
    ServerTakes(client.block.ring, client.block.state, client.block.state, node, messages, room);
    MessagesIntact(Served(messages), node);
  }

  lemma {:induction false} CStringKeeps(s: seq<Byte>, i: nat)
    requires i < |s| && forall j :: 0 <= j <= i ==> s[j] != 0
    ensures i < |CString(s)| && CString(s)[i] == s[i]
  {
    if i > 0 {
      CStringKeeps(s[1..], i - 1);
    }
  }

  /** A name with a control character among its first twenty bytes is refused, with any password. */
  lemma IllegalNameRefused(b: Block, proof: seq<Byte>, user: seq<Byte>, pwd: seq<Byte>, accounts: seq<Account>,
                           tail: seq<Byte>, i: nat)
    requires |proof| == 20 && i < |user| && i < 20
    requires 0 < user[i] < 0x20 && forall j :: 0 <= j < i ==> user[j] != 0
    ensures ServerLogin(b, ClientLogin(b, proof, user, pwd).out + tail, accounts) == IllegalUser
  {
    hide CryptSeq, FindAccount;
    var hash := CryptSeq(CCcam, b, proof, Encrypt);
    var name := CryptSeq(CCcam, hash.block, Padded20(user), Encrypt);
    RoundTrip(CCcam, b, proof);
    RoundTrip(CCcam, hash.block, Padded20(user));
    CStringKeeps(Padded20(user), i);
    var wire := ClientLogin(b, proof, user, pwd).out + tail;
    assert wire[..20] == hash.out && wire[20..40] == name.out;
  }

  // ------------------------------------------------- the steps as performed

  method CcXor(buf: array<Byte>)
    requires buf.Length == 16
    modifies buf
    ensures buf[..] == XorSeed(old(buf[..]))
  {
    hide Xor, Mul8;
    for i := 0 to 8
      invariant forall k :: 0 <= k < 16 ==>
        buf[k] == if k < i || 8 <= k < 8 + i then XorSeedAt(old(buf[..]), k) else old(buf[k])
    {
      buf[8 + i] := Mul8(i, buf[i]);
      if i <= 5 {
        buf[i] := Xor(buf[i], MAGIC[i]);
      }
    }
  }

  /** The key set-up of either end; `seed` is overwritten as the program overwrites it. */
  method SetUpKeys(c: Connection, seed: array<Byte>, hash: array<Byte>, server: bool)
    requires c.Valid() && seed.Length == 16 && hash.Length == 20 && seed != hash
    requires {seed, hash} !! {c.encrypt.keytable, c.decrypt.keytable}
    modifies c.encrypt, c.decrypt, c.encrypt.keytable, c.decrypt.keytable, seed, hash
    ensures var keys := SetUp(old(seed[..]), old(hash[..]));
            && (server ==> c.encrypt.Value() == keys.first && c.decrypt.Value() == keys.second)
            && (!server ==> c.decrypt.Value() == keys.first && c.encrypt.Value() == keys.second)
            && hash[..] == keys.proof
  {
    hide CryptSeq, InitBlock, Put, XorSeed;
    var first := if server then c.encrypt else c.decrypt;
    var second := if server then c.decrypt else c.encrypt;
    CcXor(seed);
    first.Init(hash[..]);
    assert seed[0..16] == seed[..];
    PutAll(seed[..], CryptSeq(CCcam, first.Value(), seed[..], Decrypt).out);
    first.Crypt(CCcam, seed, 0, 16, Decrypt);
    second.Init(seed[..]);
    assert hash[0..20] == hash[..];
    PutAll(hash[..], CryptSeq(CCcam, second.Value(), hash[..], Decrypt).out);
    second.Crypt(CCcam, hash, 0, 20, Decrypt);
  }

  /** The account loop of `cc_srv_connect`; `index` is |accounts| when none fits. */
  method CheckAccounts(c: Connection, proof: array<Byte>, user: seq<Byte>, accounts: seq<Account>) returns (index: nat)
    requires c.Valid() && proof.Length == 6 && proof != c.encrypt.keytable && proof != c.decrypt.keytable
    modifies c.decrypt, c.decrypt.keytable, proof
    ensures match FindAccount(old(c.decrypt.Value()), old(c.decrypt.Value()), old(proof[..]), user, accounts, 0)
            case Accepted(i, b) => index == i && c.decrypt.Value() == b
            case Rejected(b) => index == |accounts| && c.decrypt.Value() == b
  {
    hide CryptSeq, Put, Cut;
    ghost var b := c.decrypt.Value();
    var saved := new CryptBlock();
    saved.CopyFrom(c.decrypt);
    index := 0;
    while index < |accounts|
      invariant index <= |accounts|
      invariant fresh(saved) && fresh(saved.keytable) && saved.Valid() && saved.Value() == b
      invariant FindAccount(b, b, old(proof[..]), user, accounts, 0)
                == FindAccount(b, c.decrypt.Value(), proof[..], user, accounts, index)
    {
      if SameUser(user, accounts[index]) {
        var pwd := Cut(accounts[index].pwd, 64);
        var copy := new Byte[|pwd|](i requires 0 <= i < |pwd| => pwd[i]);
        assert copy[0..|pwd|] == pwd;
        c.decrypt.CopyFrom(saved);
        c.decrypt.Crypt(CCcam, copy, 0, |pwd|, Encrypt);
        assert proof[0..6] == proof[..];
        PutAll(proof[..], CryptSeq(CCcam, c.decrypt.Value(), proof[..], Decrypt).out);
        c.decrypt.Crypt(CCcam, proof, 0, 6, Decrypt);
        if proof[..] == MAGIC {
          return;
        }
      }
      index := index + 1;
    }
  }

  /** The server's side of the login, up to the account check. */
  method ReceiveLogin(c: Connection, accounts: seq<Account>) returns (code: int, user: seq<Byte>, index: nat)
    requires c.Valid()
    modifies c`inbox, c.decrypt, c.decrypt.keytable
    ensures match ServerLogin(old(c.decrypt.Value()), old(c.inbox), accounts)
            case Gone(n) => code == n
            case IllegalUser => code == -3
            case Checked(u, Accepted(i, b)) => code == 0 && user == u && index == i && c.decrypt.Value() == b
            case Checked(u, Rejected(b)) => code == -2 && user == u && c.decrypt.Value() == b
  {
    hide CryptSeq, FindAccount, CString;
    ghost var wire := c.inbox;
    var buf := new Byte[20](_ => 0);
    user, index := [], |accounts|;
    var ok := c.TakeDecrypted(buf, 0, 20);
    if !ok {
      return -1, user, index;
    }
    assert |wire| >= 40 ==> wire[20..][..20] == wire[20..40];
    ghost var name := CryptSeq(CCcam, c.decrypt.Value(), if |wire| >= 40 then wire[20..40] else seq(20, _ => 0), Decrypt);
    PutAll(buf[..], name.out);
    ok := c.TakeDecrypted(buf, 0, 20);
    if !ok {
      return -2, user, index;
    }
    PutAll(buf[..], name.out);
    user := CString(buf[..]);
    if !Legal(user) {
      return -3, user, index;
    }
    var proof := new Byte[6](_ => 0);
    assert |wire| >= 46 ==> wire[20..][20..][..6] == wire[40..46];
    var got := c.Take(proof, 0, 6);
    if got != 6 {
      return -2, user, index;
    }
    assert Put(seq(6, _ => 0), 0, wire[40..46]) == wire[40..46];
    assert proof[..] == wire[40..46];
    index := CheckAccounts(c, proof, user, accounts);
    code := if index < |accounts| then 0 else -2;
  }

  /** The client's side of the login: hash, user, and the proof sent behind the password. */
  method SendLogin(c: Connection, proof: seq<Byte>, user: seq<Byte>, pwd: seq<Byte>)
    requires c.Valid()
    modifies c`outbox, c.encrypt, c.encrypt.keytable
    ensures var r := ClientLogin(old(c.encrypt.Value()), proof, user, pwd);
            c.outbox == old(c.outbox) + r.out && c.encrypt.Value() == r.block
  {
    hide CryptSeq, Put, Cut, Padded20;
    c.CmdSend(proof, 0, true);
    c.CmdSend(Padded20(user), 0, true);
    var cut := Cut(pwd, 63);
    var copy := new Byte[|cut|](i requires 0 <= i < |cut| => cut[i]);
    assert copy[0..|cut|] == cut;
    c.encrypt.Crypt(CCcam, copy, 0, |cut|, Encrypt);
    c.CmdSend(MAGIC, 0, true);
  }

  method SetUpFrom(c: Connection, seed: seq<Byte>, hash: seq<Byte>, server: bool) returns (proof: seq<Byte>)
    requires c.Valid() && |seed| == 16 && |hash| == 20
    modifies c.encrypt, c.decrypt, c.encrypt.keytable, c.decrypt.keytable
    ensures var keys := SetUp(seed, hash);
            && (server ==> c.encrypt.Value() == keys.first && c.decrypt.Value() == keys.second)
            && (!server ==> c.decrypt.Value() == keys.first && c.encrypt.Value() == keys.second)
            && proof == keys.proof && |proof| == 20
  {
    hide SetUp;
    var data := new Byte[16](i requires 0 <= i < 16 => seed[i]);
    var digest := new Byte[20](i requires 0 <= i < 20 => hash[i]);
    assert data[..] == seed && digest[..] == hash;
    SetUpKeys(c, data, digest, server);
    proof := digest[..];
  }

  /** The server's answer to a login it has accepted; the client compares it with the magic word. */
  method Answer(server: Connection, client: Connection) returns (ok: bool)
    requires client.Valid() && server.Valid() && Apart(client, server) && server.outbox == []
    requires server.encrypt.Value() == client.decrypt.Value()
    modifies server`outbox, server.encrypt, server.encrypt.keytable, client`inbox, client.decrypt, client.decrypt.keytable
    ensures ok && server.encrypt.Value() == client.decrypt.Value()
  {
    hide CryptSeq, Put;
    RoundTrip(CCcam, server.encrypt.Value(), ACK);
    ghost var sent := CryptSeq(CCcam, server.encrypt.Value(), ACK, Encrypt);
    server.CmdSend(ACK, 0, true);
    client.inbox := server.outbox;
    assert client.inbox[..20] == client.inbox == sent.out;
    var answer := new Byte[20](_ => 0);
    PutAll(answer[..], ACK);
    ok := client.TakeDecrypted(answer, 0, 20);
    if ok {
      ok := answer[..5] == MAGIC[..5];
    }
  }

  ghost predicate Apart(client: Connection, server: Connection) {
    && client != server
    && {client.encrypt, client.decrypt} !! {server.encrypt, server.decrypt}
    && {client.encrypt.keytable, client.decrypt.keytable} !! {server.encrypt.keytable, server.decrypt.keytable}
  }

  /**
   Both ends, from one seed to the server's answer: the client is let in as
   account `k`, and the blocks of the two ends are crosswise equal.
   */
  method LogIn(client: Connection, server: Connection, seed: seq<Byte>, hash: seq<Byte>,
               user: seq<Byte>, pwd: seq<Byte>, accounts: seq<Account>, ghost k: nat)
    returns (code: int, name: seq<Byte>, index: nat, welcome: bool)
    requires client.Valid() && server.Valid() && Apart(client, server)
    requires client.outbox == [] && server.outbox == []
    requires |seed| == 16 && |hash| == 20 && PlainName(user)
    requires k < |accounts| && SameUser(user, accounts[k]) && Cut(accounts[k].pwd, 64) == Cut(pwd, 63)
    requires forall j :: 0 <= j < k ==> !SameUser(user, accounts[j])
    modifies client, client.encrypt, client.decrypt, client.encrypt.keytable, client.decrypt.keytable
    modifies server, server.encrypt, server.decrypt, server.encrypt.keytable, server.decrypt.keytable
    ensures code == 0 && index == k && name == Cut(user, 20) && welcome
    ensures client.encrypt.Value() == server.decrypt.Value() && server.encrypt.Value() == client.decrypt.Value()
    ensures client.State() == Reader(None, true)
  {
    hide CryptSeq, SetUp, ClientLogin, ServerLogin, Put, Cut, PlainName;
    ghost var keys := SetUp(seed, hash);
    var ignored := SetUpFrom(server, seed, hash, true);
    var proof := SetUpFrom(client, seed, hash, false);
    SendLogin(client, proof, user, pwd);
    ghost var sent := ClientLogin(keys.second, keys.proof, user, pwd);
    LoginSucceeds(keys.second, keys.proof, user, pwd, accounts, k, []);
    server.inbox := client.outbox;
    assert server.inbox == sent.out + [] == sent.out;
    code, name, index := ReceiveLogin(server, accounts);
    welcome := Answer(server, client);
    client.inFlight, client.justLoggedIn := None, welcome;
  }
}
