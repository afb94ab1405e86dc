/**
 Framed messages over a CCcam connection in non-extended mode, with the control
 word replies after which each end runs the cipher once more on its own copy of
 the words: the sender on the scrambled ones, the receiver on the plain ones.
 */
module CcSession {
  import opened Bytes
  import opened CcCipher
  import opened Sequences

  const MSG_CW_ECM: Byte := 1
  const MSG_EMM_ACK: Byte := 2
  const MSG_CARD_REMOVED: Byte := 4
  const MSG_CMD_05: Byte := 5
  const MSG_KEEPALIVE: Byte := 6
  const MSG_SRV_DATA: Byte := 8
  const MSG_CMD_0E: Byte := 14
  const MSG_CW_NOK1: Byte := 254
  const MSG_CW_NOK2: Byte := 255
  const CW_LEN: nat := 16

  // ---------------------------------------------------------------- framing

  function Header(flag: Byte, cmd: Byte, len: nat): (h: seq<Byte>)
    ensures |h| == 4
  {
    [flag, cmd, len / 256 % 256, len % 256]
  }

  function BigEndian16(hi: int, lo: int): int {
    hi * 256 + lo
  }

  function Frame(flag: Byte, cmd: Byte, payload: seq<Byte>): seq<Byte> {
    Header(flag, cmd, |payload|) + payload
  }

  function SendFrame(b: Block, flag: Byte, cmd: Byte, payload: seq<Byte>): Run {
    CryptSeq(CCcam, b, Frame(flag, cmd, payload), Encrypt)
  }

  /**
   What one call of the receiver yields; `rest` are the bytes it leaves in the
   socket.  After an overrun nothing is known of the program's memory.
   */
  datatype Received =
    | Closed(block: Block, rest: seq<Byte>)
    | TooBig(flag: Byte, block: Block, rest: seq<Byte>)
    | Overrun(flag: Byte, block: Block, rest: seq<Byte>)
    | Got(flag: Byte, cmd: Byte, payload: seq<Byte>, block: Block, rest: seq<Byte>)

  /** The length a message announces in its first four bytes. */
  function Announced(b: Block, wire: seq<Byte>): (size: nat)
    requires |wire| >= 4
    ensures size < 65536
  {
    var head := CryptSeq(CCcam, b, wire[..4], Decrypt).out;
    BigEndian16(head[2], head[3])
  }

  /** How many bytes of its buffer a call fills: the header, and of the payload what is there. */
  function Filled(b: Block, wire: seq<Byte>, maxlen: nat): nat {
    if maxlen < 4 then 0
    else if |wire| < 4 then |wire|
    else
      var size := Announced(b, wire);
      if size > maxlen then 4 else 4 + Least(size, |wire| - 4)
  }

  /** `cc_msg_recv` with a buffer of `room` bytes. */
  function RecvFrame(b: Block, wire: seq<Byte>, maxlen: nat, room: nat): (r: Received)
    ensures r.Got? ==> |r.rest| < |wire| && |r.payload| <= maxlen && 4 + |r.payload| <= room
  {
    if maxlen < 4 then Closed(b, wire)
    else if |wire| < 4 then Closed(b, [])
    else
      var head := CryptSeq(CCcam, b, wire[..4], Decrypt);
      var size := Announced(b, wire);
      if size > maxlen then TooBig(head.out[0], head.block, wire[4..])
      else if Filled(b, wire, maxlen) > room then Overrun(head.out[0], head.block, wire[4..])
      else if |wire| < 4 + size then Closed(head.block, [])
      else
        var body := CryptSeq(CCcam, head.block, wire[4..4 + size], Decrypt);
        Got(head.out[0], head.out[1], body.out, body.block, wire[4 + size..])
  }

  // ---------------------------------------------------------- control words

  /** The low byte of `n >> by` for a signed `n`. */
  function ShiftRight8(n: int, bits: nat): Byte {
    n / Pow2(bits) % 256
  }

  function ScrambleByte(z: Byte, node: int, card: nat, i: nat): Byte {
    var tmp := Xor(z, ShiftRight8(node, 4 * i));
    Xor(ShiftRight8(card, 2 * i), if i % 2 == 1 then 255 - tmp else tmp)
  }

  function Scramble(cw: seq<Byte>, node: int, card: nat): (r: seq<Byte>)
    ensures |r| == |cw|
  {
    seq(|cw|, i requires 0 <= i < |cw| => ScrambleByte(cw[i], node, card, i))
  }

  /** What scrambling amounts to: a fixed pattern of the node and the card. */
  function MaskByte(node: int, card: nat, i: nat): Byte {
    ScrambleByte(0, node, card, i)
  }

  function Mask(node: int, card: nat, n: nat): (m: seq<Byte>)
    ensures |m| == n
  {
    seq(n, i requires 0 <= i < n => MaskByte(node, card, i))
  }

  // ----------------------------------------------------------- whole sessions

  datatype Event =
    | Msg(flag: Byte, cmd: Byte, payload: seq<Byte>)
    | CwReply(flag: Byte, cw: seq<Byte>, card: nat)

  /** What the receiver's program takes, with a buffer of `room` bytes. */
  predicate Sendable(e: Event, room: nat) {
    match e
    case Msg(_, cmd, payload) => cmd != MSG_CW_ECM && 4 + |payload| <= Least(room, MAX_MESSAGE)
    case CwReply(_, cw, _) => |cw| == CW_LEN
  }

  function SendEvent(b: Block, node: int, e: Event): Run {
    match e
    case Msg(flag, cmd, payload) => SendFrame(b, flag, cmd, payload)
    case CwReply(flag, cw, card) =>
      var scrambled := Scramble(cw, node, card);
      var sent := SendFrame(b, flag, MSG_CW_ECM, scrambled);
      Run(sent.out, CryptSeq(CCcam, sent.block, scrambled, Encrypt).block)
  }

  function SendAll(b: Block, node: int, events: seq<Event>): Run
    decreases |events|
  {
    if events == [] then Run([], b)
    else
      var first := SendEvent(b, node, events[0]);
      var rest := SendAll(first.block, node, events[1..]);
      Run(first.out + rest.out, rest.block)
  }

  // ------------------------------------------------------------- the reader

  /**
   What a reader remembers of its own requests: the card of the one in flight,
   if its entry is still there, and whether it has just logged in.
   */
  datatype Reader = Reader(inFlight: Option<nat>, justLoggedIn: bool)

  /** Requests the reader sends, one place for each message it receives: what it asks before that message comes. */
  type Asks = seq<Option<nat>>

  function Asked(q: Reader, asks: Asks): Reader {
    if asks != [] && asks[0].Some? then Reader(asks[0], false) else q
  }

  function Later(asks: Asks): Asks {
    if asks == [] then [] else asks[1..]
  }

  function CardId(payload: seq<Byte>): nat
    requires |payload| >= 4
  {
    var a: int, b: int, c: int, d: int := payload[0], payload[1], payload[2], payload[3];
    ((a * 256 + b) * 256 + c) * 256 + d
  }

  /** A refusal; with a text it is only kept for the log. */
  predicate IsNok(cmd: Byte, payload: seq<Byte>) {
    (cmd == MSG_CW_NOK1 || cmd == MSG_CW_NOK2) && |payload| <= 1
  }

  /** The message deletes the entry of a request for this card: the card is withdrawn, or the server starts anew. */
  predicate Withdraws(cmd: Byte, payload: seq<Byte>, card: nat) {
    || (cmd == MSG_CARD_REMOVED && |payload| >= 4 && CardId(payload) == card)
    || (cmd == MSG_SRV_DATA && |payload| == 72)
  }

  /** Messages after which the reader starts a new connection. */
  predicate Cycles(cmd: Byte, payload: seq<Byte>) {
    cmd == MSG_CMD_0E || (cmd == MSG_SRV_DATA && |payload| == 35)
  }

  /** `cc_parse_msg` gives the connection up. */
  predicate GivesUp(q: Reader, cmd: Byte, payload: seq<Byte>) {
    Cycles(cmd, payload) || (IsNok(cmd, payload) && q.justLoggedIn)
  }

  function After(q: Reader, cmd: Byte, payload: seq<Byte>): Reader {
    if IsNok(cmd, payload) || (q.inFlight.Some? && Withdraws(cmd, payload, q.inFlight.value)) then q.(inFlight := None)
    else if cmd == MSG_EMM_ACK || cmd == MSG_CMD_05 || cmd == MSG_KEEPALIVE then q.(justLoggedIn := false)
    else q
  }

  datatype Delivery = Plain(flag: Byte, cmd: Byte, payload: seq<Byte>) | Words(flag: Byte, cw: seq<Byte>)

  /** `overrun` tells that the last message was written past the end of the buffer. */
  datatype Session = Session(deliveries: seq<Delivery>, block: Block, rest: seq<Byte>, overrun: bool)

  /**
   The reader takes frames into a buffer of `room` bytes as long as it can;
   every caller gives the size of its buffer as the limit.  It stops where the
   program closes the connection: at the end of the wire, at a message that is
   too big for the buffer or for `cc_recv`, at one it gives up on, and at a
   control word reply when no request has an entry.
   */
  function RecvAll(b: Block, wire: seq<Byte>, node: int, q: Reader, asks: Asks, room: nat): Session
    decreases |wire|
  {
    var r, q' := RecvFrame(b, wire, room, room), Asked(q, asks);
    if !r.Got? then Session([], r.block, r.rest, r.Overrun?)
    else if 4 + |r.payload| > MAX_MESSAGE then Session([], r.block, r.rest, false)
    else if r.cmd != MSG_CW_ECM then
      var s := if GivesUp(q', r.cmd, r.payload) then Session([], r.block, r.rest, false)
               else RecvAll(r.block, r.rest, node, After(q', r.cmd, r.payload), Later(asks), room);
      s.(deliveries := [Plain(r.flag, r.cmd, r.payload)] + s.deliveries)
    else if q'.inFlight == None || |r.payload| != CW_LEN then Session([], r.block, r.rest, false)
    else
      var cw := Scramble(r.payload, node, q'.inFlight.value);
      var extra := CryptSeq(CCcam, r.block, cw, Encrypt).block;
      var s := RecvAll(extra, r.rest, node, Reader(None, false), Later(asks), room);
      s.(deliveries := [Words(r.flag, cw)] + s.deliveries)
  }

  /** By how much the states of the two ends differ after a reply to a request for this card. */
  function Drift(node: int, card: nat): Byte {
    XorAll(Mask(node, card, CW_LEN))
  }

  /** What the reader gets to see, whatever it has asked for. */
  function Seen(events: seq<Event>, node: int, drift: Byte, q: Reader, asks: Asks): seq<Delivery>
    decreases |events|
  {
    if events == [] then []
    else
      var q', tail := Asked(q, asks), events[1..];
      match events[0]
      case Msg(flag, cmd, payload) =>
        [Plain(Xor(flag, drift), cmd, payload)]
        + if GivesUp(q', cmd, payload) then [] else Seen(tail, node, 0, After(q', cmd, payload), Later(asks))
      case CwReply(flag, cw, card) =>
        if q'.inFlight == None then []
        else
          var own := q'.inFlight.value;
          [Words(Xor(flag, drift), Scramble(Scramble(cw, node, card), node, own))]
          + Seen(tail, node, Drift(node, own), Reader(None, false), Later(asks))
  }

  /** No reply finds its request gone, and no message makes the reader give up. */
  predicate Lasts(events: seq<Event>, q: Reader, asks: Asks)
    decreases |events|
  {
    events == [] ||
    var q', tail := Asked(q, asks), events[1..];
    match events[0]
    case Msg(_, cmd, payload) => !GivesUp(q', cmd, payload) && Lasts(tail, After(q', cmd, payload), Later(asks))
    case CwReply(_, _, _) => q'.inFlight != None && Lasts(tail, Reader(None, false), Later(asks))
  }

  function FinalDrift(events: seq<Event>, node: int, drift: Byte, q: Reader, asks: Asks): Byte
    requires Lasts(events, q, asks)
    decreases |events|
  {
    if events == [] then drift
    else
      var q', tail := Asked(q, asks), events[1..];
      match events[0]
      case Msg(_, cmd, payload) => FinalDrift(tail, node, 0, After(q', cmd, payload), Later(asks))
      case CwReply(_, _, _) => FinalDrift(tail, node, Drift(node, q'.inFlight.value), Reader(None, false), Later(asks))
  }

  /** By how much the states differ after an event that answers the request for its own card. */
  function OwnDrift(node: int, e: Event): Byte {
    if e.CwReply? then Drift(node, e.card) else 0
  }

  /** Everything as sent, except for the flag after a reply. */
  function Expected(events: seq<Event>, node: int, drift: Byte): (d: seq<Delivery>)
    ensures |d| == |events|
  {
    if events == [] then []
    else
      var e := events[0];
      [if e.Msg? then Plain(Xor(e.flag, drift), e.cmd, e.payload) else Words(Xor(e.flag, drift), e.cw)]
      + Expected(events[1..], node, OwnDrift(node, e))
  }

  // ------------------------------------------------------------- the server

  /**
   A server takes messages of every command; a request for control words is one
   of them, and no extra run follows it.
   */
  function ServeAll(b: Block, wire: seq<Byte>, room: nat): Session
    decreases |wire|
  {
    var r := RecvFrame(b, wire, room, room);
    if !r.Got? then Session([], r.block, r.rest, r.Overrun?)
    else if 4 + |r.payload| > MAX_MESSAGE then Session([], r.block, r.rest, false)
    else
      var s := if r.cmd == MSG_CMD_0E then Session([], r.block, r.rest, false) else ServeAll(r.block, r.rest, room);
      s.(deliveries := [Plain(r.flag, r.cmd, r.payload)] + s.deliveries)
  }

  /** A message of any command that the server's buffer takes. */
  predicate Servable(e: Event, room: nat) {
    e.Msg? && 4 + |e.payload| <= Least(room, MAX_MESSAGE)
  }

  // ---------------------------------------------------------------- lemmas

  lemma HeaderSize(len: nat)
    ensures len / 256 % 256 * 256 + len % 256 == len % 65536
  {
  }

  lemma HeaderOfBytes(flag: Byte, cmd: Byte, hi: Byte, lo: Byte)
    ensures Header(flag, cmd, BigEndian16(hi, lo)) == [flag, cmd, hi, lo]
  {
  }

  /**
   When a call stays inside its buffer: if and only if the announced length
   leaves room for the header, or is refused, or what has arrived does.  The
   program compares the length with the size of the buffer, not with what the
   header leaves of it, so lengths just below the limit are not refused.
   */
  lemma StaysInsideIff(b: Block, wire: seq<Byte>, maxlen: nat, room: nat)
    requires 4 <= maxlen <= room && |wire| >= 4
    ensures var size := Announced(b, wire);
            && (!RecvFrame(b, wire, maxlen, room).Overrun? <==> size + 4 <= room || size > maxlen || |wire| <= room)
            && (|wire| >= 4 + size ==>
                  (!RecvFrame(b, wire, maxlen, room).Overrun? <==> size + 4 <= room || size > maxlen))
  {
    hide CryptSeq;
  }

  /**
   One frame, any payload, any two states over the same ring.  The receiver
   believes the 16-bit length of the header, so it takes the payload up to
   that length; the rest of the frame stays on the wire.  The flag alone
   depends on the states.
   */
  lemma FrameArrives(ring: Ring, s: Byte, t: Byte, flag: Byte, cmd: Byte, payload: seq<Byte>,
                     maxlen: nat, room: nat, tail: seq<Byte>)
    requires 4 <= maxlen <= room
    ensures var size := |payload| % 65536;
            var sent := SendFrame(Block(ring, s), flag, cmd, payload[..size]);
            var over := CryptSeq(CCcam, sent.block, payload[size..], Encrypt);
            var wire := SendFrame(Block(ring, s), flag, cmd, payload).out + tail;
            var r := RecvFrame(Block(ring, t), wire, maxlen, room);
            && (size > maxlen ==> r.TooBig? && r.flag == Xor(flag, Xor(s, t)))
            && (size <= maxlen && size + 4 > room ==> r.Overrun? && r.flag == Xor(flag, Xor(s, t)))
            && (size <= maxlen && size + 4 <= room ==>
                  r == Got(Xor(flag, Xor(s, t)), cmd, payload[..size], sent.block, over.out + tail))
  {
    hide CryptSeq, Xor, RecvFrame;
    var b, size := Block(ring, s), |payload| % 65536;
    var p, q := payload[..size], payload[size..];
    var head := Header(flag, cmd, |payload|);
    HeaderSize(|payload|);
    HeaderSize(size);
    assert Header(flag, cmd, size) == head;
    assert Frame(flag, cmd, payload) == (head + p) + q;
    CryptAppend(CCcam, b, head + p, q, Encrypt);
    CryptAppend(CCcam, b, head, p, Encrypt);
    Resync(ring, s, t, head);
    var e := CryptSeq(CCcam, b, head, Encrypt);
    var f := CryptSeq(CCcam, e.block, p, Encrypt);
    var g := CryptSeq(CCcam, f.block, q, Encrypt);
    assert SendFrame(b, flag, cmd, payload).out + tail == e.out + f.out + (g.out + tail);
    RoundTrip(CCcam, e.block, p);
    assert e.out[..4] == e.out;
    Receives(Block(ring, t), e.out, f.out, g.out + tail, maxlen, room);
  }

  /** The call on a wire whose first four bytes announce what comes next. */
  lemma Receives(b: Block, head: seq<Byte>, body: seq<Byte>, rest: seq<Byte>, maxlen: nat, room: nat)
    requires 4 <= maxlen <= room && |head| == 4 && Announced(b, head) == |body|
    ensures var h := CryptSeq(CCcam, b, head, Decrypt);
            var p := CryptSeq(CCcam, h.block, body, Decrypt);
            var r := RecvFrame(b, head + body + rest, maxlen, room);
            && (|body| > maxlen ==> r.TooBig? && r.flag == h.out[0])
            && (|body| <= maxlen && |body| + 4 > room ==> r.Overrun? && r.flag == h.out[0])
            && (|body| <= maxlen && |body| + 4 <= room ==> r == Got(h.out[0], h.out[1], p.out, p.block, rest))
  {
    hide CryptSeq;
    var wire, n := head + body + rest, 4 + |body|;
    assert head[..4] == wire[..4] == head && wire[4..n] == body && wire[n..] == rest;
  }

  /** A message as long as the buffer is not refused and does not fit. */
  lemma LongestAcceptedOverruns(ring: Ring, s: Byte, t: Byte, flag: Byte, cmd: Byte, payload: seq<Byte>, tail: seq<Byte>)
    requires 4 <= |payload| < 65536
    ensures RecvFrame(Block(ring, t), SendFrame(Block(ring, s), flag, cmd, payload).out + tail, |payload|, |payload|).Overrun?
  {
    hide CryptSeq, Xor, Frame, RecvFrame;
    FrameArrives(ring, s, t, flag, cmd, payload, |payload|, |payload|, tail);
  }

  // -- control words

  lemma ScrambleByteIsMask(z: Byte, node: int, card: nat, i: nat)
    ensures ScrambleByte(z, node, card, i) == Xor(z, MaskByte(node, card, i))
  {
    hide Xor, ShiftRight8;
    var n, c := ShiftRight8(node, 4 * i), ShiftRight8(card, 2 * i);
    var inv: Byte := if i % 2 == 1 then 255 else 0;
    XorZero(n);
    XorZero(Xor(z, n));
    Complement(n);
    Complement(Xor(z, n));
    XorAssoc(z, n, inv);
    XorComm(c, Xor(z, Xor(n, inv)));
    XorAssoc(z, Xor(n, inv), c);
    XorComm(c, Xor(n, inv));
  }

  /**
   What scrambling does, bit by bit: bit `j` of byte `i` is added to bit
   `4 * i + j` of the node id and to bit `2 * i + j` of the card id, and turned
   around in every other byte.
   */
  lemma ScrambledBit(cw: seq<Byte>, node: int, card: nat, i: nat, j: nat)
    requires i < |cw| && j < 8
    ensures Scramble(cw, node, card)[i] / Pow2(j) % 2
            == (cw[i] / Pow2(j) + node / Pow2(4 * i + j) + card / Pow2(2 * i + j) + i) % 2
  {
    hide Bit, Pow2, ScrambleByte;
    ScrambledByteBit(cw[i], node, card, i, j);
    BitsAre(Scramble(cw, node, card)[i], cw[i], node, 4 * i, card, 2 * i, j);
    Mod2(cw[i] / Pow2(j), node / Pow2(4 * i + j), card / Pow2(2 * i + j), i);
  }

  lemma ScrambledByteBit(z: Byte, node: int, card: nat, i: nat, j: nat)
    requires j < 8
    ensures Bit(ScrambleByte(z, node, card, i), j) == (Bit(z, j) + Bit(node, 4 * i + j) + Bit(card, 2 * i + j) + i) % 2
  {
    hide Xor, ShiftRight8, Bit, Pow2;
    var n, c := ShiftRight8(node, 4 * i), ShiftRight8(card, 2 * i);
    var tmp := Xor(z, n);
    var turned := if i % 2 == 1 then 255 - tmp else tmp;
    XorByteBit(z, n, j);
    XorByteBit(tmp, 255, j);
    Complement(tmp);
    ByteOnes(j);
    XorByteBit(c, turned, j);
    ShiftedByteBit(node, 4 * i, j);
    ShiftedByteBit(card, 2 * i, j);
    Parities(Bit(z, j), Bit(node, 4 * i + j), Bit(card, 2 * i + j), i, Bit(Xor(c, turned), j), Bit(tmp, j), Bit(255, j));
  }

  lemma Parities(w: int, n: int, c: int, i: nat, r: int, t: int, one: int)
    requires 0 <= w < 2 && 0 <= n < 2 && 0 <= c < 2 && one == 1 && t == (w + n) % 2
    requires r == if i % 2 == 1 then (c + (t + one) % 2) % 2 else (c + t) % 2
    ensures r == (w + n + c + i) % 2
  {
  }

  lemma Mod2(a: int, b: int, c: int, i: int)
    ensures (a % 2 + b % 2 + c % 2 + i) % 2 == (a + b + c + i) % 2
  {
  }

  lemma ByteOnes(j: nat)
    requires j < 8
    ensures Bit(255, j) == 1
  {
    assert Pow2(8) == 256;
    AllOnes(8, j);
  }

  lemma BitsAre(r: int, w: int, node: int, m: nat, card: int, n: nat, j: nat)
    ensures Bit(r, j) == r / Pow2(j) % 2 && Bit(w, j) == w / Pow2(j) % 2
    ensures Bit(node, m + j) == node / Pow2(m + j) % 2 && Bit(card, n + j) == card / Pow2(n + j) % 2
  {
  }

  lemma ShiftedByteBit(n: int, bits: nat, j: nat)
    requires j < 8
    ensures Bit(ShiftRight8(n, bits), j) == Bit(n, bits + j)
  {
    assert Pow2(8) == 256;
    BitOfLow(n / Pow2(bits), j, 8);
    ShiftedBit(n, bits, j);
  }

  /** Scrambling is exclusive-or with a mask that the words have no part in. */
  lemma ScrambleIsMask(cw: seq<Byte>, node: int, card: nat)
    ensures Scramble(cw, node, card) == XorSeq(cw, Mask(node, card, |cw|))
  {
    forall i | 0 <= i < |cw| ensures Scramble(cw, node, card)[i] == XorSeq(cw, Mask(node, card, |cw|))[i] {
      ScrambleByteIsMask(cw[i], node, card, i);
    }
  }

  /** The words extracted are the words sent exactly where the two ends' masks agree. */
  lemma ScrambleRoundTrip(cw: seq<Byte>, node: int, card: nat, node': int, card': nat)
    ensures Scramble(Scramble(cw, node, card), node, card) == cw
    ensures Scramble(Scramble(cw, node, card), node', card') == cw
            <==> Mask(node, card, |cw|) == Mask(node', card', |cw|)
  {
    hide Xor, MaskByte, ScrambleByte;
    var m, m' := Mask(node, card, |cw|), Mask(node', card', |cw|);
    ScrambleIsMask(cw, node, card);
    var s := XorSeq(cw, m);
    ScrambleIsMask(s, node, card);
    ScrambleIsMask(s, node', card');
    forall i | 0 <= i < |cw|
      ensures Xor(s[i], m[i]) == cw[i]
      ensures Xor(s[i], m'[i]) == cw[i] <==> m[i] == m'[i]
    {
      XorCancel(cw[i], m[i]);
      XorCancel(m'[i], s[i]);
      XorCancel(m[i], cw[i]);
      XorComm(m'[i], s[i]);
      XorComm(m[i], cw[i]);
      XorCancel(cw[i], m'[i]);
      XorCancel(s[i], m'[i]);
    }
    if Scramble(s, node', card') == cw {
      forall i | 0 <= i < |cw| ensures m[i] == m'[i] {
        assert Scramble(s, node', card')[i] == cw[i];
      }
    }
  }

  /** The two extra runs after a reply: the rings stay equal, the states part by the mask. */
  lemma ExtraStep(b: Block, cw: seq<Byte>, node: int, card: nat)
    ensures var sender := CryptSeq(CCcam, b, Scramble(cw, node, card), Encrypt).block;
            var receiver := CryptSeq(CCcam, b, cw, Encrypt).block;
            && sender.ring == receiver.ring
            && Xor(sender.state, receiver.state) == XorAll(Mask(node, card, |cw|))
  {
    hide Xor, CryptSeq, MaskByte, ScrambleByte;
    var m := Mask(node, card, |cw|);
    RingIgnoresData(CCcam, b, Scramble(cw, node, card), Encrypt);
    RingIgnoresData(CCcam, b, cw, Encrypt);
    StateIsXorOfPlain(CCcam, b, Scramble(cw, node, card), Encrypt);
    StateIsXorOfPlain(CCcam, b, cw, Encrypt);
    ScrambleIsMask(cw, node, card);
    XorAllOfXorSeq(cw, m);
    var s, x, y := b.state, XorAll(cw), XorAll(m);
    XorSwap(s, Xor(x, y), s, x);
    XorCancel(s, s);
    XorComm(Xor(x, y), x);
    XorCancel(y, x);
    XorZero(y);
  }

  lemma PayloadFits(payload: seq<Byte>)
    requires |payload| < 65536
    ensures |payload| % 65536 == |payload| && payload[..|payload|] == payload && payload[|payload|..] == []
  {
  }

  /** A frame within the limits arrives whole and leaves both ends with the same block. */
  lemma WholeFrameArrives(ring: Ring, s: Byte, t: Byte, flag: Byte, cmd: Byte, payload: seq<Byte>,
                          room: nat, tail: seq<Byte>)
    requires 4 + |payload| <= room && |payload| < 65536
    ensures var sent := SendFrame(Block(ring, s), flag, cmd, payload);
            RecvFrame(Block(ring, t), sent.out + tail, room, room)
            == Got(Xor(flag, Xor(s, t)), cmd, payload, sent.block, tail)
  {
    hide CryptSeq, Xor, Frame, RecvFrame;
    PayloadFits(payload);
    FrameArrives(ring, s, t, flag, cmd, payload, room, room, tail);
    var sent := SendFrame(Block(ring, s), flag, cmd, payload);
    CryptNothing(sent.block, Encrypt);
    assert [] + tail == tail;
  }

  lemma CryptNothing(b: Block, mode: Mode)
    ensures CryptSeq(CCcam, b, [], mode) == Run([], b)
  {
  }

  /**
   The whole-run theorem.  From any ring and any two states, for every sequence
   of sendable events and whatever the reader has asked for and when: it sees
   just what `Seen` says.  A flag differs from the one sent by exactly the drift
   that the event before it left behind.  If nothing stops it, the two ends
   finish with equal rings and with states that differ by the last drift.
   */
  lemma {:induction false} SessionFollows(ring: Ring, s: Byte, t: Byte, node: int, events: seq<Event>, q: Reader, asks: Asks, room: nat)
    requires room >= 4 + CW_LEN
    requires forall i :: 0 <= i < |events| ==> Sendable(events[i], room)
    ensures var sent := SendAll(Block(ring, s), node, events);
            var got := RecvAll(Block(ring, t), sent.out, node, q, asks, room);
            && got.deliveries == Seen(events, node, Xor(s, t), q, asks) && !got.overrun
            && (Lasts(events, q, asks) ==>
                  && got.rest == [] && got.block.ring == sent.block.ring
                  && Xor(sent.block.state, got.block.state) == FinalDrift(events, node, Xor(s, t), q, asks))
    decreases |events|
  {
    hide CryptSeq, Xor, RecvFrame, SendFrame, Scramble, GivesUp, After;
    if events == [] {
      NothingOnTheWire(Block(ring, t), room);
    } else {
      var e, q' := events[0], Asked(q, asks);
      var first := SendEvent(Block(ring, s), node, e);
      var rest := SendAll(first.block, node, events[1..]);
      match e
      case Msg(flag, cmd, payload) =>
        WholeFrameArrives(ring, s, t, flag, cmd, payload, room, rest.out);
        XorCancel(first.block.state, first.block.state);
        SessionFollows(first.block.ring, first.block.state, first.block.state, node, events[1..], After(q', cmd, payload), Later(asks), room);
      case CwReply(flag, cw, card) =>
        var scrambled := Scramble(cw, node, card);
        var sent := SendFrame(Block(ring, s), flag, MSG_CW_ECM, scrambled);
        WholeFrameArrives(ring, s, t, flag, MSG_CW_ECM, scrambled, room, rest.out);
        if q'.inFlight != None {
          var words := Scramble(scrambled, node, q'.inFlight.value);
          ScrambleRoundTrip(scrambled, node, q'.inFlight.value, node, q'.inFlight.value);
          ExtraStep(sent.block, words, node, q'.inFlight.value);
          var receiver := CryptSeq(CCcam, sent.block, words, Encrypt).block;
          SessionFollows(receiver.ring, first.block.state, receiver.state, node, events[1..], Reader(None, false), Later(asks), room);
        }
    }
  }

  // -- which runs are delivered in full

  /**
   A server that answers what it was asked, once: `asked` is the request it is
   working on.  The reader sends the next one only when it is answered.
   */
  predicate Honest(events: seq<Event>, asks: Asks, asked: Option<nat>)
    decreases |events|
  {
    && |asks| == |events|
    && (events == [] ||
        var now, tail := if asks[0].Some? then asks[0] else asked, events[1..];
        && (asks[0].Some? ==> asked == None)
        && match events[0]
           case CwReply(_, _, card) => now == Some(card) && Honest(tail, asks[1..], None)
           case Msg(_, cmd, payload) =>
             if IsNok(cmd, payload) then now.Some? && Honest(tail, asks[1..], None) else Honest(tail, asks[1..], now))
  }

  ghost predicate AsksBetween(asks: Asks, from: nat, to: nat) {
    exists k :: from <= k <= to && k < |asks| && asks[k].Some?
  }

  /** Event `i` withdraws the request that the reply `j` answers. */
  ghost predicate Takes(events: seq<Event>, asks: Asks, i: nat, j: nat)
    requires i < j < |events|
  {
    && events[i].Msg? && events[j].CwReply? && Withdraws(events[i].cmd, events[i].payload, events[j].card)
    && !AsksBetween(asks, i + 1, j)
  }

  ghost predicate NoneTaken(events: seq<Event>, asks: Asks) {
    forall i: nat, j: nat :: i < j < |events| ==> !Takes(events, asks, i, j)
  }

  predicate CyclesOnlyLast(events: seq<Event>) {
    forall i :: 0 <= i < |events| - 1 && events[i].Msg? ==> !Cycles(events[i].cmd, events[i].payload)
  }

  /** The first reply is preceded by a request. */
  ghost predicate AsksAnew(events: seq<Event>, asks: Asks) {
    forall j: nat :: j < |events| && events[j].CwReply? ==> AsksBetween(asks, 0, j)
  }

  lemma AsksShift(asks: Asks, from: nat, to: nat)
    requires asks != []
    ensures AsksBetween(asks, from + 1, to + 1) == AsksBetween(asks[1..], from, to)
    ensures AsksBetween(asks, 0, to + 1) == (asks[0].Some? || AsksBetween(asks[1..], 0, to))
  {
    if AsksBetween(asks, from + 1, to + 1) {
      var k :| from + 1 <= k <= to + 1 && k < |asks| && asks[k].Some?;
      assert asks[1..][k - 1].Some?;
    }
    if AsksBetween(asks[1..], from, to) {
      var k :| from <= k <= to && k < |asks[1..]| && asks[1..][k].Some?;
      assert asks[k + 1].Some?;
    }
    if AsksBetween(asks, 0, to + 1) {
      var k :| 0 <= k <= to + 1 && k < |asks| && asks[k].Some?;
      if k > 0 {
        assert asks[1..][k - 1].Some?;
      }
    }
    if AsksBetween(asks[1..], 0, to) {
      var k :| 0 <= k <= to && k < |asks[1..]| && asks[1..][k].Some?;
      assert asks[k + 1].Some?;
    }
  }

  /** Without a new request in between, the next reply answers the request the server is working on. */
  lemma {:induction false} NextReply(events: seq<Event>, asks: Asks, asked: Option<nat>, j: nat)
    requires Honest(events, asks, asked) && j < |events| && events[j].CwReply?
    ensures AsksBetween(asks, 0, j) || asked == Some(events[j].card)
    decreases |events|
  {
    hide IsNok, Withdraws, AsksBetween;
    if j == 0 {
      FirstAsk(asks);
    } else {
      AsksShift(asks, 0, j - 1);
      var e := events[0];
      NextReply(events[1..], asks[1..], if e.CwReply? || IsNok(e.cmd, e.payload) then None else if asks[0].Some? then asks[0] else asked, j - 1);
    }
  }

  lemma AnewIfIdle(events: seq<Event>, asks: Asks)
    requires Honest(events, asks, None)
    ensures AsksAnew(events, asks)
  {
    hide Honest, AsksBetween;
    forall j: nat | j < |events| && events[j].CwReply? ensures AsksBetween(asks, 0, j) {
      NextReply(events, asks, None, j);
    }
  }

  /** The first event and what it withdraws. */
  lemma TakenSplits(events: seq<Event>, asks: Asks, asked: Option<nat>)
    requires Honest(events, asks, asked) && events != []
    ensures var e, now := events[0], if asks[0].Some? then asks[0] else asked;
            var gone := e.Msg? && !IsNok(e.cmd, e.payload) && now.Some? && Withdraws(e.cmd, e.payload, now.value);
            NoneTaken(events, asks) <==> NoneTaken(events[1..], asks[1..]) && (gone ==> AsksAnew(events[1..], asks[1..]))
  {
    hide AsksBetween, IsNok, Withdraws;
    FirstTakes(events, asks, asked);
    LaterTakes(events, asks);
  }

  lemma LaterTakes(events: seq<Event>, asks: Asks)
    requires events != [] && |asks| == |events|
    ensures NoneTaken(events[1..], asks[1..]) <==> forall i: nat, j: nat :: 0 < i < j < |events| ==> !Takes(events, asks, i, j)
  {
    hide AsksBetween, Withdraws;
    forall i: nat, j: nat | 0 < i < j < |events| ensures Takes(events, asks, i, j) == Takes(events[1..], asks[1..], i - 1, j - 1) {
      AsksShift(asks, i, j - 1);
    }
    if NoneTaken(events[1..], asks[1..]) {
      forall i: nat, j: nat | 0 < i < j < |events| ensures !Takes(events, asks, i, j) {
        assert !Takes(events[1..], asks[1..], i - 1, j - 1);
      }
    } else {
      var i: nat, j: nat :| i < j < |events[1..]| && Takes(events[1..], asks[1..], i, j);
      assert Takes(events, asks, i + 1, j + 1);
    }
  }

  lemma FirstTakes(events: seq<Event>, asks: Asks, asked: Option<nat>)
    requires Honest(events, asks, asked) && events != []
    ensures var e, now := events[0], if asks[0].Some? then asks[0] else asked;
            var gone := e.Msg? && !IsNok(e.cmd, e.payload) && now.Some? && Withdraws(e.cmd, e.payload, now.value);
            (forall j: nat :: 0 < j < |events| ==> !Takes(events, asks, 0, j)) <==> (gone ==> AsksAnew(events[1..], asks[1..]))
  {
    hide AsksBetween;
    var e, now := events[0], if asks[0].Some? then asks[0] else asked;
    var gone := e.Msg? && !IsNok(e.cmd, e.payload) && now.Some? && Withdraws(e.cmd, e.payload, now.value);
    forall j: nat | j < |events| - 1
      ensures events[1..][j] == events[j + 1]
      ensures AsksBetween(asks, 1, j + 1) == AsksBetween(asks[1..], 0, j)
      ensures events[j + 1].CwReply? && e.Msg? && !AsksBetween(asks[1..], 0, j) ==> !IsNok(e.cmd, e.payload) && now == Some(events[j + 1].card)
    {
      AsksShift(asks, 0, j);
      if events[j + 1].CwReply? && e.Msg? && !AsksBetween(asks[1..], 0, j) {
        NextReply(events[1..], asks[1..], if IsNok(e.cmd, e.payload) then None else now, j);
      }
    }
    if gone && !AsksAnew(events[1..], asks[1..]) {
      var j: nat :| j < |events[1..]| && events[1..][j].CwReply? && !AsksBetween(asks[1..], 0, j);
      assert Takes(events, asks, 0, j + 1);
    }
    if j: nat :| 0 < j < |events| && Takes(events, asks, 0, j) {
      assert events[1..][j - 1] == events[j];
    }
  }

  /** The reader's entry is the request the server is working on, or it is gone. */
  predicate Matches(q: Reader, asked: Option<nat>) {
    (q.inFlight == asked || q.inFlight == None) && (asked.Some? ==> !q.justLoggedIn)
  }

  /** In full: all events are seen, and no run of an honest server shows anything but what was sent. */
  lemma {:induction false} SeenInFullIff(events: seq<Event>, node: int, drift: Byte, q: Reader, asks: Asks, asked: Option<nat>)
    requires Honest(events, asks, asked) && Matches(q, asked)
    ensures Seen(events, node, drift, q, asks) == Expected(events, node, drift)
            <==> CyclesOnlyLast(events) && NoneTaken(events, asks) && (asked.Some? && q.inFlight == None ==> AsksAnew(events, asks))
    decreases |events|
  {
    hide Xor, Scramble, IsNok, Withdraws, Cycles, AsksBetween, Drift;
    if events == [] {
    } else {
      var e, tail, q', now := events[0], events[1..], Asked(q, asks), if asks[0].Some? then asks[0] else asked;
      TakenSplits(events, asks, asked);
      CyclesSplits(events);
      AnewSplits(events, asks);
      match e
      case Msg(flag, cmd, payload) =>
        if GivesUp(q', cmd, payload) {
          assert |Seen(events, node, drift, q, asks)| == 1;
        } else {
          assert Seen(events, node, drift, q, asks)[1..] == Seen(tail, node, 0, After(q', cmd, payload), asks[1..]);
          assert Expected(events, node, drift)[1..] == Expected(tail, node, 0);
          if IsNok(cmd, payload) {
            AnewIfIdle(tail, asks[1..]);
          }
          SeenInFullIff(tail, node, 0, After(q', cmd, payload), asks[1..], if IsNok(cmd, payload) then None else now);
        }
      case CwReply(flag, cw, card) =>
        if q'.inFlight == None {
          assert Seen(events, node, drift, q, asks) == [];
        } else {
          ScrambleRoundTrip(cw, node, card, node, card);
          assert Seen(events, node, drift, q, asks)[1..] == Seen(tail, node, Drift(node, card), Reader(None, false), asks[1..]);
          assert Expected(events, node, drift)[1..] == Expected(tail, node, Drift(node, card));
          SeenInFullIff(tail, node, Drift(node, card), Reader(None, false), asks[1..], None);
        }
    }
  }

  predicate NeverCycles(events: seq<Event>) {
    forall i :: 0 <= i < |events| && events[i].Msg? ==> !Cycles(events[i].cmd, events[i].payload)
  }

  lemma {:induction false} LastsIfInFull(events: seq<Event>, node: int, drift: Byte, q: Reader, asks: Asks, asked: Option<nat>)
    requires Honest(events, asks, asked) && Matches(q, asked) && NeverCycles(events)
    requires |Seen(events, node, drift, q, asks)| == |events|
    ensures Lasts(events, q, asks)
    decreases |events|
  {
    hide Xor, Scramble, IsNok, Withdraws, Cycles, Drift;
    if events != [] {
      var e, tail, q', now := events[0], events[1..], Asked(q, asks), if asks[0].Some? then asks[0] else asked;
      match e
      case Msg(flag, cmd, payload) =>
        LastsIfInFull(tail, node, 0, After(q', cmd, payload), asks[1..], if IsNok(cmd, payload) then None else now);
      case CwReply(flag, cw, card) =>
        LastsIfInFull(tail, node, Drift(node, card), Reader(None, false), asks[1..], None);
    }
  }

  /**
   The session of an honest server.  Every command, payload and control word is
   delivered as sent, and flags up to the drift, if and only if no request was
   withdrawn while the server was working on it, and no message but the last
   one makes the reader start anew.  Nothing overruns the buffer.
   */
  lemma SessionDelivers(ring: Ring, s: Byte, t: Byte, node: int, events: seq<Event>, q: Reader, asks: Asks, room: nat)
    requires room >= 4 + CW_LEN && q.inFlight == None
    requires forall i :: 0 <= i < |events| ==> Sendable(events[i], room)
    requires Honest(events, asks, None)
    ensures var sent := SendAll(Block(ring, s), node, events);
            var got := RecvAll(Block(ring, t), sent.out, node, q, asks, room);
            && !got.overrun
            && (got.deliveries == Expected(events, node, Xor(s, t)) <==> CyclesOnlyLast(events) && NoneTaken(events, asks))
            && (NeverCycles(events) && NoneTaken(events, asks) ==> got.rest == [] && got.block.ring == sent.block.ring)
  {
    hide RecvAll, SendAll, Seen, Expected, Lasts, Honest, Xor, Cycles, Takes;
    SessionFollows(ring, s, t, node, events, q, asks, room);
    SeenInFullIff(events, node, Xor(s, t), q, asks, None);
    if NeverCycles(events) && NoneTaken(events, asks) {
      LastsIfInFull(events, node, Xor(s, t), q, asks, None);
    }
  }

  /**
   The server withdraws the card while it is still working on a request for it,
   and then answers: the reply finds no entry, and the reader gives up.
   */
  lemma WithdrawnInFlight(ring: Ring, s: Byte, t: Byte, node: int, flag: Byte, id: seq<Byte>, flag': Byte, cw: seq<Byte>, room: nat)
    requires room >= 4 + CW_LEN && |id| == 4 && |cw| == CW_LEN
    ensures var card := CardId(id);
            var events, asks := [Msg(flag, MSG_CARD_REMOVED, id), CwReply(flag', cw, card)], [Some(card), None];
            && Honest(events, asks, None)
            && RecvAll(Block(ring, t), SendAll(Block(ring, s), node, events).out, node, Reader(None, true), asks, room).deliveries
               == [Plain(Xor(flag, Xor(s, t)), MSG_CARD_REMOVED, id)]
  {
    hide RecvAll, SendAll, Xor, CardId;
    var card := CardId(id);
    var events, asks := [Msg(flag, MSG_CARD_REMOVED, id), CwReply(flag', cw, card)], [Some(card), None];
    SessionFollows(ring, s, t, node, events, Reader(None, true), asks, room);
    assert events[1..] == [CwReply(flag', cw, card)] && asks[1..] == [None] && events[1..][1..] == [] && asks[1..][1..] == [];
    assert Honest([], [], None);
    assert Honest(events[1..], asks[1..], Some(card));
    assert Seen(events[1..], node, 0, Reader(None, false), asks[1..]) == [];
  }

  /** A server disconnects after this command of CCcam 2.2. */
  predicate Disconnects(e: Event) {
    e.Msg? && e.cmd == MSG_CMD_0E
  }

  /** The messages a server takes. */
  function Served(events: seq<Event>): (r: seq<Event>)
    ensures r <= events
    ensures r == events <==> forall i :: 0 <= i < |events| - 1 ==> !Disconnects(events[i])
  {
    if events == [] then []
    else if Disconnects(events[0]) then events[..1]
    else
      var tail := events[1..];
      assert forall i :: 0 <= i < |tail| ==> tail[i] == events[i + 1];
      assert forall i :: 0 < i < |events| ==> events[i] == tail[i - 1];
      [events[0]] + Served(tail)
  }

  /** What a client sends, requests included, arrives as sent; from the second message on with its flag. */
  lemma {:induction false} ServerTakes(ring: Ring, s: Byte, t: Byte, node: int, events: seq<Event>, room: nat)
    requires room >= 4 && forall i :: 0 <= i < |events| ==> Servable(events[i], room)
    ensures var sent := SendAll(Block(ring, s), node, events);
            var got := ServeAll(Block(ring, t), sent.out, room);
            && got.deliveries == Expected(Served(events), node, Xor(s, t)) && !got.overrun
            && ((forall e :: e in events ==> !Disconnects(e)) ==>
                  got.rest == [] && got.block == if events == [] then Block(ring, t) else sent.block)
    decreases |events|
  {
    hide CryptSeq, Xor, RecvFrame, SendFrame;
    if events == [] {
      NothingOnTheWire(Block(ring, t), room);
    } else {
      var e := events[0];
      var first := SendEvent(Block(ring, s), node, e);
      var rest := SendAll(first.block, node, events[1..]);
      WholeFrameArrives(ring, s, t, e.flag, e.cmd, e.payload, room, rest.out);
      XorCancel(first.block.state, first.block.state);
      ServerTakes(first.block.ring, first.block.state, first.block.state, node, events[1..], room);
      var served := Served(events);
      assert served[1..] == if Disconnects(e) then [] else Served(events[1..]);
      assert Expected(served, node, Xor(s, t)) == [Plain(Xor(e.flag, Xor(s, t)), e.cmd, e.payload)] + Expected(served[1..], node, 0);
    }
  }

  lemma CyclesSplits(events: seq<Event>)
    requires events != []
    ensures var e := events[0];
            CyclesOnlyLast(events) <==> CyclesOnlyLast(events[1..]) && (|events| > 1 && e.Msg? ==> !Cycles(e.cmd, e.payload))
  {
    hide Cycles;
    var tail := events[1..];
    assert forall i :: 0 <= i < |tail| ==> tail[i] == events[i + 1];
    if CyclesOnlyLast(events) {
      forall i | 0 <= i < |tail| - 1 && tail[i].Msg? ensures !Cycles(tail[i].cmd, tail[i].payload) {
        assert tail[i] == events[i + 1];
      }
    }
    if CyclesOnlyLast(tail) {
      forall i | 1 <= i < |events| - 1 && events[i].Msg? ensures !Cycles(events[i].cmd, events[i].payload) {
        assert tail[i - 1] == events[i];
      }
    }
  }

  lemma AnewSplits(events: seq<Event>, asks: Asks)
    requires events != [] && |asks| == |events|
    ensures AsksAnew(events, asks) <==>
            asks[0].Some? || (events[0].Msg? && AsksAnew(events[1..], asks[1..]))
  {
    hide AsksBetween;
    FirstAsk(asks);
    var tail := events[1..];
    forall j: nat | j < |tail| ensures tail[j] == events[j + 1] && AsksBetween(asks, 0, j + 1) == (asks[0].Some? || AsksBetween(asks[1..], 0, j)) {
      AsksShift(asks, 0, j);
    }
    if AsksAnew(events, asks) && !asks[0].Some? {
      forall j: nat | j < |tail| && tail[j].CwReply? ensures AsksBetween(asks[1..], 0, j) {
        assert events[j + 1].CwReply?;
      }
    }
    if events[0].Msg? && AsksAnew(tail, asks[1..]) {
      forall j: nat | j < |events| && events[j].CwReply? ensures AsksBetween(asks, 0, j) {
        assert tail[j - 1].CwReply?;
      }
    }
    if asks[0].Some? {
      forall j: nat | j < |events| ensures AsksBetween(asks, 0, j) {
        if j > 0 {
          assert tail[j - 1] == events[j];
        }
      }
    }
  }

  lemma FirstAsk(asks: Asks)
    requires asks != []
    ensures AsksBetween(asks, 0, 0) == asks[0].Some?
  {
  }

  lemma NothingOnTheWire(b: Block, room: nat)
    requires room >= 4
    ensures RecvFrame(b, [], room, room) == Closed(b, [])
  {
  }

  function AsSent(events: seq<Event>): seq<Delivery> {
    if events == [] then []
    else
      var e := events[0];
      [if e.Msg? then Plain(e.flag, e.cmd, e.payload) else Words(e.flag, e.cw)] + AsSent(events[1..])
  }

  /** Flags included, a session arrives as sent exactly if no event but the last leaves a drift. */
  lemma {:induction false} FlagsIntactIff(events: seq<Event>, node: int, drift: Byte)
    requires events != []
    ensures Expected(events, node, drift) == AsSent(events)
            <==> drift == 0 && forall i :: 0 <= i < |events| - 1 ==> OwnDrift(node, events[i]) == 0
    decreases |events|
  {
    hide Xor, OwnDrift;
    var e, tail := events[0], events[1..];
    XorCancel(e.flag, drift);
    XorCancel(drift, e.flag);
    XorComm(e.flag, drift);
    XorZero(e.flag);
    assert (Xor(e.flag, drift) == e.flag) == (drift == 0);
    assert Expected(events, node, drift)[1..] == Expected(tail, node, OwnDrift(node, e));
    assert AsSent(events)[1..] == AsSent(tail);
    if tail != [] {
      FlagsIntactIff(tail, node, OwnDrift(node, e));
      assert forall i :: 0 <= i < |tail| ==> tail[i] == events[i + 1];
      assert forall i :: 1 <= i < |events| ==> events[i] == tail[i - 1];
    }
  }

  lemma MessagesIntact(events: seq<Event>, node: int)
    requires forall i :: 0 <= i < |events| ==> events[i].Msg?
    ensures Expected(events, node, 0) == AsSent(events)
  {
    hide Expected, AsSent;
    if events == [] {
      NothingExpected(node);
    } else {
      FlagsIntactIff(events, node, 0);
    }
  }

  lemma NothingExpected(node: int)
    ensures Expected([], node, 0) == AsSent([])
  {
  }

  /** The drift is real: card 1 of node 0 flips the low bit of the next flag. */
  lemma DriftExample(flag: Byte, cw: seq<Byte>)
    ensures OwnDrift(0, CwReply(flag, cw, 1)) == 1
  {
    hide Xor, MaskByte, XorAll;
    forall i | 0 <= i < CW_LEN ensures Mask(0, 1, CW_LEN)[i] == SAMPLE[i] {
      CardOneMask(i);
    }
    assert Mask(0, 1, CW_LEN) == SAMPLE;
    SampleFold();
  }

  const SAMPLE: seq<Byte> := [1, 255, 0, 255, 0, 255, 0, 255, 0, 255, 0, 255, 0, 255, 0, 255]

  lemma CardOneMask(i: nat)
    requires i < CW_LEN
    ensures MaskByte(0, 1, i) == SAMPLE[i]
  {
    hide Xor, ShiftRight8;
    XorZero(0);
    XorZero(1);
    XorZero(255);
    Shifts(4 * i);
    Shifts(2 * i);
  }

  lemma Shifts(bits: nat)
    ensures ShiftRight8(0, bits) == 0
    ensures ShiftRight8(1, bits) == if bits == 0 then 1 else 0
  {
  }

  lemma SampleFold()
    ensures XorAll(SAMPLE) == 1
  {
    hide XorAll, SampleTail;
    SampleIs();
    PartsFold();
  }

  lemma PartsFold()
    ensures XorAll([1] + ([255] + SampleTail(7))) == 1
  {
    hide Xor, XorAll, SampleTail;
    SampleTailFold(7);
    XorAllFirst(1, [255] + SampleTail(7));
    XorAllFirst(255, SampleTail(7));
    XorCancel(255, 255);
    XorZero(1);
  }

  lemma SampleIs()
    ensures SAMPLE == [1] + ([255] + SampleTail(7))
  {
  }

  lemma XorAllFirst(x: Byte, rest: seq<Byte>)
    ensures XorAll([x] + rest) == Xor(x, XorAll(rest))
  {
    hide Xor;
    assert ([x] + rest)[1..] == rest;
  }

  function SampleTail(n: nat): seq<Byte> {
    if n == 0 then [] else [0, 255] + SampleTail(n - 1)
  }

  lemma {:induction false} SampleTailFold(n: nat)
    ensures XorAll(SampleTail(n)) == if n % 2 == 0 then 0 else 255
  {
    hide Xor;
    if n > 0 {
      SampleTailFold(n - 1);
      var tail := XorAll(SampleTail(n - 1));
      XorZero(255);
      XorCancel(255, 255);
      XorZero(Xor(255, tail));
      assert SampleTail(n)[1..] == [255] + SampleTail(n - 1) && SampleTail(n)[1..][1..] == SampleTail(n - 1);
    }
  }

  // -- bytes and numbers of the protocol

  /** A frame on its way: flag, command, the length of the payload with the high byte first, the payload. */
  lemma FrameBytes(flag: Byte, cmd: Byte, payload: seq<Byte>)
    ensures var f := Frame(flag, cmd, payload);
            var hi: int, lo: int := f[2], f[3];
            f[0] == flag && f[1] == cmd && 256 * hi + lo == |payload| % 65536 && f[4..] == payload
  {
    HeaderSize(|payload|);
  }

  /** A reply to a request: command 1, sixteen scrambled bytes, and one more run over these that is not sent. */
  lemma ReplyBytes(b: Block, node: int, flag: Byte, cw: seq<Byte>, card: nat)
    requires |cw| == 16
    ensures var words, r := Scramble(cw, node, card), SendEvent(b, node, CwReply(flag, cw, card));
            var run := CryptSeq(CCcam, b, [flag, 1, 0, 16] + words + words, Encrypt);
            r.out == run.out[..20] && r.block == run.block
  {
    hide CryptSeq, ScrambleByte;
    var words := Scramble(cw, node, card);
    assert Frame(flag, MSG_CW_ECM, words) == [flag, 1, 0, 16] + words;
    CryptAppend(CCcam, b, [flag, 1, 0, 16] + words, words, Encrypt);
  }

  /**
   What a message does to a reader that waits for an answer, by the numbers of
   the protocol: a refusal (254, 255) ends the wait; so does the removal (4) of
   the very card, named by its first four bytes, and a server that starts anew
   (8, of 72 bytes).  Otherwise messages 2, 5 and 6 show that the login is over.
   */
  lemma MessageEffects(card: nat, justIn: bool, cmd: Byte, payload: seq<Byte>)
    ensures var id := if |payload| >= 4
                      then payload[0] as int * 0x100_0000 + payload[1] as int * 0x1_0000 + payload[2] as int * 0x100 + payload[3] as int
                      else -1;
            var gone := (cmd >= 254 && |payload| <= 1) || (cmd == 4 && id == card) || (cmd == 8 && |payload| == 72);
            After(Reader(Some(card), justIn), cmd, payload)
            == Reader(if gone then None else Some(card), justIn && cmd != 2 && cmd != 5 && cmd != 6)
  {
  }

  /** A reader gives up on message 14, on data (8) of 35 bytes, and on a refusal right after its login. */
  lemma GivesUpIff(q: Reader, cmd: Byte, payload: seq<Byte>)
    ensures GivesUp(q, cmd, payload)
            <==> cmd == 14 || (cmd == 8 && |payload| == 35) || (q.justLoggedIn && cmd >= 254 && |payload| <= 1)
  {
  }

  /** Of the frames that its buffer holds, a reader takes those with up to 1020 bytes of payload. */
  lemma TakesIff(ring: Ring, s: Byte, t: Byte, node: int, flag: Byte, cmd: Byte, payload: seq<Byte>,
                 q: Reader, asks: Asks, room: nat, tail: seq<Byte>)
    requires cmd != 1 && 4 + |payload| <= room && |payload| < 65536
    ensures RecvAll(Block(ring, t), SendFrame(Block(ring, s), flag, cmd, payload).out + tail, node, q, asks, room).deliveries != []
            <==> |payload| <= 1020
  {
    hide CryptSeq, Xor, RecvFrame, SendFrame;
    WholeFrameArrives(ring, s, t, flag, cmd, payload, room, tail);
  }

  /** So does a server, for every command. */
  lemma ServerTakesIff(ring: Ring, s: Byte, t: Byte, flag: Byte, cmd: Byte, payload: seq<Byte>, room: nat, tail: seq<Byte>)
    requires 4 + |payload| <= room && |payload| < 65536
    ensures ServeAll(Block(ring, t), SendFrame(Block(ring, s), flag, cmd, payload).out + tail, room).deliveries != []
            <==> |payload| <= 1020
  {
    hide CryptSeq, Xor, RecvFrame, SendFrame;
    WholeFrameArrives(ring, s, t, flag, cmd, payload, room, tail);
  }

  /** Sixteen bytes with command 1 are control words if and only if a request is in flight. */
  lemma WordsTakenIff(ring: Ring, s: Byte, t: Byte, node: int, flag: Byte, payload: seq<Byte>,
                      q: Reader, room: nat, tail: seq<Byte>)
    requires |payload| == 16 && room >= 20
    ensures RecvAll(Block(ring, t), SendFrame(Block(ring, s), flag, 1, payload).out + tail, node, q, [], room).deliveries != []
            <==> q.inFlight.Some?
  {
    hide CryptSeq, Xor, RecvFrame, SendFrame, Scramble;
    WholeFrameArrives(ring, s, t, flag, 1, payload, room, tail);
  }
}
