/** One end of a CCcam connection as the program holds it: two cipher blocks, buffers, a socket. */
module CcConnection {
  import opened Bytes
  import opened CcCipher
  import opened CcSession
  import opened Sequences

  class Connection {
    const encrypt: CryptBlock
    const decrypt: CryptBlock
    var gFlag: Byte
    var inbox: seq<Byte>   // bytes the peer has sent and we have not read
    var outbox: seq<Byte>  // bytes we have sent
    var inFlight: Option<nat>  // the card of our request, while its entry is there
    var justLoggedIn: bool

    ghost predicate Valid() {
      && encrypt.Valid() && decrypt.Valid()
      && encrypt != decrypt && encrypt.keytable != decrypt.keytable
    }

    constructor ()
      ensures Valid() && fresh(encrypt) && fresh(decrypt) && fresh(encrypt.keytable) && fresh(decrypt.keytable)
    {
      encrypt := new CryptBlock();
      decrypt := new CryptBlock();
      gFlag, inbox, outbox := 0, [], [];
      inFlight, justLoggedIn := None, false;
    }

    /** What a reader remembers of its requests. */
    function State(): Reader
      reads `inFlight, `justLoggedIn
    {
      Reader(inFlight, justLoggedIn)
    }

    /** `cc_cmd_send`: one framed message, or raw bytes for MSG_NO_HEADER. */
    method CmdSend(payload: seq<Byte>, cmd: Byte, noHeader: bool)
      requires Valid()
      modifies `outbox, encrypt, encrypt.keytable
      ensures var r := if noHeader then CryptSeq(CCcam, old(encrypt.Value()), payload, Encrypt)
                       else SendFrame(old(encrypt.Value()), gFlag, cmd, payload);
              outbox == old(outbox) + r.out && encrypt.Value() == r.block
    {
      hide CryptSeq, Frame, Put;
      var plain := if noHeader then payload else Frame(gFlag, cmd, payload);
      var netbuf := new Byte[|plain|](i requires 0 <= i < |plain| => plain[i]);
      assert netbuf[..] == plain && netbuf[0..|plain|] == plain;
      PutAll(plain, CryptSeq(CCcam, encrypt.Value(), plain, Encrypt).out);
      encrypt.Crypt(CCcam, netbuf, 0, |plain|, Encrypt);
      outbox := outbox + netbuf[..];
    }

    /** Takes up to `n` bytes from the socket and places them at `buf[at..]`. */
    method Take(buf: array<Byte>, at: nat, n: nat) returns (got: nat)
      requires at + Least(n, |inbox|) <= buf.Length && buf != encrypt.keytable && buf != decrypt.keytable
      modifies `inbox, buf
      ensures got == Least(n, |old(inbox)|)
      ensures inbox == old(inbox)[got..]
      ensures buf[..] == Put(old(buf[..]), at, old(inbox)[..got])
    {
      got := Least(n, |inbox|);
      forall i | 0 <= i < got {
        buf[at + i] := inbox[i];
      }
      inbox := inbox[got..];
    }

    /** Reads `n` bytes and decrypts them in place; with fewer in the socket it only drains it. */
    method TakeDecrypted(buf: array<Byte>, at: nat, n: nat) returns (ok: bool)
      requires Valid() && at + Least(n, |inbox|) <= buf.Length && buf != encrypt.keytable && buf != decrypt.keytable
      modifies `inbox, buf, decrypt, decrypt.keytable
      ensures ok == (n <= |old(inbox)|)
      ensures inbox == if ok then old(inbox)[n..] else []
      ensures if ok then
                var r := CryptSeq(CCcam, old(decrypt.Value()), old(inbox)[..n], Decrypt);
                decrypt.Value() == r.block && buf[..] == Put(old(buf[..]), at, r.out)
              else
                decrypt.Value() == old(decrypt.Value())
    {
      hide CryptByte;
      ghost var before, wire := buf[..], inbox;
      var got := Take(buf, at, n);
      ok := got == n;
      if ok {
        assert buf[at..at + n] == wire[..n];
        decrypt.Crypt(CCcam, buf, at, n, Decrypt);
        PutTwice(before, at, wire[..n], buf[at..at + n]);
      }
    }

    /**
     `cc_msg_recv`: the length of the message in `buf`, 0 for a message longer
     than `maxlen`, -1 when the connection is gone.  `overrun` tells that the
     program would now write past the end of `buf`; the method stops there.
     */
    method MsgRecv(buf: array<Byte>, maxlen: nat) returns (len: int, overrun: bool)
      requires Valid() && maxlen <= buf.Length
      requires buf != encrypt.keytable && buf != decrypt.keytable
      modifies `inbox, `gFlag, buf, decrypt, decrypt.keytable
      ensures var r := RecvFrame(old(decrypt.Value()), old(inbox), maxlen, buf.Length);
              && decrypt.Value() == r.block && inbox == r.rest && overrun == r.Overrun?
              && (r.Closed? ==> len == -1)
              && (r.TooBig? ==> len == 0 && gFlag == r.flag)
              && (r.Got? ==> len == 4 + |r.payload| && gFlag == r.flag
                             && buf[..len] == Header(r.flag, r.cmd, |r.payload|) + r.payload)
    {
      hide CryptSeq, Header;
      ghost var wire := inbox;
      overrun := false;
      if maxlen < 4 {
        return -1, false;
      }
      var ok := TakeDecrypted(buf, 0, 4);
      if !ok {
        return -1, false;
      }
      HeaderOfBytes(buf[0], buf[1], buf[2], buf[3]);
      CryptNothing(decrypt.Value(), Decrypt);
      gFlag := buf[0];
      var size := BigEndian16(buf[2], buf[3]);
      len := 4;
      assert |wire| >= 4 + size ==> wire[4..][..size] == wire[4..4 + size];
      ghost var head := buf[..4];
      assert head == [buf[0], buf[1], buf[2], buf[3]];
      if size != 0 {
        if size > maxlen {
          return 0, false;
        }
        if 4 + Least(size, |inbox|) > buf.Length {
          return len, true;
        }
        ok := TakeDecrypted(buf, 4, size);
        if !ok {
          return -1, false;
        }
        assert buf[..4 + size] == head + buf[4..4 + size];
        len := 4 + size;
      }
    }

    /** `cc_cw_crypt`: scrambles or descrambles the sixteen bytes at `at`, in place. */
    static method CwCrypt(cws: array<Byte>, at: nat, node: int, card: nat)
      requires at + CW_LEN <= cws.Length
      modifies cws
      ensures cws[..] == Put(old(cws[..]), at, Scramble(old(cws[at..at + CW_LEN]), node, card))
    {
      hide Xor, ShiftRight8;
      for i := 0 to CW_LEN
        invariant forall k :: 0 <= k < cws.Length ==>
          cws[k] == if at <= k < at + i then ScrambleByte(old(cws[k]), node, card, k - at) else old(cws[k])
      {
        var tmp := Xor(cws[at + i], ShiftRight8(node, 4 * i));
        if i % 2 == 1 {
          tmp := 255 - tmp;
        }
        cws[at + i] := Xor(ShiftRight8(card, 2 * i), tmp);
      }
    }

    /** `cc_send_dcw` for words that were found, in non-extended mode. */
    method SendDcw(cw: seq<Byte>, node: int, card: nat)
      requires Valid() && |cw| == CW_LEN
      modifies `outbox, encrypt, encrypt.keytable
      ensures var r := SendEvent(old(encrypt.Value()), node, CwReply(gFlag, cw, card));
              outbox == old(outbox) + r.out && encrypt.Value() == r.block
    {
      hide CryptSeq, Scramble, Frame, Put;
      var buf := new Byte[CW_LEN](i requires 0 <= i < CW_LEN => cw[i]);
      assert buf[..] == cw && buf[0..CW_LEN] == cw;
      CwCrypt(buf, 0, node, card);
      PutAll(cw, Scramble(cw, node, card));
      CmdSend(buf[..], MSG_CW_ECM, false);
      assert buf[0..CW_LEN] == buf[..];
      encrypt.Crypt(CCcam, buf, 0, CW_LEN, Encrypt);
    }

    /** The control word case of `cc_parse_msg` on the reader's side, for a reply of sixteen bytes. */
    method HandleCw(buf: array<Byte>, node: int, card: nat) returns (dcw: seq<Byte>)
      requires Valid() && 4 + CW_LEN <= buf.Length
      requires buf != encrypt.keytable && buf != decrypt.keytable
      modifies buf, decrypt, decrypt.keytable
      ensures dcw == Scramble(old(buf[4..4 + CW_LEN]), node, card)
      ensures decrypt.Value() == CryptSeq(CCcam, old(decrypt.Value()), dcw, Encrypt).block
    {
      hide CryptSeq, Scramble;
      CwCrypt(buf, 4, node, card);
      dcw := buf[4..4 + CW_LEN];
      decrypt.Crypt(CCcam, buf, 4, CW_LEN, Encrypt);
    }

    /** What `cc_send_ecm` notes of a request before it is sent. */
    method NoteRequest(card: nat)
      modifies `inFlight, `justLoggedIn
      ensures State() == Reader(Some(card), false)
    {
      justLoggedIn := false;
      inFlight := Some(card);
    }

    /** The cases of `cc_parse_msg` on the reader's side that matter to requests; false when the connection is given up. */
    method ParseMessage(cmd: Byte, payload: seq<Byte>) returns (ok: bool)
      modifies `inFlight, `justLoggedIn
      ensures ok == !GivesUp(old(State()), cmd, payload)
      ensures ok ==> State() == After(old(State()), cmd, payload)
    {
      ok := true;
      if cmd == MSG_CARD_REMOVED {
        if |payload| >= 4 && inFlight == Some(CardId(payload)) {
          inFlight := None;
        }
      } else if cmd == MSG_SRV_DATA {
        if |payload| == 72 {
          inFlight := None;
        }
        ok := |payload| != 35;
      } else if cmd == MSG_CMD_0E {
        ok := false;
      } else if cmd == MSG_CW_NOK1 || cmd == MSG_CW_NOK2 {
        if |payload| <= 1 {
          ok := !justLoggedIn;
          inFlight := None;
        }
      } else if cmd == MSG_EMM_ACK || cmd == MSG_CMD_05 || cmd == MSG_KEEPALIVE {
        justLoggedIn := false;
      }
    }

    /** `cc_recv` of a reader, one message: false when the connection is given up. */
    method ReceiveOne(buf: array<Byte>, node: int) returns (more: bool, overrun: bool, delivered: seq<Delivery>)
      requires Valid() && buf.Length >= 4 + CW_LEN
      requires buf != encrypt.keytable && buf != decrypt.keytable
      modifies `inbox, `gFlag, `inFlight, `justLoggedIn, buf, decrypt, decrypt.keytable
      ensures forall asks: Asks :: asks != [] && asks[0] == None ==>
                var s := RecvAll(old(decrypt.Value()), old(inbox), node, old(State()), asks, buf.Length);
                if more then
                  var t := RecvAll(decrypt.Value(), inbox, node, State(), asks[1..], buf.Length);
                  s == t.(deliveries := delivered + t.deliveries)
                else s == Session(delivered, decrypt.Value(), inbox, overrun)
      ensures more ==> |inbox| < |old(inbox)|
    {
      hide CryptSeq, Scramble, RecvFrame, GivesUp, After;
      more, delivered := false, [];
      ghost var r := RecvFrame(decrypt.Value(), inbox, buf.Length, buf.Length);
      var len;
      len, overrun := MsgRecv(buf, buf.Length);
      if overrun || len <= 0 || len > MAX_MESSAGE {
        return;
      }
      assert buf[..len][1] == r.cmd && buf[4..len] == buf[..len][4..] == r.payload;
      var cmd := buf[1];
      if cmd != MSG_CW_ECM {
        delivered := [Plain(gFlag, cmd, buf[4..len])];
        more := ParseMessage(cmd, buf[4..len]);
      } else if inFlight == None || len != 4 + CW_LEN {
        return;
      } else {
        var dcw := HandleCw(buf, node, inFlight.value);
        inFlight, justLoggedIn := None, false;
        more, delivered := true, [Words(gFlag, dcw)];
      }
    }

    /**
     The receive loop of a reader's thread, with its buffer of `room` bytes:
     messages until the connection is gone, with the requests that are sent in
     between.
     */
    method ReceiveAll(node: int, asks: Asks, room: nat) returns (deliveries: seq<Delivery>, overrun: bool)
      requires Valid() && room >= 4 + CW_LEN
      modifies `inbox, `gFlag, `inFlight, `justLoggedIn, decrypt, decrypt.keytable
      ensures var s := RecvAll(old(decrypt.Value()), old(inbox), node, old(State()), asks, room);
              deliveries == s.deliveries && decrypt.Value() == s.block && inbox == s.rest && overrun == s.overrun
    {
      hide RecvAll, After, GivesUp;
      var buf := new Byte[room](_ => 0);
      var later, more := asks, true;
      ghost var all := RecvAll(decrypt.Value(), inbox, node, State(), asks, room);
      deliveries, overrun := [], false;
      while more
        invariant Valid() && fresh(buf)
        invariant var s := if more then RecvAll(decrypt.Value(), inbox, node, State(), later, room) else Session([], decrypt.Value(), inbox, overrun);
                  all == s.(deliveries := deliveries + s.deliveries)
        decreases if more then |inbox| + 1 else 0
      {
        AskingFirst(decrypt.Value(), inbox, node, State(), later, room);
        if later != [] && later[0].Some? {
          NoteRequest(later[0].value);
        }
        later := Later(later);
        ghost var rest := [None] + later;
        assert rest[1..] == later;
        var delivered;
        more, overrun, delivered := ReceiveOne(buf, node);
        deliveries := deliveries + delivered;
      }
    }

    /** Asking before a message comes, and then receiving it. */
    lemma AskingFirst(b: Block, wire: seq<Byte>, node: int, q: Reader, asks: Asks, room: nat)
      ensures RecvAll(b, wire, node, q, asks, room) == RecvAll(b, wire, node, Asked(q, asks), [None] + Later(asks), room)
    {
      hide CryptSeq, RecvFrame, Scramble, GivesUp, After;
      assert ([None] + Later(asks))[1..] == Later(asks);
    }

    /** `cc_recv` of a server, one message. */
    method ServeOne(buf: array<Byte>) returns (more: bool, overrun: bool, delivered: seq<Delivery>)
      requires Valid() && buf.Length >= 4
      requires buf != encrypt.keytable && buf != decrypt.keytable
      modifies `inbox, `gFlag, buf, decrypt, decrypt.keytable
      ensures var s := ServeAll(old(decrypt.Value()), old(inbox), buf.Length);
              if more then
                var t := ServeAll(decrypt.Value(), inbox, buf.Length);
                |inbox| < |old(inbox)| && s == t.(deliveries := delivered + t.deliveries)
              else s == Session(delivered, decrypt.Value(), inbox, overrun)
    {
      hide CryptSeq, RecvFrame;
      more, delivered := false, [];
      ghost var r := RecvFrame(decrypt.Value(), inbox, buf.Length, buf.Length);
      var len;
      len, overrun := MsgRecv(buf, buf.Length);
      if overrun || len <= 0 || len > MAX_MESSAGE {
        return;
      }
      assert buf[..len][1] == r.cmd && buf[4..len] == buf[..len][4..] == r.payload;
      delivered := [Plain(gFlag, buf[1], buf[4..len])];
      more := buf[1] != MSG_CMD_0E;
    }

    /** The receive loop of a server's thread. */
    method Serve(room: nat) returns (deliveries: seq<Delivery>, overrun: bool)
      requires Valid() && room >= 4
      modifies `inbox, `gFlag, decrypt, decrypt.keytable
      ensures var s := ServeAll(old(decrypt.Value()), old(inbox), room);
              deliveries == s.deliveries && decrypt.Value() == s.block && inbox == s.rest && overrun == s.overrun
    {
      hide ServeAll;
      var buf := new Byte[room](_ => 0);
      var more := true;
      ghost var all := ServeAll(decrypt.Value(), inbox, room);
      deliveries, overrun := [], false;
      while more
        invariant Valid() && fresh(buf)
        invariant var s := if more then ServeAll(decrypt.Value(), inbox, room) else Session([], decrypt.Value(), inbox, overrun);
                  all == s.(deliveries := deliveries + s.deliveries)
        decreases if more then |inbox| + 1 else 0
      {
        var delivered;
        more, overrun, delivered := ServeOne(buf);
        deliveries := deliveries + delivered;
      }
    }

    /** The sending side of a session, one call of the program per event. */
    method SendEvents(node: int, events: seq<Event>)
      requires Valid() && forall i :: 0 <= i < |events| && events[i].CwReply? ==> |events[i].cw| == CW_LEN
      modifies `outbox, `gFlag, encrypt, encrypt.keytable
      ensures var r := SendAll(old(encrypt.Value()), node, events);
              outbox == old(outbox) + r.out && encrypt.Value() == r.block
    {
      hide CryptSeq, Scramble, SendFrame;
      ghost var all := SendAll(encrypt.Value(), node, events);
      ghost var sent: seq<Byte> := [];
      assert events[0..] == events;
      for i := 0 to |events|
        invariant outbox == old(outbox) + sent
        invariant var rest := SendAll(encrypt.Value(), node, events[i..]);
                  all == Run(sent + rest.out, rest.block)
      {
        var e := events[i];
        assert events[i..][0] == e && events[i..][1..] == events[i + 1..];
        ghost var first := SendEvent(encrypt.Value(), node, e);
        gFlag := e.flag;
        match e {
          case Msg(_, cmd, payload) => CmdSend(payload, cmd, false);
          case CwReply(_, cw, card) => SendDcw(cw, node, card);
        }
        OneSent(sent, first, SendAll(first.block, node, events[i + 1..]), old(outbox));
        assert encrypt.Value() == first.block;
        sent := sent + first.out;
      }
    }

    lemma OneSent(sent: seq<Byte>, first: Run, rest: Run, before: seq<Byte>)
      ensures sent + (first.out + rest.out) == (sent + first.out) + rest.out
      ensures (before + sent) + first.out == before + (sent + first.out)
    {
    }
  }

  /** Everything a connection sends, taken over the wire to the other end. */
  method Transmit(sender: Connection, receiver: Connection, node: int, events: seq<Event>)
    requires sender.Valid() && sender != receiver && sender.outbox == []
    requires forall i :: 0 <= i < |events| && events[i].CwReply? ==> |events[i].cw| == CW_LEN
    modifies sender`outbox, sender`gFlag, sender.encrypt, sender.encrypt.keytable, receiver`inbox
    ensures var r := SendAll(old(sender.encrypt.Value()), node, events);
            receiver.inbox == r.out && sender.encrypt.Value() == r.block
  {
    hide SendAll;
    sender.SendEvents(node, events);
    receiver.inbox := sender.outbox;
    assert [] + receiver.inbox == receiver.inbox;
  }

  /**
   The session theorem on the objects: what an honest server sends, message by
   message, the reader delivers in full if and only if no request is withdrawn
   while it is being worked on, and no message but the last makes it start anew.
   */
  method Deliver(sender: Connection, receiver: Connection, node: int, events: seq<Event>, asks: Asks, room: nat)
    returns (deliveries: seq<Delivery>)
    requires sender.Valid() && receiver.Valid() && room >= 4 + CW_LEN
    requires sender != receiver && sender.encrypt != receiver.decrypt && sender.encrypt.keytable != receiver.decrypt.keytable
    requires sender.outbox == [] && sender.encrypt.Value().ring == receiver.decrypt.Value().ring
    requires forall i :: 0 <= i < |events| ==> Sendable(events[i], room)
    requires Honest(events, asks, None) && receiver.inFlight == None
    modifies sender`outbox, sender`gFlag, sender.encrypt, sender.encrypt.keytable
    modifies receiver`inbox, receiver`gFlag, receiver`inFlight, receiver`justLoggedIn, receiver.decrypt, receiver.decrypt.keytable
    ensures deliveries == Expected(events, node, Xor(old(sender.encrypt.state), old(receiver.decrypt.state)))
            <==> CyclesOnlyLast(events) && NoneTaken(events, asks)
    ensures NeverCycles(events) && NoneTaken(events, asks) ==>
              receiver.inbox == [] && receiver.decrypt.Value().ring == sender.encrypt.Value().ring
  {
    hide CryptSeq, SendAll, RecvAll, Expected, Xor, Honest, NoneTaken, CyclesOnlyLast, NeverCycles;
    SessionDelivers(sender.encrypt.Value().ring, sender.encrypt.state, receiver.decrypt.state, node, events, receiver.State(), asks, room);
    Transmit(sender, receiver, node, events);
    var overrun;
    deliveries, overrun := receiver.ReceiveAll(node, asks, room);
  }

  /** And what a client sends, requests included, the server takes; their blocks are equal afterwards. */
  method DeliverToServer(client: Connection, server: Connection, node: int, messages: seq<Event>, room: nat)
    returns (deliveries: seq<Delivery>)
    requires client.Valid() && server.Valid() && room >= 4
    requires client != server && client.encrypt != server.decrypt && client.encrypt.keytable != server.decrypt.keytable
    requires client.outbox == [] && client.encrypt.Value().ring == server.decrypt.Value().ring
    requires forall i :: 0 <= i < |messages| ==> Servable(messages[i], room)
    modifies client`outbox, client`gFlag, client.encrypt, client.encrypt.keytable
    modifies server`inbox, server`gFlag, server.decrypt, server.decrypt.keytable
    ensures deliveries == Expected(Served(messages), node, Xor(old(client.encrypt.state), old(server.decrypt.state)))
    ensures messages != [] && (forall e :: e in messages ==> !Disconnects(e)) ==>
              server.inbox == [] && server.decrypt.Value() == client.encrypt.Value()
  {
    hide CryptSeq, SendAll, ServeAll, Expected, Xor, Served, Disconnects;
    ServerTakes(client.encrypt.Value().ring, client.encrypt.state, server.decrypt.state, node, messages, room);
    Transmit(client, server, node, messages);
    var overrun;
    deliveries, overrun := server.Serve(room);
  }
}
