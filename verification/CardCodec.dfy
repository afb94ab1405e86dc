/**
 The card announcement of the CCcam protocol: `write_card` (oscam/oscam_8249/
 module-cccshare.c) fills a message, `read_card` (module-cccam.c) takes it apart.
 A card lists its services itself, or it is bound to a service table.
 */
module CardCodec {
  import opened Bytes
  import opened Sequences

  const MAX_SIDS: Byte := 200
  const MAX_TABLE_SIDS: Byte := 240

  datatype Provider = Provider(prov: nat, sa: seq<Byte>)

  datatype Card = Card(
    id: nat, remoteId: nat, caid: nat, hop: Byte, reshare: Byte, serial: seq<Byte>,
    providers: seq<Provider>, goods: seq<nat>, bads: seq<nat>, nodes: seq<seq<Byte>>)

  /** A service table; `refuses` if the client or the card has its bit among the negative ones. */
  datatype Table = Table(caids: seq<nat>, services: seq<nat>, refuses: bool)

  datatype Binding = Unbound | Bound(services: seq<nat>, tables: seq<Table>) {
    function Max(): Byte {
      if Unbound? then MAX_SIDS else MAX_TABLE_SIDS
    }
  }

  predicate Refuses(t: Table, caid: nat) {
    t.refuses && caid in t.caids
  }

  /** The services of all tables that refuse the CAID. */
  function Refused(tables: seq<Table>, caid: nat): seq<nat> {
    if tables == [] then []
    else
      var last := tables[|tables| - 1];
      Refused(tables[..|tables| - 1], caid) + if Refuses(last, caid) then last.services else []
  }

  /** The card with the services that are announced for it. */
  function Resolved(card: Card, b: Binding): Card {
    if b.Unbound? then card else card.(goods := b.services, bads := Refused(b.tables, card.caid))
  }

  // -- numbers, most significant byte first

  function Pow256(k: nat): (p: nat)
    ensures p > 0
  {
    if k == 0 then 1 else 256 * Pow256(k - 1)
  }

  function BigEndian(n: nat, k: nat): (r: seq<Byte>)
    ensures |r| == k
  {
    if k == 0 then [] else BigEndian(n / 256, k - 1) + [n % 256]
  }

  function Number(s: seq<Byte>): nat {
    if s == [] then 0 else 256 * Number(s[..|s| - 1]) + s[|s| - 1]
  }

  lemma {:induction false} NumberOfBigEndian(n: nat, k: nat)
    ensures Number(BigEndian(n, k)) == n % Pow256(k)
    decreases k
  {
    if k > 0 {
      NumberOfBigEndian(n / 256, k - 1);
      var s := BigEndian(n, k);
      assert s[..|s| - 1] == BigEndian(n / 256, k - 1);
      LowestByte(n, Pow256(k - 1));
    }
  }

  lemma LowestByte(n: nat, p: nat)
    requires p > 0
    ensures 256 * (n / 256 % p) + n % 256 == n % (256 * p)
  {
    var q, r := n / 256 / p, n / 256 % p;
    assert n == 256 * (p * q + r) + n % 256;
    assert n == (256 * p) * q + (256 * r + n % 256);
    assert 256 * r + n % 256 < 256 * p;
    DivUnique(n, 256 * p, q, 256 * r + n % 256);
  }

  // -- lists of entries of equal size

  function Flatten(items: seq<seq<Byte>>): seq<Byte> {
    if items == [] then [] else items[0] + Flatten(items[1..])
  }

  predicate AllOfSize(items: seq<seq<Byte>>, size: nat) {
    forall i :: 0 <= i < |items| ==> |items[i]| == size
  }

  lemma {:induction false} FlattenLength(items: seq<seq<Byte>>, size: nat)
    requires AllOfSize(items, size)
    ensures |Flatten(items)| == size * |items|
    decreases items
  {
    if items != [] {
      FlattenLength(items[1..], size);
      assert size * |items| == size + size * |items[1..]|;
    }
  }

  lemma Shifted(a: seq<Byte>, b: seq<Byte>, at: nat, n: nat)
    requires at + n <= |b|
    ensures (a + b)[|a| + at..|a| + at + n] == b[at..at + n]
  {
  }

  lemma Scaled(size: nat, i: nat, j: nat)
    requires i <= j
    ensures 0 <= size * i <= size * j
  {
  }

  lemma {:induction false} FlattenAt(items: seq<seq<Byte>>, size: nat, i: nat)
    requires AllOfSize(items, size) && i < |items|
    ensures |Flatten(items)| == size * |items| && 0 <= size * i && size * i + size <= size * |items|
    ensures Flatten(items)[size * i..size * i + size] == items[i]
    decreases items
  {
    hide AllOfSize;
    var rest := items[1..];
    FlattenLength(items, size);
    assert |items[0]| == size && |items[i]| == size && AllOfSize(rest, size) by { Sizes(items, size, i); }
    Scaled(size, i + 1, |items|);
    assert size * (i + 1) == size * i + size;
    if i > 0 {
      FlattenAt(rest, size, i - 1);
      assert size * i == size + size * (i - 1);
      Shifted(items[0], Flatten(rest), size * (i - 1), size);
    }
  }

  lemma Sizes(items: seq<seq<Byte>>, size: nat, i: nat)
    requires AllOfSize(items, size) && i < |items|
    ensures |items[0]| == size && |items[i]| == size && AllOfSize(items[1..], size)
  {
  }

  lemma {:induction false} FlattenSnoc(items: seq<seq<Byte>>, item: seq<Byte>)
    ensures Flatten(items + [item]) == Flatten(items) + item
    decreases items
  {
    if items == [] {
      assert Flatten([item]) == item + Flatten([]) == item;
    } else {
      assert (items + [item])[1..] == items[1..] + [item];
      FlattenSnoc(items[1..], item);
    }
  }

  // -- the message

  function ProviderBytes(p: Provider, au: bool): seq<Byte> {
    BigEndian(p.prov, 3) + if au then p.sa else Zeros(4)
  }

  function ProviderItems(card: Card, au: bool): (r: seq<seq<Byte>>)
    ensures |r| == |card.providers|
  {
    seq(|card.providers|, i requires 0 <= i < |card.providers| => ProviderBytes(card.providers[i], au))
  }

  /** The services that find a place: at most `max` of them. */
  function FirstSids(s: seq<nat>, max: Byte): (r: seq<nat>)
    ensures |r| <= max
  {
    if |s| <= max then s else s[..max]
  }

  function SidItems(s: seq<nat>): (r: seq<seq<Byte>>)
    ensures |r| == |s|
  {
    seq(|s|, i requires 0 <= i < |s| => BigEndian(s[i], 2))
  }

  /** The fixed part of a message, before the counters. */
  function Head(card: Card, au: bool): seq<Byte> {
    BigEndian(card.id, 4) + BigEndian(card.remoteId, 4) + BigEndian(card.caid, 2) + [card.hop, card.reshare]
    + if au then card.serial else Zeros(8)
  }

  /** Field widths of the C structures. */
  predicate Sized(card: Card) {
    && card.id < Pow256(4) && card.remoteId < Pow256(4) && card.caid < Pow256(2) && |card.serial| == 8
    && (forall i :: 0 <= i < |card.providers| ==> |card.providers[i].sa| == 4)
    && (forall i :: 0 <= i < |card.goods| ==> card.goods[i] < Pow256(2))
    && (forall i :: 0 <= i < |card.bads| ==> card.bads[i] < Pow256(2))
    && (forall i :: 0 <= i < |card.nodes| ==> |card.nodes[i]| == 8)
  }

  function Goods(card: Card, ext: bool, max: Byte): seq<nat> {
    if ext then FirstSids(card.goods, max) else []
  }

  function Bads(card: Card, ext: bool, max: Byte): seq<nat> {
    if ext then FirstSids(card.bads, max) else []
  }

  function Counters(card: Card, ext: bool, max: Byte): seq<Byte> {
    [|card.providers| % 256] + if ext then [|Goods(card, ext, max)| % 256, |Bads(card, ext, max)| % 256] else []
  }

  /** What `write_card` puts into the message for a client, the own node last. */
  function Encode(card: Card, own: seq<Byte>, ext: bool, au: bool, max: Byte): seq<Byte> {
    Head(card, au) + Counters(card, ext, max) + Flatten(ProviderItems(card, au)) + Flatten(SidItems(Goods(card, ext, max))) + Flatten(SidItems(Bads(card, ext, max)))
    + [(|card.nodes| + 1) % 256] + Flatten(card.nodes + [own])
  }

  // -- reading

  function Entry(buf: seq<Byte>, at: nat, size: nat, i: nat): (e: seq<Byte>)
    requires at + size * (i + 1) <= |buf|
    ensures |e| == size
  {
    assert 0 <= size * i && size * (i + 1) == size * i + size;
    buf[at + size * i..at + size * i + size]
  }

  function Entries(buf: seq<Byte>, at: nat, size: nat, n: nat): (r: seq<seq<Byte>>)
    requires at + size * n <= |buf|
    ensures |r| == n && AllOfSize(r, size)
  {
    if n == 0 then []
    else
      Scaled(size, n - 1, n);
      Entries(buf, at, size, n - 1) + [Entry(buf, at, size, n - 1)]
  }

  /** The provider at position `i`; CAID 17xx has a marker for a provider known by its position. */
  function ReadProvider(e: seq<Byte>, caid: nat, i: nat): Provider
    requires |e| == 7
  {
    var n := Number(e[..3]);
    Provider(if n == 0xFFFFFF && caid / 256 == 0x17 then i else n, e[3..])
  }

  function ReadProviders(es: seq<seq<Byte>>, caid: nat): (r: seq<Provider>)
    requires AllOfSize(es, 7)
    ensures |r| == |es|
  {
    seq(|es|, i requires 0 <= i < |es| => ReadProvider(es[i], caid, i))
  }

  function ReadSids(es: seq<seq<Byte>>): (r: seq<nat>)
    ensures |r| == |es|
  {
    seq(|es|, i requires 0 <= i < |es| => Number(es[i]))
  }

  /** `read_card`; None when the counters lead out of the message. */
  function Decode(buf: seq<Byte>, ext: bool): Option<Card> {
    var base := if ext then 23 else 21;
    if |buf| < base then None
    else
      var caid, np: nat := Number(buf[8..10]), buf[20];
      var ng: nat, nb: nat := if ext then buf[21] else 0, if ext then buf[22] else 0;
      var goodsAt := base + 7 * np;
      var badsAt := goodsAt + 2 * ng;
      var countAt := badsAt + 2 * nb;
      var nodes: nat := if countAt < |buf| then buf[countAt] else 0;
      if countAt >= |buf| || countAt + 1 + 8 * nodes > |buf| then None
      else
        var ps := Entries(buf, base, 7, np);
        var gs, bs := Entries(buf, goodsAt, 2, ng), Entries(buf, badsAt, 2, nb);
        Some(Card(Number(buf[..4]), Number(buf[4..8]), caid, buf[10], buf[11], buf[12..20],
                  ReadProviders(ps, caid), ReadSids(gs), ReadSids(bs), Entries(buf, countAt + 1, 8, nodes)))
  }

  // -- the round trip

  function NormalProvider(p: Provider, caid: nat, i: nat, au: bool): Provider {
    var n := p.prov % Pow256(3);
    Provider(if n == 0xFFFFFF && caid / 256 == 0x17 then i else n, if au then p.sa else Zeros(4))
  }

  /** What arrives of a card. */
  function Arrived(card: Card, own: seq<Byte>, ext: bool, au: bool, max: Byte): Card {
    card.(serial := if au then card.serial else Zeros(8),
          providers := seq(|card.providers|, i requires 0 <= i < |card.providers| => NormalProvider(card.providers[i], card.caid, i, au)),
          goods := Goods(card, ext, max), bads := Bads(card, ext, max), nodes := card.nodes + [own])
  }

  lemma EntriesOf(m: seq<Byte>, pre: seq<Byte>, items: seq<seq<Byte>>, size: nat, post: seq<Byte>)
    requires AllOfSize(items, size) && m == pre + Flatten(items) + post
    ensures |pre| + size * |items| <= |m| && Entries(m, |pre|, size, |items|) == items
  {
    hide Flatten;
    FlattenLength(items, size);
    FirstEntriesOf(m, pre, items, size, post, |items|);
  }

  lemma {:induction false} FirstEntriesOf(m: seq<Byte>, pre: seq<Byte>, items: seq<seq<Byte>>, size: nat, post: seq<Byte>, n: nat)
    requires AllOfSize(items, size) && m == pre + Flatten(items) + post && n <= |items| && |pre| + size * n <= |m|
    ensures Entries(m, |pre|, size, n) == items[..n]
    decreases n
  {
    hide Flatten, AllOfSize, Entry;
    if n > 0 {
      Scaled(size, n - 1, n);
      FirstEntriesOf(m, pre, items, size, post, n - 1);
      EntryOf(m, pre, items, size, post, n - 1);
    }
  }

  lemma EntryOf(m: seq<Byte>, pre: seq<Byte>, items: seq<seq<Byte>>, size: nat, post: seq<Byte>, i: nat)
    requires AllOfSize(items, size) && m == pre + Flatten(items) + post && i < |items|
    ensures |pre| + size * (i + 1) <= |m| && Entry(m, |pre|, size, i) == items[i]
  {
    hide Flatten, AllOfSize;
    FlattenAt(items, size, i);
    assert size * (i + 1) == size * i + size;
    Sliced(pre, Flatten(items), post, size * i, size);
  }

  lemma FixedFields(h: seq<Byte>, a: seq<Byte>, b: seq<Byte>, c: seq<Byte>, d: seq<Byte>, e: seq<Byte>)
    requires |a| == 4 && |b| == 4 && |c| == 2 && |d| == 2 && |e| == 8 && h == a + b + c + d + e
    ensures |h| == 20
    ensures h[..4] == a && h[4..8] == b && h[8..10] == c && h[10] == d[0] && h[11] == d[1] && h[12..20] == e
  {
  }

  lemma Sliced(pre: seq<Byte>, f: seq<Byte>, post: seq<Byte>, at: nat, n: nat)
    requires at + n <= |f|
    ensures (pre + f + post)[|pre| + at..|pre| + at + n] == f[at..at + n]
  {
  }

  lemma HeadFields(card: Card, au: bool)
    requires Sized(card)
    ensures var h := Head(card, au);
            && |h| == 20
            && h[..4] == BigEndian(card.id, 4) && h[4..8] == BigEndian(card.remoteId, 4) && h[8..10] == BigEndian(card.caid, 2)
            && h[10] == card.hop && h[11] == card.reshare
            && h[12..20] == if au then card.serial else Zeros(8)
  {
    hide BigEndian, Zeros;
    FixedFields(Head(card, au), BigEndian(card.id, 4), BigEndian(card.remoteId, 4), BigEndian(card.caid, 2),
                [card.hop, card.reshare], if au then card.serial else Zeros(8));
  }

  lemma IdReads(n: nat, k: nat)
    requires n < Pow256(k)
    ensures Number(BigEndian(n, k)) == n
  {
  }

  lemma HeadReads(card: Card, au: bool)
    requires Sized(card)
    ensures var h := Head(card, au);
            && |h| == 20
            && Number(h[..4]) == card.id && Number(h[4..8]) == card.remoteId && Number(h[8..10]) == card.caid
            && h[10] == card.hop && h[11] == card.reshare
            && h[12..20] == if au then card.serial else Zeros(8)
  {
    hide Head, BigEndian, Number, Pow256, Zeros;
    HeadFields(card, au);
    IdReads(card.id, 4);
    IdReads(card.remoteId, 4);
    IdReads(card.caid, 2);
  }

  lemma ProviderReads(p: Provider, caid: nat, i: nat, au: bool)
    requires |p.sa| == 4
    ensures |ProviderBytes(p, au)| == 7 && ReadProvider(ProviderBytes(p, au), caid, i) == NormalProvider(p, caid, i, au)
  {
    hide BigEndian, Number, Pow256;
    NumberOfBigEndian(p.prov, 3);
    assert ProviderBytes(p, au)[..3] == BigEndian(p.prov, 3);
  }

  lemma SidsRead(s: seq<nat>)
    requires forall i :: 0 <= i < |s| ==> s[i] < Pow256(2)
    ensures AllOfSize(SidItems(s), 2) && ReadSids(SidItems(s)) == s
  {
    hide BigEndian, Number, Pow256;
    forall i | 0 <= i < |s|
      ensures Number(BigEndian(s[i], 2)) == s[i]
    {
      NumberOfBigEndian(s[i], 2);
    }
  }

  lemma ProvidersRead(card: Card, au: bool)
    requires Sized(card)
    ensures AllOfSize(ProviderItems(card, au), 7)
    ensures ReadProviders(ProviderItems(card, au), card.caid) == Arrived(card, [], false, au, 0).providers
  {
    hide ProviderBytes, ReadProvider, NormalProvider;
    forall i | 0 <= i < |card.providers|
      ensures |ProviderItems(card, au)[i]| == 7 && ReadProvider(ProviderItems(card, au)[i], card.caid, i) == NormalProvider(card.providers[i], card.caid, i, au)
    {
      ProviderReads(card.providers[i], card.caid, i, au);
    }
  }

  /** The lengths of the parts, and that a message that fits cannot overflow a counter. */
  lemma Lengths(card: Card, own: seq<Byte>, ext: bool, au: bool, max: Byte)
    requires Sized(card) && |own| == 8
    ensures |Flatten(ProviderItems(card, au))| == 7 * |card.providers|
    ensures |Flatten(SidItems(Goods(card, ext, max)))| == 2 * |Goods(card, ext, max)| && |Flatten(SidItems(Bads(card, ext, max)))| == 2 * |Bads(card, ext, max)|
    ensures |Flatten(card.nodes + [own])| == 8 * (|card.nodes| + 1)
    ensures |Encode(card, own, ext, au, max)| ==
            (if ext then 24 else 22) + 7 * |card.providers| + 2 * |Goods(card, ext, max)| + 2 * |Bads(card, ext, max)| + 8 * (|card.nodes| + 1)
    ensures |Encode(card, own, ext, au, max)| <= MAX_MESSAGE ==> |card.providers| < 256 && |card.nodes| + 1 < 256
    ensures |Goods(card, ext, max)| <= max && |Bads(card, ext, max)| <= max
  {
    hide Flatten;
    ProvidersRead(card, au);
    HeadReads(card, au);
    FlattenLength(ProviderItems(card, au), 7);
    FlattenLength(SidItems(Goods(card, ext, max)), 2);
    FlattenLength(SidItems(Bads(card, ext, max)), 2);
    FlattenLength(card.nodes + [own], 8);
  }

  lemma GoodsSized(card: Card, ext: bool, max: Byte)
    requires Sized(card)
    ensures forall i :: 0 <= i < |Goods(card, ext, max)| ==> Goods(card, ext, max)[i] < Pow256(2)
    ensures forall i :: 0 <= i < |Bads(card, ext, max)| ==> Bads(card, ext, max)[i] < Pow256(2)
  {
  }

  /** A message in parts; the counters tell the numbers of entries. */
  datatype Parts = Parts(head: seq<Byte>, ext: bool, providers: seq<seq<Byte>>, goods: seq<seq<Byte>>, bads: seq<seq<Byte>>, nodes: seq<seq<Byte>>) {
    ghost predicate Valid() {
      && |head| == 20 && |providers| < 256 && |goods| < 256 && |bads| < 256 && |nodes| < 256
      && (!ext ==> goods == [] && bads == [])
      && AllOfSize(providers, 7) && AllOfSize(goods, 2) && AllOfSize(bads, 2) && AllOfSize(nodes, 8)
    }

    function Front(): seq<Byte>
      requires |providers| < 256 && |goods| < 256 && |bads| < 256
    {
      head + ([|providers|] + if ext then [|goods|, |bads|] else [])
    }

    function Bytes(): seq<Byte>
      requires |providers| < 256 && |goods| < 256 && |bads| < 256 && |nodes| < 256
    {
      Front() + Flatten(providers) + Flatten(goods) + Flatten(bads) + [|nodes|] + Flatten(nodes)
    }
  }

  lemma PartsFound(v: Parts, tail: seq<Byte>)
    requires v.Valid()
    ensures var m, base := v.Bytes() + tail, |v.Front()|;
            var goodsAt := base + 7 * |v.providers|;
            var badsAt := goodsAt + 2 * |v.goods|;
            var countAt := badsAt + 2 * |v.bads|;
            && countAt < |m| && m[countAt] == |v.nodes| && countAt + 1 + 8 * |v.nodes| <= |m| && m[..base] == v.Front()
            && Entries(m, base, 7, |v.providers|) == v.providers
            && Entries(m, goodsAt, 2, |v.goods|) == v.goods
            && Entries(m, badsAt, 2, |v.bads|) == v.bads
            && Entries(m, countAt + 1, 8, |v.nodes|) == v.nodes
  {
    hide Flatten, AllOfSize, Entries;
    var f, p, g, b, n := v.Front(), Flatten(v.providers), Flatten(v.goods), Flatten(v.bads), Flatten(v.nodes);
    hide Parts.Front;
    var k: seq<Byte> := [|v.nodes|];
    var m := v.Bytes() + tail;
    FlattenLength(v.providers, 7);
    FlattenLength(v.goods, 2);
    FlattenLength(v.bads, 2);
    FlattenLength(v.nodes, 8);
    Regroup(m, f, p, g, b, k, n, tail);
    EntriesOf(m, f, v.providers, 7, g + b + k + n + tail);
    EntriesOf(m, f + p, v.goods, 2, b + k + n + tail);
    EntriesOf(m, f + p + g, v.bads, 2, k + n + tail);
    EntriesOf(m, f + p + g + b + k, v.nodes, 8, tail);
  }

  lemma Regroup(m: seq<Byte>, f: seq<Byte>, p: seq<Byte>, g: seq<Byte>, b: seq<Byte>, k: seq<Byte>, n: seq<Byte>, tail: seq<Byte>)
    requires m == f + p + g + b + k + n + tail && |k| == 1
    ensures m == f + p + (g + b + k + n + tail)
    ensures m == f + p + g + (b + k + n + tail)
    ensures m == f + p + g + b + (k + n + tail)
    ensures m[..|f|] == f && m[|f| + |p| + |g| + |b|] == k[0]
  {
  }

  lemma DecodeParts(v: Parts, tail: seq<Byte>)
    requires v.Valid()
    ensures var h := v.head;
            var caid := Number(h[8..10]);
            Decode(v.Bytes() + tail, v.ext) ==
            Some(Card(Number(h[..4]), Number(h[4..8]), caid, h[10], h[11], h[12..20],
                      ReadProviders(v.providers, caid), ReadSids(v.goods), ReadSids(v.bads), v.nodes))
  {
    hide Flatten, Entries, Number, ReadProviders, ReadSids, Parts.Bytes;
    var m := v.Bytes() + tail;
    PartsFound(v, tail);
    FrontFound(v, m);
  }

  lemma FrontFound(v: Parts, m: seq<Byte>)
    requires v.Valid() && |v.Front()| <= |m| && m[..|v.Front()|] == v.Front()
    ensures |v.Front()| == if v.ext then 23 else 21
    ensures m[..4] == v.head[..4] && m[4..8] == v.head[4..8] && m[8..10] == v.head[8..10]
    ensures m[10] == v.head[10] && m[11] == v.head[11] && m[12..20] == v.head[12..20]
    ensures m[20] == |v.providers| && (v.ext ==> m[21] == |v.goods| && m[22] == |v.bads|)
  {
    assert m[..20] == v.head;
    assert v.Front()[20] == |v.providers|;
  }

  /** Whatever fits into a message is read back field by field, with the own node added to the path. */
  lemma RoundTrip(card: Card, own: seq<Byte>, ext: bool, au: bool, max: Byte, tail: seq<Byte>)
    requires Sized(card) && |own| == 8 && |Encode(card, own, ext, au, max)| <= MAX_MESSAGE
    ensures Decode(Encode(card, own, ext, au, max) + tail, ext) == Some(Arrived(card, own, ext, au, max))
  {
    hide Head, Flatten, ProviderItems, SidItems, Sized, ReadProvider, NormalProvider, Number, Zeros, AllOfSize, Pow256, FirstSids, Decode, Encode, Parts.Bytes;
    Lengths(card, own, ext, au, max);
    HeadReads(card, au);
    ProvidersRead(card, au);
    GoodsSized(card, ext, max);
    SidsRead(Goods(card, ext, max));
    SidsRead(Bads(card, ext, max));
    NodesSized(card, own);
    var v := PartsOf(card, own, ext, au, max);
    PartsAreEncoded(card, own, ext, au, max);
    DecodeParts(v, tail);
  }

  function PartsOf(card: Card, own: seq<Byte>, ext: bool, au: bool, max: Byte): Parts {
    Parts(Head(card, au), ext, ProviderItems(card, au), SidItems(Goods(card, ext, max)), SidItems(Bads(card, ext, max)), card.nodes + [own])
  }

  lemma PartsAreEncoded(card: Card, own: seq<Byte>, ext: bool, au: bool, max: Byte)
    requires |card.providers| < 256 && |card.nodes| + 1 < 256 && |Goods(card, ext, max)| <= max && |Bads(card, ext, max)| <= max
    ensures PartsOf(card, own, ext, au, max).Bytes() == Encode(card, own, ext, au, max)
    ensures !ext ==> SidItems(Goods(card, ext, max)) == [] && SidItems(Bads(card, ext, max)) == []
  {
    hide Head, Flatten, ProviderItems, SidItems, Goods, Bads;
    NoItems(card, ext, max);
  }

  lemma NoItems(card: Card, ext: bool, max: Byte)
    ensures !ext ==> SidItems(Goods(card, ext, max)) == [] && SidItems(Bads(card, ext, max)) == []
  {
  }

  lemma NodesSized(card: Card, own: seq<Byte>)
    requires Sized(card) && |own| == 8
    ensures AllOfSize(card.nodes + [own], 8)
  {
  }

  /**
   Providers arrive as they were sent exactly when every id fits into three bytes
   and none is the marker that CAID 17xx gives a meaning of its own.
   */
  lemma ProvidersArriveIff(card: Card, own: seq<Byte>, ext: bool, max: Byte)
    requires |card.providers| < 256
    ensures Arrived(card, own, ext, true, max).providers == card.providers <==>
            forall i :: 0 <= i < |card.providers| ==>
              card.providers[i].prov < Pow256(3) && !(card.caid / 256 == 0x17 && card.providers[i].prov == 0xFFFFFF)
  {
  }

  /** CAID 17xx: a provider known by its position arrives with that position as its id. */
  lemma MarkerIsPosition(card: Card, own: seq<Byte>, ext: bool, au: bool, max: Byte, i: nat)
    requires 0x1700 <= card.caid < 0x1800 && i < |card.providers| && card.providers[i].prov == 0xFFFFFF
    ensures Arrived(card, own, ext, au, max).providers[i].prov == i
  {
    assert Pow256(3) == 0x100_0000;
  }

  /** Numbers are written with the most significant byte first. */
  lemma BytesOfNumber(n: nat)
    ensures BigEndian(n, 2) == [n / 0x100 % 256, n % 256]
    ensures BigEndian(n, 3) == [n / 0x1_0000 % 256, n / 0x100 % 256, n % 256]
    ensures BigEndian(n, 4) == [n / 0x100_0000 % 256, n / 0x1_0000 % 256, n / 0x100 % 256, n % 256]
  {
    DivDiv(n, 256, 256);
    DivDiv(n, 0x1_0000, 256);
    OneByte(n / 0x100_0000);
    OneByte(n / 0x1_0000);
    NextByte(n / 0x1_0000, 1);
    OneByte(n / 0x100);
    NextByte(n / 0x100, 1);
    NextByte(n / 0x100, 2);
    NextByte(n, 1);
    NextByte(n, 2);
    NextByte(n, 3);
    hide BigEndian;
  }

  lemma OneByte(n: nat)
    ensures BigEndian(n, 1) == [n % 256]
  {
    assert BigEndian(n / 256, 0) == [];
  }

  lemma NextByte(n: nat, k: nat)
    ensures BigEndian(n, k + 1) == BigEndian(n / 256, k) + [n % 256]
  {
  }

  lemma {:induction false} EntriesAt(buf: seq<Byte>, at: nat, size: nat, n: nat, i: nat)
    requires i < n && at + size * n <= |buf|
    ensures at + size * i + size <= |buf| && Entries(buf, at, size, n)[i] == buf[at + size * i..at + size * i + size]
    decreases n
  {
    hide Entries;
    EntriesSplit(buf, at, size, n, n - 1);
    if i < n - 1 {
      Scaled(size, n - 1, n);
      EntriesAt(buf, at, size, n - 1, i);
    }
  }

  /** Byte for byte: the fixed part of a message, its counters, and its length. */
  lemma MessageBytes(card: Card, own: seq<Byte>, ext: bool, au: bool, max: Byte)
    requires Sized(card) && |own| == 8 && |Encode(card, own, ext, au, max)| <= MAX_MESSAGE
    ensures var m, np := Encode(card, own, ext, au, max), |card.providers|;
            var ng, nb := if ext then Least(|card.goods|, max) else 0, if ext then Least(|card.bads|, max) else 0;
            var countAt := (if ext then 23 else 21) + 7 * np + 2 * ng + 2 * nb;
            && |m| == countAt + 1 + 8 * (|card.nodes| + 1)
            && m[..4] == BigEndian(card.id, 4) && m[4..8] == BigEndian(card.remoteId, 4) && m[8..10] == BigEndian(card.caid, 2)
            && m[10] == card.hop && m[11] == card.reshare && m[12..20] == (if au then card.serial else Zeros(8))
            && m[20] == np && (ext ==> m[21] == ng && m[22] == nb) && m[countAt] == |card.nodes| + 1
  {
    hide Head, Flatten, BigEndian, Zeros, Entries, Sized, Encode, Parts.Bytes, ProviderItems, SidItems;
    HeadFields(card, au);
    CardInParts(card, own, ext, au, max);
    var v, m := PartsOf(card, own, ext, au, max), Encode(card, own, ext, au, max);
    PartsFound(v, []);
    assert m + [] == m;
    FrontFound(v, m);
  }

  lemma CardInParts(card: Card, own: seq<Byte>, ext: bool, au: bool, max: Byte)
    requires Sized(card) && |own| == 8 && |Encode(card, own, ext, au, max)| <= MAX_MESSAGE
    ensures var v, m := PartsOf(card, own, ext, au, max), Encode(card, own, ext, au, max);
            var ng, nb := if ext then Least(|card.goods|, max) else 0, if ext then Least(|card.bads|, max) else 0;
            && v.Valid() && v.Bytes() == m && |v.Front()| == (if ext then 23 else 21)
            && |v.providers| == |card.providers| && |v.goods| == ng && |v.bads| == nb && |v.nodes| == |card.nodes| + 1
            && |m| == |v.Front()| + 7 * |v.providers| + 2 * ng + 2 * nb + 1 + 8 * |v.nodes|
            && (forall i :: 0 <= i < |v.providers| ==> v.providers[i] == ProviderBytes(card.providers[i], au))
            && (forall i :: 0 <= i < ng ==> v.goods[i] == BigEndian(card.goods[i], 2))
            && (forall i :: 0 <= i < nb ==> v.bads[i] == BigEndian(card.bads[i], 2))
            && forall i :: 0 <= i < |v.nodes| ==> v.nodes[i] == if i < |card.nodes| then card.nodes[i] else own
  {
    hide Flatten, AllOfSize, BigEndian, Zeros, Sized, Encode, Parts.Bytes, Head, ProviderBytes;
    Lengths(card, own, ext, au, max);
    ProvidersRead(card, au);
    GoodsSized(card, ext, max);
    SidsRead(Goods(card, ext, max));
    SidsRead(Bads(card, ext, max));
    NodesSized(card, own);
    HeadFields(card, au);
    PartsAreEncoded(card, own, ext, au, max);
  }

  /** Provider `i` and service `i`: where they are in the message, and what they are. */
  lemma EntryBytes(card: Card, own: seq<Byte>, ext: bool, au: bool, max: Byte, i: nat)
    requires Sized(card) && |own| == 8 && |Encode(card, own, ext, au, max)| <= MAX_MESSAGE
    ensures var m, np := Encode(card, own, ext, au, max), |card.providers|;
            var ng := if ext then Least(|card.goods|, max) else 0;
            var base := if ext then 23 else 21;
            var goodsAt := base + 7 * np;
            && |m| >= goodsAt + 2 * ng
            && (i < np ==> m[base + 7 * i..base + 7 * i + 7] ==
                           BigEndian(card.providers[i].prov, 3) + if au then card.providers[i].sa else Zeros(4))
            && (i < ng ==> m[goodsAt + 2 * i..goodsAt + 2 * i + 2] == BigEndian(card.goods[i], 2))
  {
    hide BigEndian, Zeros, Sized, Encode, Parts.Bytes, Parts.Front, Parts.Valid, PartsOf;
    CardInParts(card, own, ext, au, max);
    PartsEntry(PartsOf(card, own, ext, au, max), i);
  }

  /** The same for refused service `i` and for node `i` of the path, the own node being the last. */
  lemma LaterEntryBytes(card: Card, own: seq<Byte>, ext: bool, au: bool, max: Byte, i: nat)
    requires Sized(card) && |own| == 8 && |Encode(card, own, ext, au, max)| <= MAX_MESSAGE
    ensures var m := Encode(card, own, ext, au, max);
            var ng, nb := if ext then Least(|card.goods|, max) else 0, if ext then Least(|card.bads|, max) else 0;
            var badsAt := (if ext then 23 else 21) + 7 * |card.providers| + 2 * ng;
            var nodesAt := badsAt + 2 * nb + 1;
            && |m| == nodesAt + 8 * (|card.nodes| + 1)
            && (i < nb ==> m[badsAt + 2 * i..badsAt + 2 * i + 2] == BigEndian(card.bads[i], 2))
            && (i <= |card.nodes| ==> m[nodesAt + 8 * i..nodesAt + 8 * i + 8] == if i < |card.nodes| then card.nodes[i] else own)
  {
    hide BigEndian, Zeros, Sized, Encode, Parts.Bytes, Parts.Front, Parts.Valid, PartsOf;
    CardInParts(card, own, ext, au, max);
    PartsLaterEntry(PartsOf(card, own, ext, au, max), i);
  }

  lemma PartsEntry(v: Parts, i: nat)
    requires v.Valid()
    ensures var m, base := v.Bytes(), |v.Front()|;
            var goodsAt := base + 7 * |v.providers|;
            && goodsAt + 2 * |v.goods| <= |m|
            && (i < |v.providers| ==> m[base + 7 * i..base + 7 * i + 7] == v.providers[i])
            && (i < |v.goods| ==> m[goodsAt + 2 * i..goodsAt + 2 * i + 2] == v.goods[i])
  {
    hide Entries, Parts.Bytes, Parts.Front, Flatten, AllOfSize, BigEndian, Number, Pow256;
    var m, base := v.Bytes(), |v.Front()|;
    PartsFound(v, []);
    assert m + [] == m;
    EntryAt(m, base, 7, v.providers, i);
    EntryAt(m, base + 7 * |v.providers|, 2, v.goods, i);
  }

  lemma PartsLaterEntry(v: Parts, i: nat)
    requires v.Valid()
    ensures var m := v.Bytes();
            var badsAt := |v.Front()| + 7 * |v.providers| + 2 * |v.goods|;
            var nodesAt := badsAt + 2 * |v.bads| + 1;
            && nodesAt + 8 * |v.nodes| <= |m|
            && (i < |v.bads| ==> m[badsAt + 2 * i..badsAt + 2 * i + 2] == v.bads[i])
            && (i < |v.nodes| ==> m[nodesAt + 8 * i..nodesAt + 8 * i + 8] == v.nodes[i])
  {
    hide Entries, Parts.Bytes, Parts.Front, Flatten, AllOfSize, BigEndian, Number, Pow256;
    var m := v.Bytes();
    PartsFound(v, []);
    assert m + [] == m;
    var badsAt := |v.Front()| + 7 * |v.providers| + 2 * |v.goods|;
    EntryAt(m, badsAt, 2, v.bads, i);
    EntryAt(m, badsAt + 2 * |v.bads| + 1, 8, v.nodes, i);
  }

  lemma EntryAt(m: seq<Byte>, at: nat, size: nat, items: seq<seq<Byte>>, i: nat)
    requires at + size * |items| <= |m| && Entries(m, at, size, |items|) == items
    ensures i < |items| ==> at + size * i + size <= |m| && m[at + size * i..at + size * i + size] == items[i]
  {
    hide Entries;
    if i < |items| {
      EntriesAt(m, at, size, |items|, i);
    }
  }

  /** A service is refused exactly if it stands in a table that refuses, for this CAID. */
  lemma {:induction false} RefusedIff(tables: seq<Table>, caid: nat, service: nat)
    ensures service in Refused(tables, caid)
            <==> exists i :: 0 <= i < |tables| && tables[i].refuses && caid in tables[i].caids && service in tables[i].services
    decreases |tables|
  {
    if tables != [] {
      var front := tables[..|tables| - 1];
      RefusedIff(front, caid, service);
      assert forall i :: 0 <= i < |front| ==> front[i] == tables[i];
    }
  }

  // -- as the program does it

  lemma Appended(pre: seq<Byte>, n: nat, item: seq<Byte>)
    requires |item| <= n
    ensures Put(pre + Zeros(n), |pre|, item) == pre + item + Zeros(n - |item|)
  {
  }

  method CopyTo(buf: array<Byte>, at: nat, s: seq<Byte>)
    requires at + |s| <= buf.Length
    modifies buf
    ensures buf[..] == Put(old(buf[..]), at, s)
  {
    for i := 0 to |s|
      invariant forall j :: 0 <= j < buf.Length ==> buf[j] == if at <= j < at + i then s[j - at] else old(buf[j])
    {
      buf[at + i] := s[i];
    }
  }

  /**
   The shape of the loops of `write_card`: entries are put one behind the other
   and counted in the message itself, up to a limit.  Some may be there already.
   */
  method WriteMore(buf: array<Byte>, ghost pre: seq<Byte>, at: nat, counterAt: nat, ghost written: seq<seq<Byte>>,
                   items: seq<seq<Byte>>, limit: nat) returns (ofs: nat)
    requires counterAt < |pre| && |written| <= limit && Least(limit, |written + items|) < 256
    requires at == |pre| + |Flatten(written)| <= buf.Length
    requires buf[..] == pre[counterAt := |written|] + Flatten(written) + Zeros(buf.Length - at)
    requires |pre| + |Flatten((written + items)[..Least(limit, |written + items|)])| <= buf.Length
    modifies buf
    ensures var k := Least(limit, |written + items|);
            && ofs == |pre| + |Flatten((written + items)[..k])|
            && buf[..] == pre[counterAt := k] + Flatten((written + items)[..k]) + Zeros(buf.Length - ofs)
  {
    hide Flatten, Zeros;
    ghost var every := written + items;
    ghost var j, k := |written|, Least(limit, |every|);
    ofs := at;
    var i: nat := 0;
    assert every[..j] == written;
    while i < |items| && !(buf[counterAt] >= limit)
      invariant i <= |items| && j == |written| + i <= k
      invariant ofs == |pre| + |Flatten(every[..j])| && ofs <= buf.Length && buf[counterAt] == j
      invariant buf[..] == pre[counterAt := j] + Flatten(every[..j]) + Zeros(buf.Length - ofs)
      decreases |items| - i
    {
      assert every[..j + 1] == every[..j] + [items[i]];
      FlattenSnoc(every[..j], items[i]);
      FlattenGrows(every, j + 1, k);
      CopyNext(buf, pre[counterAt := j] + Flatten(every[..j]), ofs, items[i]);
      ofs := ofs + |items[i]|;
      assert pre[counterAt := j] + Flatten(every[..j]) + items[i] == pre[counterAt := j] + Flatten(every[..j + 1]);
      Counted(buf[..], pre, counterAt, j, Flatten(every[..j + 1]), Zeros(buf.Length - ofs));
      buf[counterAt] := buf[counterAt] + 1;
      i, j := i + 1, j + 1;
    }
  }

  method WriteList(buf: array<Byte>, ghost pre: seq<Byte>, at: nat, counterAt: nat, items: seq<seq<Byte>>, limit: nat) returns (ofs: nat)
    requires counterAt < at == |pre| <= buf.Length && buf[..] == pre + Zeros(buf.Length - at) && pre[counterAt] == 0
    requires Least(limit, |items|) < 256
    requires at + |Flatten(items[..Least(limit, |items|)])| <= buf.Length
    modifies buf
    ensures var k := Least(limit, |items|);
            && ofs == at + |Flatten(items[..k])|
            && buf[..] == pre[counterAt := k] + Flatten(items[..k]) + Zeros(buf.Length - ofs)
  {
    hide Flatten, Zeros;
    NothingFlat();
    assert [] + items == items;
    assert pre[counterAt := 0] + [] == pre;
    ofs := WriteMore(buf, pre, at, counterAt, [], items, limit);
  }

  /** The services refused for the CAID, table by table, until the limit is reached. */
  method WriteRefused(buf: array<Byte>, ghost pre: seq<Byte>, at: nat, counterAt: nat, tables: seq<Table>, caid: nat, max: Byte)
      returns (ofs: nat)
    requires 0 < max && counterAt < at == |pre| <= buf.Length && buf[..] == pre + Zeros(buf.Length - at) && pre[counterAt] == 0
    requires at + 2 * |FirstSids(Refused(tables, caid), max)| <= buf.Length
    modifies buf
    ensures var bads := FirstSids(Refused(tables, caid), max);
            && ofs == at + 2 * |bads|
            && buf[..] == pre[counterAt := |bads|] + Flatten(SidItems(bads)) + Zeros(buf.Length - ofs)
  {
    hide Flatten, Zeros, SidItems, Refused, Refuses;
    ofs := at;
    NoTables(pre, counterAt, tables, caid);
    var n := 0;
    while n < |tables|
      invariant 0 <= n <= |tables| && |Refused(tables[..n], caid)| < max
      invariant Listing(buf[..], pre, counterAt, Refused(tables[..n], caid), ofs)
    {
      ghost var before := Refused(tables[..n], caid);
      NextTable(tables, n, caid);
      CutOfPrefix(Refused(tables[..n + 1], caid), Refused(tables, caid), max);
      if Refuses(tables[n], caid) {
        ofs := WriteTable(buf, pre, ofs, counterAt, before, tables[n].services, max);
      } else {
        assert before + [] == before;
      }
      ListingCount(buf[..], pre, counterAt, FirstSids(Refused(tables[..n + 1], caid), max), ofs);
      n := n + 1;
      if buf[counterAt] >= max {
        return;
      }
    }
    assert tables[..|tables|] == tables;
  }

  /** These services stand behind `pre`, and are counted in it. */
  ghost predicate Listing(m: seq<Byte>, pre: seq<Byte>, counterAt: nat, sids: seq<nat>, ofs: nat) {
    && counterAt < |pre| && |sids| < 256 && ofs == |pre| + 2 * |sids| <= |m|
    && m == pre[counterAt := |sids|] + Flatten(SidItems(sids)) + Zeros(|m| - ofs)
  }

  lemma ListingCount(m: seq<Byte>, pre: seq<Byte>, counterAt: nat, sids: seq<nat>, ofs: nat)
    requires Listing(m, pre, counterAt, sids, ofs)
    ensures m[counterAt] == |sids|
  {
  }

  lemma NoTables(pre: seq<Byte>, counterAt: nat, tables: seq<Table>, caid: nat)
    requires counterAt < |pre| && pre[counterAt] == 0
    ensures Refused(tables[..0], caid) == [] && pre[counterAt := 0] + Flatten(SidItems([])) == pre
  {
  }

  lemma NextTable(tables: seq<Table>, n: nat, caid: nat)
    requires n < |tables|
    ensures Refused(tables[..n + 1], caid) == Refused(tables[..n], caid) + if Refuses(tables[n], caid) then tables[n].services else []
    ensures Refused(tables[..n + 1], caid) <= Refused(tables, caid)
  {
    assert tables[..n + 1][..n] == tables[..n];
    RefusedGrows(tables, n + 1, caid);
  }

  lemma {:induction false} RefusedGrows(tables: seq<Table>, n: nat, caid: nat)
    requires n <= |tables|
    ensures Refused(tables[..n], caid) <= Refused(tables, caid)
  {
    if n == |tables| {
      assert tables[..n] == tables;
    } else {
      var rest := tables[..|tables| - 1];
      assert rest[..n] == tables[..n];
      RefusedGrows(rest, n, caid);
    }
  }

  /** Once the limit is reached, more services change nothing. */
  lemma CutOfPrefix(s: seq<nat>, t: seq<nat>, max: Byte)
    requires s <= t
    ensures |FirstSids(s, max)| <= |FirstSids(t, max)|
    ensures |FirstSids(s, max)| >= max ==> FirstSids(s, max) == FirstSids(t, max)
  {
  }

  method WriteTable(buf: array<Byte>, ghost pre: seq<Byte>, at: nat, counterAt: nat, ghost before: seq<nat>, services: seq<nat>, max: Byte)
      returns (ofs: nat)
    requires |before| < max && Listing(buf[..], pre, counterAt, before, at)
    requires |pre| + 2 * |FirstSids(before + services, max)| <= buf.Length
    modifies buf
    ensures Listing(buf[..], pre, counterAt, FirstSids(before + services, max), ofs)
  {
    hide Flatten, Zeros, SidItems, FirstSids;
    SidsLength(before);
    SidsLength(FirstSids(before + services, max));
    SidItemsCut(before + services, max);
    assert SidItems(before) + SidItems(services) == SidItems(before + services) by { SidItemsConcat(before, services); }
    ofs := WriteMore(buf, pre, at, counterAt, SidItems(before), SidItems(services), max);
  }

  lemma SidItemsConcat(s: seq<nat>, t: seq<nat>)
    ensures SidItems(s) + SidItems(t) == SidItems(s + t)
  {
  }

  lemma Counted(m: seq<Byte>, front: seq<Byte>, at: nat, i: nat, body: seq<Byte>, rest: seq<Byte>)
    requires at < |front| && i < 255 && m == front[at := i] + body + rest
    ensures m[at] == i && m[at := i + 1] == front[at := i + 1] + body + rest
  {
  }

  lemma {:induction false} FlattenGrows(items: seq<seq<Byte>>, i: nat, k: nat)
    requires i <= k <= |items|
    ensures |Flatten(items[..i])| <= |Flatten(items[..k])|
    decreases k - i
  {
    if i < k {
      assert items[..k] == items[..k - 1] + [items[k - 1]];
      FlattenSnoc(items[..k - 1], items[k - 1]);
      FlattenGrows(items, i, k - 1);
    }
  }

  lemma ZerosSplit(n: nat, k: nat)
    requires k <= n
    ensures Zeros(n) == Zeros(k) + Zeros(n - k)
  {
  }

  method Clear(buf: array<Byte>)
    modifies buf
    ensures buf[..] == Zeros(buf.Length)
  {
    for i := 0 to buf.Length
      invariant forall j :: 0 <= j < i ==> buf[j] == 0
    {
      buf[i] := 0;
    }
  }

  method CopyNext(buf: array<Byte>, ghost pre: seq<Byte>, at: nat, s: seq<Byte>)
    requires at == |pre| && at + |s| <= buf.Length && buf[..] == pre + Zeros(buf.Length - at)
    modifies buf
    ensures buf[..] == pre + s + Zeros(buf.Length - at - |s|)
  {
    hide Zeros, Put;
    Appended(pre, buf.Length - at, s);
    CopyTo(buf, at, s);
  }

  /** The fields before the serial number, as they stand in a message. */
  function Numbers(card: Card): (r: seq<Byte>)
    ensures |r| == 12
  {
    BigEndian(card.id, 4) + BigEndian(card.remoteId, 4) + BigEndian(card.caid, 2) + [card.hop, card.reshare]
  }

  method WriteNumbers(buf: array<Byte>, card: Card)
    requires buf.Length == MAX_MESSAGE
    modifies buf
    ensures buf[..] == Numbers(card) + Zeros(MAX_MESSAGE - 12)
  {
    hide BigEndian, Zeros;
    Clear(buf);
    CopyNext(buf, [], 0, BigEndian(card.id, 4));
    ghost var a := BigEndian(card.id, 4);
    assert [] + a == a;
    CopyNext(buf, a, 4, BigEndian(card.remoteId, 4));
    ghost var b := a + BigEndian(card.remoteId, 4);
    CopyNext(buf, b, 8, BigEndian(card.caid, 2));
    CopyNext(buf, b + BigEndian(card.caid, 2), 10, [card.hop, card.reshare]);
  }

  /** The fixed part: every field at its place in a cleared message. */
  method WriteHead(buf: array<Byte>, card: Card, au: bool)
    requires buf.Length == MAX_MESSAGE && |card.serial| == 8
    modifies buf
    ensures |Head(card, au)| == 20 && buf[..] == Head(card, au) + Zeros(MAX_MESSAGE - 20)
  {
    hide Zeros, Numbers;
    WriteNumbers(buf, card);
    HeadInParts(card, au);
    if au {
      CopyNext(buf, Numbers(card), 12, card.serial);
    } else {
      ZerosSplit(MAX_MESSAGE - 12, 8);
      assert Numbers(card) + (Zeros(8) + Zeros(MAX_MESSAGE - 20)) == Numbers(card) + Zeros(8) + Zeros(MAX_MESSAGE - 20);
    }
  }

  lemma HeadInParts(card: Card, au: bool)
    ensures Head(card, au) == Numbers(card) + if au then card.serial else Zeros(8)
  {
  }

  /** The bytes up to the entries, with these counters. */
  ghost function FrontWith(h: seq<Byte>, ext: bool, np: Byte, ng: Byte, nb: Byte): seq<Byte> {
    h + ([np] + if ext then [ng, nb] else [])
  }

  lemma FrontCounts(h: seq<Byte>, ext: bool, np: Byte, ng: Byte, nb: Byte, rest: seq<Byte>)
    requires |h| == 20
    ensures var f := FrontWith(h, ext, 0, 0, 0);
            |f| == (if ext then 23 else 21) && f[20] == 0 && f[20 := np] == FrontWith(h, ext, np, 0, 0)
    ensures ext ==> var f := FrontWith(h, ext, np, 0, 0) + rest;
                    f[21] == 0 && f[21 := ng] == FrontWith(h, ext, np, ng, 0) + rest
    ensures ext ==> var f := FrontWith(h, ext, np, ng, 0) + rest;
                    f[22] == 0 && f[22 := nb] == FrontWith(h, ext, np, ng, nb) + rest
  {
  }

  lemma FrontIsZeros(h: seq<Byte>, ext: bool)
    requires |h| == 20
    ensures var n := if ext then 23 else 21;
            h + Zeros(MAX_MESSAGE - 20) == FrontWith(h, ext, 0, 0, 0) + Zeros(MAX_MESSAGE - n)
  {
  }

  lemma SidItemsCut(s: seq<nat>, max: Byte)
    ensures SidItems(s)[..Least(max, |SidItems(s)|)] == SidItems(FirstSids(s, max))
    ensures |FirstSids(s, max)| == Least(max, |SidItems(s)|)
  {
  }

  lemma NothingFlat()
    ensures Flatten([]) == []
  {
  }

  lemma CountByte(pre: seq<Byte>, count: Byte, rest: seq<Byte>)
    ensures pre + (Zeros(1) + rest) == pre + [0] + rest
    ensures (pre + [0])[|pre|] == 0 && (pre + [0])[|pre| := count] == pre + [count]
  {
  }

  /** The node list with its counter, then the own node, counted as well. */
  method WritePath(buf: array<Byte>, ghost pre: seq<Byte>, at: nat, nodes: seq<seq<Byte>>, own: seq<Byte>) returns (ofs: nat)
    requires AllOfSize(nodes, 8) && |own| == 8 && |nodes| < 255
    requires at == |pre| && at + 1 + 8 * |nodes| + 8 <= buf.Length && buf[..] == pre + Zeros(buf.Length - at)
    modifies buf
    ensures ofs == at + 1 + |Flatten(nodes + [own])| <= buf.Length
    ensures buf[..] == pre + [|nodes| + 1] + Flatten(nodes + [own]) + Zeros(buf.Length - ofs)
  {
    hide Zeros, Flatten, AllOfSize;
    ghost var count: Byte := |nodes|;
    ghost var path := Flatten(nodes);
    FlattenLength(nodes, 8);
    ZerosSplit(buf.Length - at, 1);
    CountByte(pre, count, Zeros(buf.Length - at - 1));
    assert nodes[..Least(256, |nodes|)] == nodes;
    FlattenSnoc(nodes, own);
    ofs := WriteList(buf, pre + [0], at + 1, at, nodes, 256);
    CopyNext(buf, pre + [count] + path, ofs, own);
    ofs := ofs + 8;
    var c := buf[at];
    buf[at] := Add8(c, 1);
    Bumped(pre, count, path, own, Zeros(buf.Length - ofs));
  }

  lemma Bumped(pre: seq<Byte>, count: Byte, path: seq<Byte>, own: seq<Byte>, rest: seq<Byte>)
    requires count < 255
    ensures var m := pre + [count] + path + own + rest;
            m[|pre|] == count && m[|pre| := count + 1] == pre + [count + 1] + (path + own) + rest
  {
  }

  /** Everything up to the entries of the two service lists. */
  ghost function Entered(card: Card, ext: bool, au: bool, max: Byte): seq<Byte>
    requires |card.providers| < 256
  {
    FrontWith(Head(card, au), ext, |card.providers|, |Goods(card, ext, max)|, |Bads(card, ext, max)|)
    + Flatten(ProviderItems(card, au)) + Flatten(SidItems(Goods(card, ext, max))) + Flatten(SidItems(Bads(card, ext, max)))
  }

  method WriteProviders(buf: array<Byte>, card: Card, ext: bool, au: bool) returns (ofs: nat)
    requires buf.Length == MAX_MESSAGE && |card.serial| == 8 && |card.providers| < 256
    requires 23 + |Flatten(ProviderItems(card, au))| <= MAX_MESSAGE
    modifies buf
    ensures ofs == (if ext then 23 else 21) + |Flatten(ProviderItems(card, au))|
    ensures buf[..] == FrontWith(Head(card, au), ext, |card.providers|, 0, 0) + Flatten(ProviderItems(card, au)) + Zeros(MAX_MESSAGE - ofs)
  {
    hide Head, Zeros, Flatten, ProviderItems, FrontWith;
    ghost var h := Head(card, au);
    WriteHead(buf, card, au);
    FrontIsZeros(h, ext);
    ofs := if ext then 23 else 21;
    FrontCounts(h, ext, |card.providers|, 0, 0, []);
    var items := ProviderItems(card, au);
    assert items[..Least(256, |items|)] == items;
    ofs := WriteList(buf, FrontWith(h, ext, 0, 0, 0), ofs, 20, items, 256);
  }

  method WriteEntries(buf: array<Byte>, card: Card, b: Binding, ext: bool, au: bool) returns (ofs: nat)
    requires buf.Length == MAX_MESSAGE && Sized(Resolved(card, b)) && |card.providers| < 256
    requires 2 + |Entered(Resolved(card, b), ext, au, b.Max())| <= MAX_MESSAGE
    modifies buf
    ensures ofs == |Entered(Resolved(card, b), ext, au, b.Max())|
    ensures buf[..] == Entered(Resolved(card, b), ext, au, b.Max()) + Zeros(MAX_MESSAGE - ofs)
  {
    hide Head, Zeros, Flatten, ProviderItems, SidItems, FirstSids, FrontWith, Sized, Resolved, Entered, Binding.Max;
    ghost var sent, max := Resolved(card, b), b.Max();
    ghost var h, p := Head(sent, au), Flatten(ProviderItems(sent, au));
    ghost var np: Byte := |card.providers|;
    FixedSize(sent, au);
    SameButServices(card, b, au);
    EnteredInParts(sent, ext, au, max);
    ofs := WriteProviders(buf, card, ext, au);
    if ext {
      ofs := WriteServices(buf, h, np, p, ofs, card, b);
    }
  }

  lemma FixedSize(card: Card, au: bool)
    requires Sized(card)
    ensures |card.serial| == 8 && |Head(card, au)| == 20
  {
    HeadFields(card, au);
  }

  lemma SameButServices(card: Card, b: Binding, au: bool)
    ensures var sent := Resolved(card, b);
            && Head(sent, au) == Head(card, au) && ProviderItems(sent, au) == ProviderItems(card, au)
            && sent.providers == card.providers && sent.serial == card.serial
  {
  }

  /** What is entered, with and without the service lists. */
  lemma EnteredInParts(card: Card, ext: bool, au: bool, max: Byte)
    requires |card.providers| < 256
    ensures var h, p := Head(card, au), Flatten(ProviderItems(card, au));
            var goods, bads := FirstSids(card.goods, max), FirstSids(card.bads, max);
            var e, n := Entered(card, ext, au, max), |h| + |p|;
            if ext then
              e == FrontWith(h, true, |card.providers|, |goods|, |bads|) + p + Flatten(SidItems(goods)) + Flatten(SidItems(bads))
              && |e| == n + 3 + 2 * |goods| + 2 * |bads|
            else
              e == FrontWith(h, false, |card.providers|, 0, 0) + p && |e| == n + 1
  {
    hide Head, ProviderItems, FirstSids, Flatten, SidItems;
    var h, p := Head(card, au), Flatten(ProviderItems(card, au));
    if ext {
      SidsLength(FirstSids(card.goods, max));
      SidsLength(FirstSids(card.bads, max));
    } else {
      NoItems(card, ext, max);
      NothingFlat();
      assert FrontWith(h, false, |card.providers|, 0, 0) + p + [] + [] == FrontWith(h, false, |card.providers|, 0, 0) + p;
    }
  }

  /** The two service lists, each with its counter. */
  method WriteServices(buf: array<Byte>, ghost h: seq<Byte>, ghost np: Byte, ghost p: seq<Byte>, at: nat, card: Card, b: Binding)
      returns (ofs: nat)
    requires |h| == 20 && at == 23 + |p| <= buf.Length
    requires buf[..] == FrontWith(h, true, np, 0, 0) + p + Zeros(buf.Length - at)
    requires var goods, bads := FirstSids(Resolved(card, b).goods, b.Max()), FirstSids(Resolved(card, b).bads, b.Max());
             at + 2 * |goods| + 2 * |bads| <= buf.Length
    modifies buf
    ensures var goods, bads := FirstSids(Resolved(card, b).goods, b.Max()), FirstSids(Resolved(card, b).bads, b.Max());
            && ofs == at + 2 * |goods| + 2 * |bads|
            && buf[..] == FrontWith(h, true, np, |goods|, |bads|) + p + Flatten(SidItems(goods)) + Flatten(SidItems(bads))
                          + Zeros(buf.Length - ofs)
  {
    hide Zeros, Flatten, SidItems, FirstSids, FrontWith, Refused;
    ghost var goods, bads := FirstSids(Resolved(card, b).goods, b.Max()), FirstSids(Resolved(card, b).bads, b.Max());
    ghost var ng: Byte, nb: Byte := |goods|, |bads|;
    ghost var gs, bs := Flatten(SidItems(goods)), Flatten(SidItems(bads));
    FrontLength(h, true, np, 0, 0);
    FrontLength(h, true, np, ng, 0);
    FrontCounts(h, true, np, ng, nb, p);
    FrontCounts(h, true, np, ng, nb, p + gs);
    ofs := WriteSids(buf, FrontWith(h, true, np, 0, 0) + p, at, 21, if b.Unbound? then card.goods else b.services, b.Max());
    assert FrontWith(h, true, np, ng, 0) + p + gs == FrontWith(h, true, np, ng, 0) + (p + gs);
    if b.Unbound? {
      ofs := WriteSids(buf, FrontWith(h, true, np, ng, 0) + (p + gs), ofs, 22, card.bads, MAX_SIDS);
    } else {
      ofs := WriteRefused(buf, FrontWith(h, true, np, ng, 0) + (p + gs), ofs, 22, b.tables, card.caid, MAX_TABLE_SIDS);
    }
    assert FrontWith(h, true, np, ng, nb) + (p + gs) + bs == FrontWith(h, true, np, ng, nb) + p + gs + bs;
  }

  method WriteSids(buf: array<Byte>, ghost pre: seq<Byte>, at: nat, counterAt: nat, sids: seq<nat>, max: Byte) returns (ofs: nat)
    requires counterAt < at == |pre| <= buf.Length && buf[..] == pre + Zeros(buf.Length - at) && pre[counterAt] == 0
    requires at + 2 * |FirstSids(sids, max)| <= buf.Length
    modifies buf
    ensures var first := FirstSids(sids, max);
            ofs == at + 2 * |first| && buf[..] == pre[counterAt := |first|] + Flatten(SidItems(first)) + Zeros(buf.Length - ofs)
  {
    hide Zeros, Flatten, SidItems, FirstSids;
    SidItemsCut(sids, max);
    SidsLength(FirstSids(sids, max));
    ofs := WriteList(buf, pre, at, counterAt, SidItems(sids), max);
  }

  lemma SidsLength(s: seq<nat>)
    ensures |Flatten(SidItems(s))| == 2 * |s| && AllOfSize(SidItems(s), 2)
  {
    FlattenLength(SidItems(s), 2);
  }

  lemma FrontLength(h: seq<Byte>, ext: bool, np: Byte, ng: Byte, nb: Byte)
    ensures |FrontWith(h, ext, np, ng, nb)| == |h| + if ext then 3 else 1
  {
  }

  /** `write_card` with the own node added. */
  method WriteCard(buf: array<Byte>, card: Card, b: Binding, own: seq<Byte>, ext: bool, au: bool) returns (ofs: nat)
    requires buf.Length == MAX_MESSAGE && Sized(Resolved(card, b)) && |own| == 8
    requires |Encode(Resolved(card, b), own, ext, au, b.Max())| <= MAX_MESSAGE
    modifies buf
    ensures var sent := Encode(Resolved(card, b), own, ext, au, if b.Unbound? then 200 else 240);
            ofs == |sent| && buf[..] == sent + Zeros(1024 - ofs)
  {
    hide Encode, Zeros, Flatten, Entered, AllOfSize, Refused;
    ghost var sent, max := Resolved(card, b), b.Max();
    Lengths(sent, own, ext, au, max);
    EncodeInParts(sent, own, ext, au, max);
    NodesSized(sent, own);
    JustNodes(card.nodes, own);
    ofs := WriteEntries(buf, card, b, ext, au);
    ofs := WritePath(buf, Entered(sent, ext, au, max), ofs, card.nodes, own);
  }

  lemma JustNodes(nodes: seq<seq<Byte>>, own: seq<Byte>)
    requires AllOfSize(nodes + [own], 8)
    ensures AllOfSize(nodes, 8)
  {
    assert forall i :: 0 <= i < |nodes| ==> (nodes + [own])[i] == nodes[i];
  }

  lemma EncodeInParts(card: Card, own: seq<Byte>, ext: bool, au: bool, max: Byte)
    requires |card.providers| < 256 && |card.nodes| + 1 < 256 && |Goods(card, ext, max)| <= max && |Bads(card, ext, max)| <= max
    ensures Encode(card, own, ext, au, max) ==
            Entered(card, ext, au, max) + [|card.nodes| + 1] + Flatten(card.nodes + [own])
  {
    hide Head, Flatten, ProviderItems, SidItems, Goods, Bads;
  }

  lemma EntriesSplit(buf: seq<Byte>, at: nat, size: nat, n: nat, i: nat)
    requires i < n && at + size * n <= |buf|
    ensures at + size * i + size <= |buf| && at + size * (i + 1) <= |buf|
    ensures Entries(buf, at, size, i + 1) == Entries(buf, at, size, i) + [buf[at + size * i..at + size * i + size]]
  {
    Scaled(size, i + 1, n);
    assert size * (i + 1) == size * i + size;
  }

  method ReadProviderList(buf: array<Byte>, at: nat, n: nat, caid: nat) returns (providers: seq<Provider>)
    requires at + 7 * n <= buf.Length
    ensures providers == ReadProviders(Entries(buf[..], at, 7, n), caid)
  {
    hide ReadProvider, Entries;
    ghost var m := buf[..];
    providers := [];
    for i := 0 to n
      invariant providers == ReadProviders(Entries(m, at, 7, i), caid)
    {
      EntriesSplit(m, at, 7, n, i);
      providers := providers + [ReadProvider(buf[at + 7 * i..at + 7 * i + 7], caid, i)];
    }
  }

  method ReadNodeList(buf: array<Byte>, at: nat, n: nat) returns (nodes: seq<seq<Byte>>)
    requires at + 8 * n <= buf.Length
    ensures nodes == Entries(buf[..], at, 8, n)
  {
    hide Entries;
    ghost var m := buf[..];
    nodes := [];
    assert Entries(m, at, 8, 0) == [];
    for i := 0 to n
      invariant nodes == Entries(m, at, 8, i)
    {
      EntriesSplit(m, at, 8, n, i);
      nodes := nodes + [buf[at + 8 * i..at + 8 * i + 8]];
    }
  }

  method ReadSidList(buf: array<Byte>, at: nat, n: nat) returns (sids: seq<nat>)
    requires at + 2 * n <= buf.Length
    ensures sids == ReadSids(Entries(buf[..], at, 2, n))
  {
    hide Number, Entries;
    ghost var m := buf[..];
    sids := [];
    for i := 0 to n
      invariant sids == ReadSids(Entries(m, at, 2, i))
    {
      EntriesSplit(m, at, 2, n, i);
      sids := sids + [Number(buf[at + 2 * i..at + 2 * i + 2])];
    }
  }

  /** How far the counters of a message lead. */
  function Reach(buf: seq<Byte>, ext: bool): nat
    requires |buf| >= if ext then 23 else 21
  {
    var np: nat, ng: nat, nb: nat := buf[20], if ext then buf[21] else 0, if ext then buf[22] else 0;
    var countAt := (if ext then 23 else 21) + 7 * np + 2 * ng + 2 * nb;
    var nodes: nat := if countAt < |buf| then buf[countAt] else 0;
    countAt + 1 + 8 * nodes
  }

  /** Reading stays inside a buffer if and only if the four counters do not lead out of it; nothing else is checked. */
  lemma ReadsInsideIff(buf: seq<Byte>, ext: bool)
    requires |buf| >= if ext then 23 else 21
    ensures Decode(buf, ext).Some? <==> Reach(buf, ext) <= |buf|
  {
  }

  /** A message with full counters leads out of every buffer of up to 2828 bytes. */
  lemma FullCountersLeadOut(buf: seq<Byte>)
    requires 23 <= |buf| <= 2828 && buf[20] == buf[21] == buf[22] == 255
    ensures Decode(buf, true) == None
  {
    ReadsInsideIff(buf, true);
  }

  /** `read_card`.  Where the program would read past the end of the buffer, the method stops. */
  method ReadCard(buf: array<Byte>, ext: bool) returns (card: Option<Card>)
    ensures card == Decode(buf[..], ext)
  {
    hide Number, Entries, ReadProviders, ReadSids;
    if buf.Length < if ext then 23 else 21 {
      return None;
    }
    var id, remoteId, caid := Number(buf[..4]), Number(buf[4..8]), Number(buf[8..10]);
    var nprov: nat, nassign: nat, nreject: nat, offset: nat := buf[20], 0, 0, 21;
    if ext {
      nassign, nreject := buf[21], buf[22];
      offset := offset + 2;
    }
    if offset + 7 * nprov > buf.Length {
      return None;
    }
    var providers := ReadProviderList(buf, offset, nprov, caid);
    offset := offset + 7 * nprov;
    if offset + 2 * nassign > buf.Length {
      return None;
    }
    var goods := ReadSidList(buf, offset, nassign);
    offset := offset + 2 * nassign;
    if offset + 2 * nreject > buf.Length {
      return None;
    }
    var bads := ReadSidList(buf, offset, nreject);
    offset := offset + 2 * nreject;
    if offset >= buf.Length {
      return None;
    }
    var count: nat := buf[offset];
    if offset + 1 + 8 * count > buf.Length {
      return None;
    }
    var nodes := ReadNodeList(buf, offset + 1, count);
    card := Some(Card(id, remoteId, caid, buf[10], buf[11], buf[12..20], providers, goods, bads, nodes));
  }
}
