/**
 How a card travels through a network of servers (oscam/oscam_8249/
 module-cccshare.c and the NEW_CARD case of module-cccam.c): every server
 passes on what it holds with its own node id appended, one hop more at the
 receiver and one reshare less at the sender.

 `root` is the reshare value of the local card a copy descends from.  It is
 written down for the statements below; no decision reads it.
 */
module Propagation {
  import opened Sequences

  type NodeId = nat

  datatype Card = Card(key: nat, remote: bool, hop: int, reshare: int, nodes: seq<NodeId>, root: int)

  datatype Message = Message(key: nat, hop: int, reshare: int, nodes: seq<NodeId>, root: int)

  /** The sending side's settings for one client; `passes` stands for group, ident, CAID and service checks. */
  datatype ClientRules = ClientRules(reshare: int, maxHops: int, passes: bool)

  /** The receiving side's settings for one server. */
  datatype ReaderRules = ReaderRules(maxHops: int, minDown: int, passes: bool)

  /** Conversion to a signed byte. */
  function ToInt8(x: int): int {
    if x % 256 < 128 then x % 256 else x % 256 - 256
  }

  /** `card_valid_for_client`, without ignore-reshare. */
  predicate ValidForClient(c: Card, peer: NodeId, rules: ClientRules) {
    rules.passes && !(c.remote && c.reshare == 0) && c.hop <= rules.maxHops && peer !in c.nodes
  }

  /** The reshare value sent on, negative if the card stays here. */
  function NewReshare(c: Card, limit: int): int {
    var r := ToInt8(c.reshare);
    var s := if c.remote then ToInt8(r - 1) else r;
    if s > limit then limit else s
  }

  /** `send_card_to_clients` for one card and one client. */
  function Offer(own: NodeId, c: Card, peer: NodeId, rules: ClientRules): Option<Message> {
    if !ValidForClient(c, peer, rules) || NewReshare(c, rules.reshare) < 0 then None
    else Some(Message(c.key, c.hop, NewReshare(c, rules.reshare), c.nodes + [own], c.root))
  }

  /** The NEW_CARD case of `cc_parse_msg`; `known` says that the card is held already. */
  function Accept(own: NodeId, m: Message, rules: ReaderRules, known: bool): Option<Card> {
    if m.hop >= rules.maxHops + 1 || m.reshare < rules.minDown || !rules.passes then None
    else if own in m.nodes then None
    else if known then None
    else Some(Card(m.key, true, (m.hop + 1) % 256, m.reshare, m.nodes, m.root))
  }

  // ------------------------------------------------------------- the network

  datatype Packet = Packet(to: NodeId, message: Message)

  datatype Network = Network(held: map<NodeId, seq<Card>>, wire: seq<Packet>, links: set<(NodeId, NodeId)>)

  datatype Action =
    | Originate(node: NodeId, key: nat, reshare: int)
    | Send(node: NodeId, index: nat, peer: NodeId, client: ClientRules)
    | Receive(packet: nat, reader: ReaderRules, known: bool)
    | Drop(node: NodeId, index: nat)

  function Held(n: Network, node: NodeId): seq<Card> {
    if node in n.held then n.held[node] else []
  }

  /** One step of the network; an action that is not possible changes nothing. */
  function Step(n: Network, a: Action): Network {
    match a
    case Originate(node, key, reshare) =>
      if 0 <= reshare < 256 then
        n.(held := n.held[node := Held(n, node) + [Card(key, false, 0, reshare, [], reshare)]])
      else n
    case Send(node, i, peer, rules) =>
      if i < |Held(n, node)| && (node, peer) in n.links then
        match Offer(node, Held(n, node)[i], peer, rules)
        case None => n
        case Some(m) => n.(wire := n.wire + [Packet(peer, m)])
      else n
    case Receive(p, rules, known) =>
      if p < |n.wire| then
        var to := n.wire[p].to;
        var rest := n.(wire := Without(n.wire, p));
        match Accept(to, n.wire[p].message, rules, known)
        case None => rest
        case Some(c) => rest.(held := n.held[to := Held(n, to) + [c]])
      else n
    case Drop(node, i) =>
      if i < |Held(n, node)| then n.(held := n.held[node := Without(Held(n, node), i)]) else n
  }

  function Exec(n: Network, run: seq<Action>): Network
    decreases |run|
  {
    if run == [] then n else Exec(Step(n, run[0]), run[1..])
  }

  function Initial(links: set<(NodeId, NodeId)>): Network {
    Network(map[], [], links)
  }

  // -------------------------------------------------------------- the claims

  /** Consecutive nodes are linked. */
  ghost predicate Path(s: seq<NodeId>, links: set<(NodeId, NodeId)>) {
    forall i {:trigger s[i]} :: 0 <= i < |s| - 1 ==> (s[i], s[i + 1]) in links
  }

  /** A card held at `node` came along a simple path of exactly `hop` links, and has spent its reshares. */
  ghost predicate GoodCard(c: Card, node: NodeId, links: set<(NodeId, NodeId)>) {
    && Distinct(c.nodes + [node]) && Path(c.nodes + [node], links)
    && |c.nodes| == c.hop && (c.remote <==> c.hop > 0)
    && 0 <= c.reshare < 256 && c.hop + c.reshare <= c.root + (if c.remote then 1 else 0)
    && (c.remote ==> c.hop + c.reshare <= 128)
  }

  ghost predicate GoodPacket(p: Packet, links: set<(NodeId, NodeId)>) {
    var m := p.message;
    && Distinct(m.nodes) && Path(m.nodes + [p.to], links)
    && |m.nodes| == m.hop + 1 && 0 <= m.hop
    && 0 <= m.reshare && m.hop + 1 + m.reshare <= m.root + 1
    && m.hop + 1 + m.reshare <= 128
  }

  ghost predicate Good(n: Network) {
    && (forall node, i :: node in n.held && 0 <= i < |n.held[node]| ==> GoodCard(n.held[node][i], node, n.links))
    && (forall i :: 0 <= i < |n.wire| ==> GoodPacket(n.wire[i], n.links))
  }

  lemma OfferIsGood(own: NodeId, c: Card, peer: NodeId, rules: ClientRules, links: set<(NodeId, NodeId)>)
    requires GoodCard(c, own, links) && (own, peer) in links
    ensures var m := Offer(own, c, peer, rules);
            m.Some? ==> GoodPacket(Packet(peer, m.value), links)
  {
  }

  lemma AcceptIsGood(p: Packet, rules: ReaderRules, known: bool, links: set<(NodeId, NodeId)>)
    requires GoodPacket(p, links)
    ensures var c := Accept(p.to, p.message, rules, known);
            c.Some? ==> GoodCard(c.value, p.to, links)
  {
  }

  lemma StepKeepsGood(n: Network, a: Action)
    requires Good(n)
    ensures Good(Step(n, a)) && Step(n, a).links == n.links
  {
    hide GoodCard, GoodPacket, Offer, Accept;
    match a
    case Originate(node, key, reshare) =>
      NewCardIsGood(node, key, reshare, n.links);
    case Send(node, i, peer, rules) =>
      if i < |Held(n, node)| && (node, peer) in n.links {
        OfferIsGood(node, Held(n, node)[i], peer, rules, n.links);
      }
    case Receive(p, rules, known) =>
      if p < |n.wire| {
        AcceptIsGood(n.wire[p], rules, known, n.links);
      }
    case Drop(node, i) =>
  }

  lemma NewCardIsGood(node: NodeId, key: nat, reshare: int, links: set<(NodeId, NodeId)>)
    ensures 0 <= reshare < 256 ==> GoodCard(Card(key, false, 0, reshare, [], reshare), node, links)
  {
  }

  /** In every reachable network, whatever anybody's settings are, cards travel along simple paths only. */
  lemma {:induction false} ReachableIsGood(n: Network, run: seq<Action>)
    requires Good(n)
    ensures Good(Exec(n, run)) && Exec(n, run).links == n.links
    decreases |run|
  {
    if run != [] {
      StepKeepsGood(n, run[0]);
      ReachableIsGood(Step(n, run[0]), run[1..]);
    }
  }

  /**
   Propagation is loop-free and bounded: along every run from the empty network,
   the nodes a card has passed are distinct, do not contain its holder and
   number `hop`; hop and reshare together never exceed the reshare of the local
   card it descends from plus one; so it is never further than that from home,
   nor further than the network has other nodes.
   */
  lemma PropagationIsBounded(links: set<(NodeId, NodeId)>, run: seq<Action>, node: NodeId, i: nat, nodes: set<NodeId>)
    requires i < |Held(Exec(Initial(links), run), node)|
    requires forall a, b :: (a, b) in links ==> a in nodes && b in nodes
    ensures var c := Held(Exec(Initial(links), run), node)[i];
            && Distinct(c.nodes) && node !in c.nodes && |c.nodes| == c.hop
            && Path(c.nodes + [node], links)
            && c.hop + c.reshare <= c.root + 1 && c.hop <= c.root + 1
            && (c.hop > 0 ==> c.hop < |nodes|)
  {
    ReachableIsGood(Initial(links), run);
    var c := Held(Exec(Initial(links), run), node)[i];
    assert GoodCard(c, node, links);
    var path := c.nodes + [node];
    assert path[..|path| - 1] == c.nodes;
    assert path[|path| - 1] == node;
    if c.hop > 0 {
      forall k | 0 <= k < |path| ensures path[k] in nodes {
        if k < |path| - 1 {
          assert (path[k], path[k + 1]) in links;
        } else {
          assert (path[k - 1], path[k]) in links;
        }
      }
      DistinctFits(path, nodes);
    }
  }

  /** Distinct elements of a set are at most as many as the set has. */
  lemma {:induction false} DistinctFits(s: seq<NodeId>, all: set<NodeId>)
    requires Distinct(s) && forall x :: x in s ==> x in all
    ensures |s| <= |all|
  {
    if s != [] {
      var last := s[|s| - 1];
      var front := s[..|s| - 1];
      DistinctFits(front, all - {last});
    }
  }

  // ----------------------------------------- what is passed on, and how far

  /**
   A card goes to a client that passes the other checks exactly if it has a
   reshare left (a remote card pays one), the client's reshare is not negative,
   it is within the hop limit for the client, and the client is not on its path.
   It is sent with that reshare, capped by the client's.
   */
  lemma OfferIff(own: NodeId, c: Card, peer: NodeId, rules: ClientRules)
    requires 0 <= c.reshare < 256
    ensures var left := if c.remote then c.reshare - 1 else c.reshare;
            Offer(own, c, peer, rules) ==
            if rules.passes && 0 <= left <= 127 && 0 <= rules.reshare && c.hop <= rules.maxHops && peer !in c.nodes
            then Some(Message(c.key, c.hop, if left <= rules.reshare then left else rules.reshare, c.nodes + [own], c.root))
            else None
  {
  }

  /** A card is taken exactly within the reader's limits, off its own path, and once. */
  lemma AcceptIff(own: NodeId, m: Message, rules: ReaderRules, known: bool)
    requires 0 <= m.hop < 255
    ensures Accept(own, m, rules, known) ==
            if m.hop <= rules.maxHops && rules.minDown <= m.reshare && rules.passes && own !in m.nodes && !known
            then Some(Card(m.key, true, m.hop + 1, m.reshare, m.nodes, m.root))
            else None
  {
  }

  /** The hop limits that the servers of a run have at most: `down` towards clients, `up` towards servers. */
  predicate Limited(a: Action, down: int, up: int) {
    && (a.Send? ==> a.client.maxHops <= down)
    && (a.Receive? ==> a.reader.maxHops <= up)
  }

  ghost predicate Within(n: Network, down: int, up: int) {
    && (forall node, i :: node in n.held && 0 <= i < |n.held[node]| && n.held[node][i].hop > 0 ==>
          n.held[node][i].hop <= down + 1 && n.held[node][i].hop <= up + 1)
    && (forall i :: 0 <= i < |n.wire| ==> n.wire[i].message.hop <= down)
  }

  lemma SentWithin(own: NodeId, c: Card, peer: NodeId, rules: ClientRules)
    ensures var m := Offer(own, c, peer, rules); m.Some? ==> m.value.hop == c.hop <= rules.maxHops
  {
  }

  lemma TakenWithin(own: NodeId, m: Message, rules: ReaderRules, known: bool)
    requires 0 <= m.hop <= 128
    ensures var c := Accept(own, m, rules, known); c.Some? ==> c.value.hop == m.hop + 1 <= rules.maxHops + 1
  {
  }

  lemma StepKeepsWithin(n: Network, a: Action, down: int, up: int)
    requires Good(n) && Within(n, down, up) && Limited(a, down, up)
    ensures Within(Step(n, a), down, up)
  {
    hide GoodCard, Path, NewReshare, Offer, Accept;
    match a
    case Originate(_, _, _) =>
    case Send(node, i, peer, rules) =>
      if i < |Held(n, node)| {
        SentWithin(node, Held(n, node)[i], peer, rules);
      }
    case Receive(p, rules, known) =>
      if p < |n.wire| {
        assert GoodPacket(n.wire[p], n.links);
        TakenWithin(n.wire[p].to, n.wire[p].message, rules, known);
      }
    case Drop(_, _) =>
  }

  lemma {:induction false} HopLimitsHold(n: Network, run: seq<Action>, down: int, up: int)
    requires Good(n) && Within(n, down, up) && forall a :: a in run ==> Limited(a, down, up)
    ensures Within(Exec(n, run), down, up)
    decreases |run|
  {
    hide Step, Good, Within, Limited;
    if run != [] {
      StepKeepsGood(n, run[0]);
      StepKeepsWithin(n, run[0], down, up);
      HopLimitsHold(Step(n, run[0]), run[1..], down, up);
    }
  }

  /**
   The hop limits of both ends are kept in every run: if no server sends cards of
   more than `down` hops or takes cards of more than `up`, no card gets further
   than one hop beyond either.
   */
  lemma HopsStayWithin(links: set<(NodeId, NodeId)>, run: seq<Action>, down: int, up: int, node: NodeId, i: nat)
    requires forall a :: a in run ==>
               (a.Send? ==> a.client.maxHops <= down) && (a.Receive? ==> a.reader.maxHops <= up)
    requires i < |Held(Exec(Initial(links), run), node)|
    ensures var c := Held(Exec(Initial(links), run), node)[i];
            c.remote ==> 1 <= c.hop <= down + 1 && c.hop <= up + 1
  {
    ReachableIsGood(Initial(links), run);
    HopLimitsHold(Initial(links), run, down, up);
    var c := Held(Exec(Initial(links), run), node)[i];
    assert GoodCard(c, node, links);
  }

  /** A card's way along `path`: every node offers it to the next, which takes it. */
  function Journey(path: seq<NodeId>, key: nat, root: int): seq<Action>
    requires path != []
  {
    if |path| == 1 then [Originate(path[0], key, root)]
    else
      var last := |path| - 1;
      Journey(path[..last], key, root)
      + [Send(path[last - 1], 0, path[last], ClientRules(127, 255, true)), Receive(0, ReaderRules(255, 0, true), false)]
  }

  /** The card as its `i`-th holder has it. */
  function CardAt(path: seq<NodeId>, key: nat, root: int, i: nat): Card
    requires i < |path|
  {
    Card(key, i > 0, i, if i == 0 then root else root + 1 - i, path[..i], root)
  }

  lemma {:induction false} ExecAppend(n: Network, a: seq<Action>, b: seq<Action>)
    ensures Exec(n, a + b) == Exec(Exec(n, a), b)
    decreases |a|
  {
    hide Step;
    if a == [] {
      assert a + b == b;
    } else {
      assert (a + b)[0] == a[0] && (a + b)[1..] == a[1..] + b;
      ExecAppend(Step(n, a[0]), a[1..], b);
    }
  }

  /**
   The bounds are reached: along every path of linked, distinct nodes a card
   gets as far as its reshare allows, and hop and reshare there add up to the
   reshare of the local card plus one.
   */
  lemma {:induction false} CardTravels(path: seq<NodeId>, key: nat, root: int, links: set<(NodeId, NodeId)>)
    requires path != [] && Distinct(path) && Path(path, links)
    requires |path| - 2 <= root && 0 <= root <= 127
    ensures var n := Exec(Initial(links), Journey(path, key, root));
            && (forall i :: 0 <= i < |path| ==> Held(n, path[i]) == [CardAt(path, key, root, i)])
            && (forall x :: x !in path ==> Held(n, x) == [])
            && n.wire == [] && n.links == links
    decreases |path|
  {
    var start := Initial(links);
    if |path| == 1 {
      assert Exec(start, Journey(path, key, root)) == Step(start, Originate(path[0], key, root));
    } else {
      var last := |path| - 1;
      var front := path[..last];
      CardTravels(front, key, root, links);
      var n := Exec(start, Journey(front, key, root));
      var send := Send(path[last - 1], 0, path[last], ClientRules(127, 255, true));
      var receive := Receive(0, ReaderRules(255, 0, true), false);
      ExecAppend(start, Journey(front, key, root), [send, receive]);
      ExecTwo(n, send, receive);
      OneHop(n, path, key, root);
    }
  }

  lemma ExecTwo(n: Network, a: Action, b: Action)
    ensures Exec(n, [a, b]) == Step(Step(n, a), b)
  {
    hide Step;
    assert [a, b][1..] == [b] && [b][1..] == [];
    assert Exec(Step(n, a), [b]) == Exec(Step(Step(n, a), b), []);
  }

  lemma OneHop(n: Network, path: seq<NodeId>, key: nat, root: int)
    requires |path| >= 2 && Distinct(path) && Path(path, n.links)
    requires |path| - 2 <= root && 0 <= root <= 127
    requires var front := path[..|path| - 1];
             && (forall i :: 0 <= i < |front| ==> Held(n, path[i]) == [CardAt(front, key, root, i)])
             && (forall x :: x !in front ==> Held(n, x) == [])
             && n.wire == []
    ensures var last := |path| - 1;
            var t := Step(Step(n, Send(path[last - 1], 0, path[last], ClientRules(127, 255, true))),
                          Receive(0, ReaderRules(255, 0, true), false));
            && (forall i :: 0 <= i < |path| ==> Held(t, path[i]) == [CardAt(path, key, root, i)])
            && (forall x :: x !in path ==> Held(t, x) == [])
            && t.wire == [] && t.links == n.links
  {
    hide Step, Offer, Accept, CardAt, Held;
    var last := |path| - 1;
    var front := path[..last];
    var c := CardAt(front, key, root, last - 1);
    var m := Message(key, last - 1, root + 1 - last, front, root);
    assert (path[last - 1], path[last]) in n.links && path[last] !in front;
    hide Path, Distinct;
    IsPassedOn(path, key, root);
    FrontCards(path, key, root);
    assert Held(n, path[last - 1]) == [c];
    Offers(n, path[last - 1], path[last], c, m);
    var sent := n.(wire := [Packet(path[last], m)]);
    SameHeld(n, sent);
    Takes(sent, path[last], m, CardAt(path, key, root, last));
    assert forall x :: x in front ==> x in path;
  }

  lemma FrontCards(path: seq<NodeId>, key: nat, root: int)
    requires path != []
    ensures forall i :: 0 <= i < |path| - 1 ==> CardAt(path[..|path| - 1], key, root, i) == CardAt(path, key, root, i)
  {
    forall i | 0 <= i < |path| - 1 ensures path[..|path| - 1][..i] == path[..i] {
    }
  }

  lemma SameHeld(n: Network, t: Network)
    requires n.held == t.held
    ensures forall x :: Held(t, x) == Held(n, x)
  {
  }

  lemma IsPassedOn(path: seq<NodeId>, key: nat, root: int)
    requires |path| >= 2 && Distinct(path) && |path| - 2 <= root && 0 <= root <= 127
    ensures var last := |path| - 1;
            var c := CardAt(path[..last], key, root, last - 1);
            var m := Message(key, last - 1, root + 1 - last, path[..last], root);
            && Offer(path[last - 1], c, path[last], ClientRules(127, 255, true)) == Some(m)
            && Accept(path[last], m, ReaderRules(255, 0, true), false) == Some(CardAt(path, key, root, last))
  {
    var last := |path| - 1;
    var c := CardAt(path[..last], key, root, last - 1);
    assert path[..last][..last - 1] + [path[last - 1]] == path[..last];
    assert path[last] !in path[..last] && path[last] !in c.nodes;
    OfferIff(path[last - 1], c, path[last], ClientRules(127, 255, true));
    AcceptIff(path[last], Message(key, last - 1, root + 1 - last, path[..last], root), ReaderRules(255, 0, true), false);
    hide Offer, Accept;
  }

  lemma Offers(n: Network, from: NodeId, to: NodeId, c: Card, m: Message)
    requires n.wire == [] && Held(n, from) == [c] && (from, to) in n.links
    requires Offer(from, c, to, ClientRules(127, 255, true)) == Some(m)
    ensures Step(n, Send(from, 0, to, ClientRules(127, 255, true))) == n.(wire := [Packet(to, m)])
  {
    hide Offer;
  }

  lemma Takes(n: Network, to: NodeId, m: Message, c: Card)
    requires n.wire == [Packet(to, m)] && Held(n, to) == []
    requires Accept(to, m, ReaderRules(255, 0, true), false) == Some(c)
    ensures var t := Step(n, Receive(0, ReaderRules(255, 0, true), false));
            && t.wire == [] && t.links == n.links && Held(t, to) == [c]
            && forall x :: x != to ==> Held(t, x) == Held(n, x)
  {
    hide Accept;
  }
}
