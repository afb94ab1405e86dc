/**
 The share list of a server and its copy at a client (oscam/oscam_8249/
 module-cccshare.c, and the NEW_CARD and CARD_REMOVED cases of module-cccam.c).
 The server compares its old list with a new one, hands ids on, announces what
 went and what came; the client applies the announcements.
 */
module ShareList {
  import opened Sequences

  const BUCKETS: nat := 32

  /**
   What `same_card` compares: the CAID, whether the card type is a local one, and
   everything else (remote id, group, serial, first node) taken together.
   */
  datatype Key = Key(caid: nat, isLocal: bool, rest: nat)

  /** `id` is 0 until the card is first sent; `added` marks a card that the previous list did not have. */
  datatype Card = Card(key: Key, id: nat, timeout: int, added: bool)

  /** What a client's own comparison sees of a card. */
  type View = nat

  function Bucket(caid: nat): (b: nat)
    ensures b < BUCKETS
  {
    caid / 256 % BUCKETS
  }

  predicate TimedOut(c: Card, now: int) {
    c.key.isLocal && c.timeout < now
  }

  /** The guard in `find_reported_card`. */
  predicate Reusable(c: Card, known: Card, now: int) {
    c.key == known.key && !TimedOut(known, now)
  }

  /** The first reusable card from `i` on, or the length. */
  function FindFrom(known: seq<Card>, c: Card, now: int, i: nat): (r: nat)
    requires i <= |known|
    ensures i <= r <= |known|
    ensures r < |known| ==> Reusable(c, known[r], now)
    ensures forall j :: i <= j < r ==> !Reusable(c, known[j], now)
    decreases |known| - i
  {
    if i == |known| || Reusable(c, known[i], now) then i else FindFrom(known, c, now, i + 1)
  }

  /** `left`: old cards that nobody claimed; `cards`: the new list, with the claimed ids. */
  datatype Diff = Diff(left: seq<Card>, cards: seq<Card>)

  /** `report_card` for every card of a new bucket against the old bucket. */
  function Report(known: seq<Card>, news: seq<Card>, now: int): (d: Diff)
    ensures |d.cards| == |news|
    decreases |news|
  {
    if news == [] then Diff(known, [])
    else
      var c, i := news[0], FindFrom(known, news[0], now, 0);
      if i < |known| then
        var d := Report(Without(known, i), news[1..], now);
        d.(cards := [c.(id := known[i].id, timeout := known[i].timeout, added := false)] + d.cards)
      else
        var d := Report(known, news[1..], now);
        d.(cards := [c.(added := true)] + d.cards)
  }

  type Buckets = seq<seq<Card>>

  function Flat(b: Buckets): seq<Card> {
    if b == [] then [] else b[0] + Flat(b[1..])
  }

  function Lefts(known: Buckets, news: Buckets, now: int): seq<Card>
    requires |known| == |news|
  {
    if known == [] then [] else Report(known[0], news[0], now).left + Lefts(known[1..], news[1..], now)
  }

  function Reports(known: Buckets, news: Buckets, now: int): (b: Buckets)
    requires |known| == |news|
    ensures |b| == |known|
  {
    if known == [] then [] else [Report(known[0], news[0], now).cards] + Reports(known[1..], news[1..], now)
  }

  // ------------------------------------------------------------- sending ids

  /** Which cards are sent: all or the new ones, to this client or only to others that are entitled to some. */
  datatype Sending = All | New | AllFor(to: Key -> bool) | NewFor(to: Key -> bool)

  predicate Marked(c: Card, m: Sending) {
    match m
    case All => true
    case New => c.added
    case AllFor(to) => to(c.key)
    case NewFor(to) => c.added && to(c.key)
  }

  /** Cards that are sent and have no id yet get the next one. */
  function Assign(cards: seq<Card>, next: nat, m: Sending): (r: seq<Card>)
    ensures |r| == |cards|
    decreases |cards|
  {
    if cards == [] then []
    else if Marked(cards[0], m) && cards[0].id == 0 then
      [cards[0].(id := next)] + Assign(cards[1..], next + 1, m)
    else [cards[0]] + Assign(cards[1..], next, m)
  }

  function NextId(cards: seq<Card>, next: nat, m: Sending): (n: nat)
    ensures n >= next
    decreases |cards|
  {
    if cards == [] then next
    else NextId(cards[1..], if Marked(cards[0], m) && cards[0].id == 0 then next + 1 else next, m)
  }

  function AssignBuckets(b: Buckets, next: nat, m: Sending): (r: Buckets)
    ensures |r| == |b|
    decreases |b|
  {
    if b == [] then [] else [Assign(b[0], next, m)] + AssignBuckets(b[1..], NextId(b[0], next, m), m)
  }

  // -------------------------------------------------------------- the client

  /** A client's cards, each an id and a view. */
  type Copy = set<(nat, View)>

  function Removed(copy: Copy, id: nat): Copy {
    set p | p in copy && p.0 != id
  }

  predicate Known(copy: Copy, id: nat, view: View) {
    exists p :: p in copy && (p.0 == id || p.1 == view)
  }

  function Announced(copy: Copy, id: nat, view: View): Copy {
    if Known(copy, id, view) then copy else copy + {(id, view)}
  }

  /** CARD_REMOVED for every card that has an id. */
  function RemoveAll(copy: Copy, cards: seq<Card>): Copy
    decreases |cards|
  {
    if cards == [] then copy
    else RemoveAll(if cards[0].id == 0 then copy else Removed(copy, cards[0].id), cards[1..])
  }

  /** NEW_CARD for the marked cards. */
  function AnnounceAll(copy: Copy, cards: seq<Card>, view: Key -> View, m: Sending): Copy
    decreases |cards|
  {
    if cards == [] then copy
    else
      var c := cards[0];
      AnnounceAll(if Marked(c, m) then Announced(copy, c.id, view(c.key)) else copy, cards[1..], view, m)
  }

  // ------------------------------------------------------------- whole steps

  datatype Server = Server(buckets: Buckets, next: nat)

  /** The client, which is entitled to every card, is there or not. */
  datatype System = System(server: Server, connected: bool, copy: Copy)

  /** `update_card_list` from the report phase on: removals first, then additions; `others` are entitled to some cards. */
  function Update(s: System, news: Buckets, now: int, others: Key -> bool, view: Key -> View): System
    requires |s.server.buckets| == |news|
  {
    var reported := Reports(s.server.buckets, news, now);
    var m := if s.connected then New else NewFor(others);
    var sent := AssignBuckets(reported, s.server.next, m);
    var removed := RemoveAll(s.copy, Lefts(s.server.buckets, news, now));
    System(Server(sent, NextId(Flat(reported), s.server.next, m)), s.connected,
           if s.connected then AnnounceAll(removed, Flat(sent), view, m) else s.copy)
  }

  /** `cc_srv_report_cards`, the server's side: every card that is sent has an id then. */
  function SendAll(v: Server, m: Sending): Server {
    Server(AssignBuckets(v.buckets, v.next, m), NextId(Flat(v.buckets), v.next, m))
  }

  /** `cc_srv_report_cards` for this client, which starts with nothing. */
  function Connect(s: System, view: Key -> View): System {
    System(SendAll(s.server, All), true, AnnounceAll({}, Flat(SendAll(s.server, All).buckets), view, All))
  }

  datatype Event =
    | Refresh(news: Buckets, now: int, others: Key -> bool)
    | Joins
    | Leaves
    | OtherJoins(to: Key -> bool)

  function Step(s: System, e: Event, view: Key -> View): System
    requires e.Refresh? ==> |s.server.buckets| == |e.news|
  {
    match e
    case Refresh(news, now, others) => Update(s, news, now, others, view)
    case Joins => Connect(s, view)
    case Leaves => s.(connected := false)
    case OtherJoins(to) => s.(server := SendAll(s.server, AllFor(to)))
  }

  function Run(s: System, events: seq<Event>, view: Key -> View): System
    requires |s.server.buckets| == BUCKETS && forall e :: e in events && e.Refresh? ==> |e.news| == BUCKETS
    decreases |events|
  {
    if events == [] then s else Run(Step(s, events[0], view), events[1..], view)
  }

  function Start(): (s: System)
    ensures |s.server.buckets| == BUCKETS
  {
    System(Server(seq(BUCKETS, _ => []), 1), false, {})
  }

  // -------------------------------------------------------------- the claims

  ghost predicate DistinctIds(cards: seq<Card>) {
    forall i, j :: 0 <= i < j < |cards| && cards[i].id != 0 ==> cards[i].id != cards[j].id
  }

  ghost predicate DistinctViews(cards: seq<Card>, view: Key -> View) {
    forall i, j :: 0 <= i < j < |cards| ==> view(cards[i].key) != view(cards[j].key)
  }

  ghost predicate SameKeys(a: seq<Card>, b: seq<Card>) {
    |a| == |b| && forall i :: 0 <= i < |a| ==> a[i].key == b[i].key
  }

  function Pair(c: Card, view: Key -> View): (nat, View) {
    (c.id, view(c.key))
  }

  /** The pairs of id and view of the cards that have been sent. */
  ghost function Image(cards: seq<Card>, view: Key -> View): Copy {
    set c | c in cards && c.id != 0 :: Pair(c, view)
  }

  ghost function Ids(cards: seq<Card>): set<nat> {
    set c | c in cards && c.id != 0 :: c.id
  }

  /** The pairs of the cards that are announced now. */
  ghost function Fresh(cards: seq<Card>, view: Key -> View, m: Sending): Copy {
    set c | c in cards && Marked(c, m) :: Pair(c, view)
  }

  /**
   Ids are never shared and were all given out, and a connected client has only
   cards that the server has, no two of which look the same to it.
   */
  ghost predicate Sound(s: System, view: Key -> View) {
    var cards := Flat(s.server.buckets);
    && |s.server.buckets| == BUCKETS && 0 < s.server.next
    && DistinctIds(cards) && (forall c :: c in cards ==> c.id < s.server.next)
    && (s.connected ==>
          s.copy <= Image(cards, view) && DistinctInCopy(s.copy) && forall c :: c in cards ==> c.id != 0)
  }

  /** Moreover no two cards look the same to a client, and a connected one has all of them. */
  ghost predicate Good(s: System, view: Key -> View) {
    var cards := Flat(s.server.buckets);
    && Sound(s, view) && DistinctViews(cards, view)
    && (s.connected ==> s.copy == Image(cards, view))
  }

  ghost predicate DistinctInCopy(copy: Copy) {
    forall p, q :: p in copy && q in copy && p.1 == q.1 ==> p == q
  }

  /** Cards marked as added have no id yet; each of the others has the id of a known card with its key that has not timed out. */
  ghost predicate Inherited(known: seq<Card>, cards: seq<Card>, now: int) {
    forall c :: c in cards ==>
      if c.added then c.id == 0
      else exists o :: o in known && o.id == c.id && o.key == c.key && !(o.key.isLocal && o.timeout < now)
  }

  /** A new list: no ids yet. */
  ghost predicate Unsent(news: Buckets) {
    |news| == BUCKETS && forall c :: c in Flat(news) ==> c.id == 0
  }

  /** A new list in which no two cards look the same to a client. */
  ghost predicate Proper(news: Buckets, view: Key -> View) {
    Unsent(news) && DistinctViews(Flat(news), view)
  }

  // -- images and ids of joined lists

  lemma Joined(a: seq<Card>, b: seq<Card>, view: Key -> View)
    ensures Image(a + b, view) == Image(a, view) + Image(b, view)
    ensures Ids(a + b) == Ids(a) + Ids(b)
    ensures DistinctIds(a + b) <==> DistinctIds(a) && DistinctIds(b) && Ids(a) !! Ids(b)
  {
    hide Pair;
    assert forall c :: c in a + b <==> c in a || c in b;
    if DistinctIds(a + b) {
      SplitIds(a, b);
    } else if DistinctIds(a) && DistinctIds(b) && Ids(a) !! Ids(b) {
      JoinIds(a, b);
    }
  }

  lemma JoinIds(a: seq<Card>, b: seq<Card>)
    requires DistinctIds(a) && DistinctIds(b) && Ids(a) !! Ids(b)
    ensures DistinctIds(a + b)
  {
    forall i, j | 0 <= i < j < |a + b| && (a + b)[i].id != 0
      ensures (a + b)[i].id != (a + b)[j].id
    {
      if i < |a| <= j && b[j - |a|].id != 0 {
        assert a[i].id in Ids(a);
        assert b[j - |a|].id in Ids(b);
      }
    }
  }

  lemma SplitIds(a: seq<Card>, b: seq<Card>)
    requires DistinctIds(a + b)
    ensures DistinctIds(a) && DistinctIds(b) && Ids(a) !! Ids(b)
  {
    var s := a + b;
    assert forall i :: 0 <= i < |a| ==> s[i] == a[i];
    assert forall i :: 0 <= i < |b| ==> s[|a| + i] == b[i];
    forall c, e | c in a && e in b && c.id != 0
      ensures c.id != e.id
    {
      var i, j :| 0 <= i < |a| && 0 <= j < |b| && a[i] == c && b[j] == e;
      assert s[i].id != s[|a| + j].id;
    }
  }

  lemma One(c: Card, view: Key -> View)
    ensures Image([c], view) == if c.id == 0 then {} else {Pair(c, view)}
    ensures Ids([c]) == if c.id == 0 then {} else {c.id}
    ensures DistinctIds([c])
  {
  }

  lemma WithoutElements(s: seq<Card>, i: nat, view: Key -> View)
    requires i < |s| && DistinctIds(s)
    ensures Image(s, view) == Image(Without(s, i), view) + Image([s[i]], view)
    ensures Ids(s) == Ids(Without(s, i)) + Ids([s[i]]) && Ids(Without(s, i)) !! Ids([s[i]])
    ensures DistinctIds(Without(s, i))
    ensures forall c :: c in Without(s, i) ==> c in s
  {
  }

  // -- one bucket

  /** A card of the new list against the old one: what becomes of it, and the old cards that remain. */
  function Matched(known: seq<Card>, c: Card, now: int): (r: (Card, seq<Card>)) {
    var i := FindFrom(known, c, now, 0);
    if i < |known| then (c.(id := known[i].id, timeout := known[i].timeout, added := false), Without(known, i))
    else (c.(added := true), known)
  }

  lemma ReportFirst(known: seq<Card>, news: seq<Card>, now: int)
    requires news != []
    ensures var r := Matched(known, news[0], now);
            var d := Report(r.1, news[1..], now);
            Report(known, news, now) == Diff(d.left, [r.0] + d.cards)
  {
    hide FindFrom, Without;
  }

  /** The old pairs are split into those left over and those handed on, without a shared id. */
  lemma {:induction false} ReportSplits(known: seq<Card>, news: seq<Card>, now: int, view: Key -> View)
    requires DistinctIds(known) && forall c :: c in news ==> c.id == 0
    ensures var d := Report(known, news, now);
            && Image(known, view) == Image(d.left, view) + Image(d.cards, view)
            && Ids(known) == Ids(d.left) + Ids(d.cards) && Ids(d.left) !! Ids(d.cards)
            && DistinctIds(d.cards) && SameKeys(news, d.cards)
    decreases |news|
  {
    hide Image, Ids, DistinctIds;
    if news == [] {
      Joined(known, [], view);
      assert known + [] == known;
      Empty(view);
    } else {
      var c, i := news[0], FindFrom(known, news[0], now, 0);
      if i < |known| {
        var h := c.(id := known[i].id, timeout := known[i].timeout, added := false);
        var d := Report(Without(known, i), news[1..], now);
        WithoutElements(known, i, view);
        ReportSplits(Without(known, i), news[1..], now, view);
        One(h, view);
        One(known[i], view);
        Joined([h], d.cards, view);
      } else {
        var h := c.(added := true);
        var d := Report(known, news[1..], now);
        ReportSplits(known, news[1..], now, view);
        One(h, view);
        Joined([h], d.cards, view);
      }
    }
  }

  lemma {:induction false} ReportInherits(known: seq<Card>, news: seq<Card>, now: int)
    requires forall c :: c in news ==> c.id == 0
    ensures Inherited(known, Report(known, news, now).cards, now)
    decreases |news|
  {
    if news == [] {
    } else {
      hide Report, Matched, Inherited;
      var r := Matched(known, news[0], now);
      var d := Report(r.1, news[1..], now);
      ReportFirst(known, news, now);
      ReportInherits(r.1, news[1..], now);
      MatchedInherits(known, news[0], now);
      assert [r.0] + d.cards == Report(known, news, now).cards;
      InheritMore(known, r.1, r.0, d.cards, now);
    }
  }

  lemma MatchedInherits(known: seq<Card>, c: Card, now: int)
    requires c.id == 0
    ensures var r := Matched(known, c, now);
            Inherited(known, [r.0], now) && forall o :: o in r.1 ==> o in known
  {
  }

  lemma InheritMore(known: seq<Card>, part: seq<Card>, c: Card, cards: seq<Card>, now: int)
    requires Inherited(known, [c], now) && Inherited(part, cards, now) && forall o :: o in part ==> o in known
    ensures Inherited(known, [c] + cards, now)
  {
    assert c in [c];
  }

  lemma Empty(view: Key -> View)
    ensures Image([], view) == {} && Ids([]) == {} && DistinctIds([])
  {
  }

  // -- all buckets

  /** The same for the whole list. */
  lemma {:induction false} ReportsSplit(known: Buckets, news: Buckets, now: int, view: Key -> View)
    requires |known| == |news| && DistinctIds(Flat(known)) && forall c :: c in Flat(news) ==> c.id == 0
    ensures var left, cards := Lefts(known, news, now), Flat(Reports(known, news, now));
            && Image(Flat(known), view) == Image(left, view) + Image(cards, view)
            && Ids(Flat(known)) == Ids(left) + Ids(cards) && Ids(left) !! Ids(cards)
            && DistinctIds(cards) && SameKeys(Flat(news), cards)
    ensures Inherited(Flat(known), Flat(Reports(known, news, now)), now)
    decreases |known|
  {
    hide Image, Ids, DistinctIds, Report, Inherited, SameKeys;
    if known == [] {
      Empty(view);
      NoneInherited(now);
      NoKeys();
    } else {
      var d := Report(known[0], news[0], now);
      var left, cards := Lefts(known[1..], news[1..], now), Flat(Reports(known[1..], news[1..], now));
      Joined(known[0], Flat(known[1..]), view);
      ReportSplits(known[0], news[0], now, view);
      ReportInherits(known[0], news[0], now);
      ReportsSplit(known[1..], news[1..], now, view);
      Joined(d.left, left, view);
      Joined(d.cards, cards, view);
      JoinedKeys(news[0], d.cards, Flat(news[1..]), cards);
      JoinedInherited(known[0], d.cards, Flat(known[1..]), cards, now);
    }
  }

  lemma JoinedKeys(a: seq<Card>, a': seq<Card>, b: seq<Card>, b': seq<Card>)
    requires SameKeys(a, a') && SameKeys(b, b')
    ensures SameKeys(a + b, a' + b')
  {
  }

  lemma JoinedInherited(known: seq<Card>, a: seq<Card>, known': seq<Card>, b: seq<Card>, now: int)
    requires Inherited(known, a, now) && Inherited(known', b, now)
    ensures Inherited(known + known', a + b, now)
  {
  }

  lemma NoneInherited(now: int)
    ensures Inherited([], [], now)
  {
  }

  lemma NoKeys()
    ensures SameKeys([], [])
  {
  }

  lemma {:induction false} RemoveAllKeepsOthers(copy: Copy, cards: seq<Card>)
    ensures RemoveAll(copy, cards) == set p | p in copy && p.0 !in Ids(cards)
    decreases |cards|
  {
    if cards != [] {
      var c := cards[0];
      RemoveAllKeepsOthers(if c.id == 0 then copy else Removed(copy, c.id), cards[1..]);
      assert cards == [c] + cards[1..];
    }
  }

  /** After the removals the client keeps exactly what was handed on. */
  lemma RemovalsLeaveReported(known: seq<Card>, left: seq<Card>, cards: seq<Card>, view: Key -> View)
    requires Image(known, view) == Image(left, view) + Image(cards, view) && Ids(left) !! Ids(cards)
    ensures RemoveAll(Image(known, view), left) == Image(cards, view)
  {
    RemoveAllKeepsOthers(Image(known, view), left);
    forall p | p in Image(cards, view)
      ensures p.0 !in Ids(left)
    {
      assert p.0 in Ids(cards);
    }
    forall p | p in Image(left, view)
      ensures p.0 in Ids(left)
    {
    }
  }

  // -- handing out ids

  /** One card sent or passed over. */
  lemma AssignFirst(c: Card, rest: seq<Card>, next: nat, m: Sending)
    ensures var n := if Marked(c, m) && c.id == 0 then next + 1 else next;
            && NextId([c] + rest, next, m) == NextId(rest, n, m)
            && Assign([c] + rest, next, m) == [if Marked(c, m) && c.id == 0 then c.(id := next) else c] + Assign(rest, n, m)
  {
    hide Marked;
    assert ([c] + rest)[1..] == rest;
  }

  lemma {:induction false} AssignAppend(a: seq<Card>, b: seq<Card>, next: nat, m: Sending)
    ensures Assign(a + b, next, m) == Assign(a, next, m) + Assign(b, NextId(a, next, m), m)
    ensures NextId(a + b, next, m) == NextId(b, NextId(a, next, m), m)
    decreases |a|
  {
    hide Marked, Assign, NextId;
    AssignNone(next, m);
    if a == [] {
      assert a + b == b;
    } else {
      var c, rest := a[0], a[1..];
      var n, r := if Marked(c, m) && c.id == 0 then next + 1 else next, if Marked(c, m) && c.id == 0 then c.(id := next) else c;
      assert a == [c] + rest && a + b == [c] + (rest + b);
      AssignFirst(c, rest, next, m);
      AssignFirst(c, rest + b, next, m);
      AssignAppend(rest, b, n, m);
      assert [r] + (Assign(rest, n, m) + Assign(b, NextId(rest, n, m), m)) == [r] + Assign(rest, n, m) + Assign(b, NextId(rest, n, m), m);
    }
  }

  lemma AssignNone(next: nat, m: Sending)
    ensures Assign([], next, m) == [] && NextId([], next, m) == next
  {
  }

  lemma {:induction false} AssignFlat(b: Buckets, next: nat, m: Sending)
    ensures Flat(AssignBuckets(b, next, m)) == Assign(Flat(b), next, m)
    decreases |b|
  {
    if b != [] {
      AssignAppend(b[0], Flat(b[1..]), next, m);
      AssignFlat(b[1..], NextId(b[0], next, m), m);
    }
  }

  /** Cards keep what they are and their ids, unless they are sent and have none. */
  lemma {:induction false} AssignEach(cards: seq<Card>, next: nat, m: Sending, i: nat)
    requires i < |cards|
    ensures var c, r := cards[i], Assign(cards, next, m)[i];
            && r.key == c.key && r.added == c.added
            && if Marked(c, m) && c.id == 0 then next <= r.id < NextId(cards, next, m) else r.id == c.id
    decreases |cards|
  {
    var c := cards[0];
    if i > 0 {
      AssignEach(cards[1..], if Marked(c, m) && c.id == 0 then next + 1 else next, m, i - 1);
    }
  }

  /** Ids stay distinct and below the counter. */
  lemma {:induction false} AssignDistinct(cards: seq<Card>, next: nat, m: Sending)
    requires 0 < next && DistinctIds(cards) && forall c :: c in cards ==> c.id < next
    ensures DistinctIds(Assign(cards, next, m))
    ensures forall c :: c in Assign(cards, next, m) ==> c.id < NextId(cards, next, m)
    decreases |cards|
  {
    hide Assign, NextId;
    var r := Assign(cards, next, m);
    forall i, j | 0 <= i < j < |r| && r[i].id != 0
      ensures r[i].id != r[j].id
    {
      AssignEach(cards, next, m, i);
      AssignEach(cards, next, m, j);
      if Marked(cards[i], m) && cards[i].id == 0 && Marked(cards[j], m) && cards[j].id == 0 {
        AssignGrows(cards, next, m, i, j);
      }
    }
    forall c | c in r
      ensures c.id < NextId(cards, next, m)
    {
      var i :| 0 <= i < |r| && r[i] == c;
      AssignEach(cards, next, m, i);
    }
  }

  lemma {:induction false} AssignGrows(cards: seq<Card>, next: nat, m: Sending, i: nat, j: nat)
    requires i < j < |cards|
    requires Marked(cards[i], m) && cards[i].id == 0 && Marked(cards[j], m) && cards[j].id == 0
    ensures Assign(cards, next, m)[i].id < Assign(cards, next, m)[j].id
    decreases |cards|
  {
    var c := cards[0];
    var n := if Marked(c, m) && c.id == 0 then next + 1 else next;
    if i > 0 {
      AssignGrows(cards[1..], n, m, i - 1, j - 1);
    } else {
      AssignEach(cards[1..], n, m, j - 1);
    }
  }

  // -- announcing

  lemma {:induction false} AnnounceAdds(copy: Copy, cards: seq<Card>, view: Key -> View, m: Sending)
    requires DistinctIds(cards) && DistinctViews(cards, view)
    requires forall c :: c in cards && Marked(c, m) ==> c.id != 0 && !Known(copy, c.id, view(c.key))
    ensures AnnounceAll(copy, cards, view, m) == copy + Fresh(cards, view, m)
    decreases |cards|
  {
    hide Known, Fresh, DistinctIds, DistinctViews, Pair;
    if cards == [] {
      NoneFresh(view, m);
    } else {
      var c := cards[0];
      var after := if Marked(c, m) then Announced(copy, c.id, view(c.key)) else copy;
      assert cards == [c] + cards[1..];
      TailDistinct(c, cards[1..], view);
      if Marked(c, m) {
        forall e | e in cards[1..] && Marked(e, m)
          ensures !Known(after, e.id, view(e.key))
        {
          StillUnknown(copy, c, e, view);
        }
      }
      FreshCons(c, cards[1..], view, m);
      AnnounceAdds(after, cards[1..], view, m);
    }
  }

  lemma NoneFresh(view: Key -> View, m: Sending)
    ensures Fresh([], view, m) == {}
  {
  }

  lemma FreshCons(c: Card, rest: seq<Card>, view: Key -> View, m: Sending)
    ensures Fresh([c] + rest, view, m) == (if Marked(c, m) then {(c.id, view(c.key))} else {}) + Fresh(rest, view, m)
  {
  }

  lemma TailDistinct(c: Card, rest: seq<Card>, view: Key -> View)
    requires DistinctIds([c] + rest) && DistinctViews([c] + rest, view)
    ensures DistinctIds(rest) && DistinctViews(rest, view)
    ensures forall e :: e in rest ==> (c.id != 0 ==> e.id != c.id) && view(e.key) != view(c.key)
  {
    var s := [c] + rest;
    assert forall i :: 0 <= i < |rest| ==> s[i + 1] == rest[i];
    forall e | e in rest
      ensures (c.id != 0 ==> e.id != c.id) && view(e.key) != view(c.key)
    {
      var i :| 0 <= i < |rest| && rest[i] == e;
      assert s[0] == c && s[i + 1] == e;
    }
  }

  lemma StillUnknown(copy: Copy, c: Card, e: Card, view: Key -> View)
    requires !Known(copy, e.id, view(e.key)) && e.id != c.id && view(e.key) != view(c.key)
    ensures !Known(copy + {(c.id, view(c.key))}, e.id, view(e.key))
  {
  }

  /** What was handed on and what is announced now make up the whole sent list. */
  lemma OldAndNewCoverSent(cards: seq<Card>, next: nat, view: Key -> View)
    requires 0 < next && (forall c :: c in cards ==> c.id < next) && forall c :: c in cards ==> c.added == (c.id == 0)
    ensures var sent := Assign(cards, next, New);
            && Image(sent, view) == Image(cards, view) + Fresh(sent, view, New)
            && (forall c :: c in sent ==> c.id != 0)
            && (forall c :: c in sent && c.added ==> c.id >= next)
            && SameMarks(cards, sent)
  {
    hide Assign;
    var sent := Assign(cards, next, New);
    forall i | 0 <= i < |sent|
      ensures sent[i].id != 0
      ensures !sent[i].added ==> sent[i].id == cards[i].id && Pair(sent[i], view) == Pair(cards[i], view)
      ensures sent[i].key == cards[i].key && sent[i].added == cards[i].added
      ensures sent[i].added ==> sent[i].id >= next
    {
      assert cards[i] in cards;
      AssignEach(cards, next, New, i);
    }
    forall p | p in Image(sent, view)
      ensures p in Image(cards, view) + Fresh(sent, view, New)
    {
      var i :| 0 <= i < |sent| && p == Pair(sent[i], view);
      assert sent[i] in sent && cards[i] in cards;
    }
    forall p | p in Image(cards, view)
      ensures p in Image(sent, view)
    {
      var i :| 0 <= i < |cards| && cards[i].id != 0 && p == Pair(cards[i], view);
      assert sent[i] in sent;
    }
  }

  ghost predicate SameMarks(a: seq<Card>, b: seq<Card>) {
    |a| == |b| && forall i :: 0 <= i < |a| ==> a[i].key == b[i].key && a[i].added == b[i].added
  }

  /** If no two cards look the same, the client knows none of the new ones. */
  lemma NewAreUnknown(cards: seq<Card>, sent: seq<Card>, next: nat, view: Key -> View)
    requires (forall c :: c in cards ==> c.id < next) && forall c :: c in cards ==> c.added == (c.id == 0)
    requires SameMarks(cards, sent) && (forall c :: c in sent && c.added ==> c.id >= next) && DistinctViews(cards, view)
    ensures forall c :: c in sent && c.added ==> !Known(Image(cards, view), c.id, view(c.key))
  {
    forall c | c in sent && c.added
      ensures !Known(Image(cards, view), c.id, view(c.key))
    {
      var i :| 0 <= i < |sent| && sent[i] == c;
      forall p | p in Image(cards, view)
        ensures p.0 != c.id && p.1 != view(c.key)
      {
        var j :| 0 <= j < |cards| && cards[j].id != 0 && p == Pair(cards[j], view);
        assert j != i;
      }
    }
  }

  /** Announcing adds nothing but what is announced, and keeps what is there. */
  lemma {:induction false} AnnounceAddsOnly(copy: Copy, cards: seq<Card>, view: Key -> View, m: Sending)
    ensures copy <= AnnounceAll(copy, cards, view, m) <= copy + Fresh(cards, view, m)
    decreases |cards|
  {
    hide Known, Fresh, Marked;
    if cards == [] {
      NoneFresh(view, m);
    } else {
      var c := cards[0];
      assert cards == [c] + cards[1..];
      FreshCons(c, cards[1..], view, m);
      AnnounceAddsOnly(if Marked(c, m) then Announced(copy, c.id, view(c.key)) else copy, cards[1..], view, m);
    }
  }

  lemma {:induction false} AnnounceKeepsDistinct(copy: Copy, cards: seq<Card>, view: Key -> View, m: Sending)
    requires DistinctInCopy(copy)
    ensures DistinctInCopy(AnnounceAll(copy, cards, view, m))
    decreases |cards|
  {
    if cards != [] {
      var c := cards[0];
      AnnounceKeepsDistinct(if Marked(c, m) then Announced(copy, c.id, view(c.key)) else copy, cards[1..], view, m);
    }
  }

  lemma PartDistinct(whole: Copy, part: Copy)
    requires DistinctInCopy(whole) && part <= whole
    ensures DistinctInCopy(part)
  {
  }

  /** Removals from a part of a copy. */
  lemma RemovedPart(part: Copy, whole: Copy, cards: seq<Card>)
    requires part <= whole
    ensures RemoveAll(part, cards) <= RemoveAll(whole, cards) && RemoveAll(part, cards) <= part
    ensures RemoveAll(whole, cards) <= part ==> RemoveAll(part, cards) == RemoveAll(whole, cards)
  {
    RemoveAllKeepsOthers(part, cards);
    RemoveAllKeepsOthers(whole, cards);
  }

  // -- whole steps

  lemma AllImage(cards: seq<Card>, view: Key -> View)
    requires forall c :: c in cards ==> c.id != 0
    ensures Fresh(cards, view, All) == Image(cards, view)
  {
  }

  lemma MovedViews(a: seq<Card>, b: seq<Card>, view: Key -> View)
    requires SameKeys(a, b) && DistinctViews(a, view)
    ensures DistinctViews(b, view)
  {
  }

  lemma AssignKeys(cards: seq<Card>, next: nat, m: Sending)
    ensures SameKeys(cards, Assign(cards, next, m))
  {
  }

  /** What a refresh hands on: ids of known cards, and none for the new ones. */
  lemma HandedOn(s: System, news: Buckets, now: int, view: Key -> View)
    requires Sound(s, view) && Unsent(news)
    ensures var known, left := Flat(s.server.buckets), Lefts(s.server.buckets, news, now);
            var cards := Flat(Reports(s.server.buckets, news, now));
            && DistinctIds(cards) && (forall c :: c in cards ==> c.id < s.server.next) && SameKeys(Flat(news), cards)
            && (s.connected ==>
                  (forall c :: c in cards ==> c.added == (c.id == 0)) && RemoveAll(Image(known, view), left) == Image(cards, view))
  {
    hide Image, Ids, DistinctIds, SameKeys, Flat, Reports, Lefts, RemoveAll, DistinctInCopy;
    ReportsSplit(s.server.buckets, news, now, view);
    var known, left := Flat(s.server.buckets), Lefts(s.server.buckets, news, now);
    RemovalsLeaveReported(known, left, Flat(Reports(s.server.buckets, news, now)), view);
  }

  /** One refresh keeps ids distinct and the client's cards among the server's, whatever the lists look like. */
  lemma UpdateKeepsSound(s: System, news: Buckets, now: int, others: Key -> bool, view: Key -> View)
    requires Sound(s, view) && Unsent(news)
    ensures Sound(Update(s, news, now, others, view), view)
  {
    hide Image, Ids, DistinctIds, SameKeys, Assign, AssignBuckets, NextId, Flat, Reports, Lefts, RemoveAll, AnnounceAll, Fresh,
      DistinctInCopy, Marked;
    var known, next, m := Flat(s.server.buckets), s.server.next, if s.connected then New else NewFor(others);
    var reported := Reports(s.server.buckets, news, now);
    var cards, left := Flat(reported), Lefts(s.server.buckets, news, now);
    HandedOn(s, news, now, view);
    AssignFlat(reported, next, m);
    AssignDistinct(cards, next, m);
    if s.connected {
      var kept, sent := RemoveAll(s.copy, left), Assign(cards, next, New);
      RemovedPart(s.copy, Image(known, view), left);
      PartDistinct(s.copy, kept);
      OldAndNewCoverSent(cards, next, view);
      AnnounceAddsOnly(kept, sent, view, New);
      AnnounceKeepsDistinct(kept, sent, view, New);
    }
  }

  /** The client has every card that is handed on, and no two of the new list look the same: then it gets the whole list. */
  lemma UpdateReaches(s: System, news: Buckets, now: int, others: Key -> bool, view: Key -> View)
    requires Sound(s, view) && Unsent(news) && s.connected && DistinctViews(Flat(news), view)
    requires Image(Flat(Reports(s.server.buckets, news, now)), view) <= s.copy
    ensures var t := Update(s, news, now, others, view);
            t.copy == Image(Flat(t.server.buckets), view)
  {
    hide Image, Ids, DistinctIds, DistinctViews, SameKeys, Assign, AssignBuckets, NextId, Flat, Reports, Lefts, RemoveAll, AnnounceAll, Fresh,
      Known, DistinctInCopy, SameMarks;
    var known, next, reported := Flat(s.server.buckets), s.server.next, Reports(s.server.buckets, news, now);
    var cards := Flat(reported);
    HandedOn(s, news, now, view);
    MovedViews(Flat(news), cards, view);
    AssignFlat(reported, next, New);
    AssignDistinct(cards, next, New);
    AssignKeys(cards, next, New);
    MovedViews(cards, Assign(cards, next, New), view);
    RemovedPart(s.copy, Image(known, view), Lefts(s.server.buckets, news, now));
    OldAndNewCoverSent(cards, next, view);
    NewAreUnknown(cards, Assign(cards, next, New), next, view);
    AnnounceAdds(Image(cards, view), Assign(cards, next, New), view, New);
  }

  /** One refresh with a proper list: a connected client ends with exactly the new list. */
  lemma UpdateKeepsGood(s: System, news: Buckets, now: int, others: Key -> bool, view: Key -> View)
    requires Good(s, view) && Proper(news, view)
    ensures Good(Update(s, news, now, others, view), view)
  {
    hide Image, Ids, DistinctIds, DistinctViews, SameKeys, Update, Flat, Reports, Lefts, DistinctInCopy, RemoveAll;
    UpdateKeepsSound(s, news, now, others, view);
    UpdateKeepsKeys(s, news, now, others, view);
    MovedViews(Flat(news), Flat(Update(s, news, now, others, view).server.buckets), view);
    if s.connected {
      HandedOn(s, news, now, view);
      RemovedPart(s.copy, s.copy, Lefts(s.server.buckets, news, now));
      UpdateReaches(s, news, now, others, view);
    }
  }

  lemma UpdateKeepsKeys(s: System, news: Buckets, now: int, others: Key -> bool, view: Key -> View)
    requires Sound(s, view) && Unsent(news)
    ensures var t := Update(s, news, now, others, view);
            SameKeys(Flat(news), Flat(t.server.buckets)) && t.connected == s.connected
  {
    hide Image, DistinctIds, Assign, AssignBuckets, NextId, Flat, Reports, Lefts, RemoveAll, AnnounceAll, DistinctInCopy;
    var m, reported := if s.connected then New else NewFor(others), Reports(s.server.buckets, news, now);
    HandedOn(s, news, now, view);
    AssignFlat(reported, s.server.next, m);
    AssignKeys(Flat(reported), s.server.next, m);
  }

  /** Of the cards with an id that was given out before, exactly the ones handed on are in the new list. */
  lemma OldIdsAreHandedOn(s: System, news: Buckets, now: int, others: Key -> bool, view: Key -> View)
    requires Sound(s, view) && Unsent(news) && s.connected
    ensures var t := Update(s, news, now, others, view);
            forall p :: p in Image(Flat(Reports(s.server.buckets, news, now)), view) <==>
                        p in Image(Flat(t.server.buckets), view) && p.0 < s.server.next
  {
    hide Ids, DistinctIds, SameKeys, Assign, AssignBuckets, NextId, Flat, Reports, Lefts, RemoveAll, AnnounceAll, DistinctInCopy, SameMarks;
    var reported := Reports(s.server.buckets, news, now);
    HandedOn(s, news, now, view);
    AssignFlat(reported, s.server.next, New);
    OldAndNewCoverSent(Flat(reported), s.server.next, view);
  }

  /** A card with an old id that the client has after a refresh, it had before: what is thrown away is never announced again. */
  lemma OldIsKept(s: System, news: Buckets, now: int, others: Key -> bool, view: Key -> View, p: (nat, View))
    requires Sound(s, view) && Unsent(news) && s.connected && p.0 < s.server.next
    ensures p in Update(s, news, now, others, view).copy ==> p in s.copy
  {
    hide Ids, DistinctIds, SameKeys, Assign, AssignBuckets, NextId, Flat, Reports, Lefts, RemoveAll, AnnounceAll, DistinctInCopy, SameMarks;
    var next, reported := s.server.next, Reports(s.server.buckets, news, now);
    var sent := Assign(Flat(reported), next, New);
    HandedOn(s, news, now, view);
    AssignFlat(reported, next, New);
    RemovedPart(s.copy, s.copy, Lefts(s.server.buckets, news, now));
    OldAndNewCoverSent(Flat(reported), next, view);
    AnnounceAddsOnly(RemoveAll(s.copy, Lefts(s.server.buckets, news, now)), sent, view, New);
  }

  lemma {:induction false} NoneToAssign(cards: seq<Card>, next: nat, m: Sending)
    requires forall c :: c in cards ==> c.id != 0
    ensures Assign(cards, next, m) == cards && NextId(cards, next, m) == next
    decreases |cards|
  {
    if cards != [] {
      NoneToAssign(cards[1..], next, m);
    }
  }

  lemma {:induction false} NothingToAssign(b: Buckets, next: nat, m: Sending)
    requires forall c :: c in Flat(b) ==> c.id != 0
    ensures AssignBuckets(b, next, m) == b && NextId(Flat(b), next, m) == next
    decreases |b|
  {
    NoneToAssign(Flat(b), next, m);
    if b != [] {
      NoneToAssign(b[0], next, m);
      NothingToAssign(b[1..], next, m);
    }
  }

  /** Sending cards to somebody keeps ids distinct; sending all of them leaves none without an id. */
  lemma SendAllKeepsSound(s: System, m: Sending, view: Key -> View)
    requires Sound(s, view)
    ensures var v := SendAll(s.server, m);
            && Sound(System(v, s.connected, s.copy), view) && SameKeys(Flat(s.server.buckets), Flat(v.buckets))
            && (m == All ==> forall c :: c in Flat(v.buckets) ==> c.id != 0)
    ensures s.connected ==> SendAll(s.server, m) == s.server
  {
    hide Image, Ids, DistinctIds, SameKeys, Assign, AssignBuckets, NextId, Flat, AnnounceAll, Fresh, DistinctInCopy;
    var known, next := Flat(s.server.buckets), s.server.next;
    var sent := Assign(known, next, m);
    AssignFlat(s.server.buckets, next, m);
    AssignDistinct(known, next, m);
    AssignKeys(known, next, m);
    if m == All {
      forall c | c in sent
        ensures c.id != 0
      {
        var i :| 0 <= i < |sent| && sent[i] == c;
        AssignEach(known, next, All, i);
      }
    }
    if s.connected {
      NothingToAssign(s.server.buckets, next, m);
    }
  }

  lemma SendAllKeeps(s: System, m: Sending, view: Key -> View)
    requires Good(s, view)
    ensures Good(System(SendAll(s.server, m), s.connected, s.copy), view)
  {
    hide Image, DistinctViews, SendAll, Flat, Sound, SameKeys;
    SendAllKeepsSound(s, m, view);
    MovedViews(Flat(s.server.buckets), Flat(SendAll(s.server, m).buckets), view);
  }

  lemma ConnectKeepsSound(s: System, view: Key -> View)
    requires Sound(s, view)
    ensures Sound(Connect(s, view), view)
  {
    hide Image, Ids, DistinctIds, SendAll, Flat, AnnounceAll, Fresh;
    var sent := Flat(SendAll(s.server, All).buckets);
    SendAllKeepsSound(s, All, view);
    AllImage(sent, view);
    AnnounceAddsOnly({}, sent, view, All);
    AnnounceKeepsDistinct({}, sent, view, All);
  }

  /** A new client is sent exactly the list. */
  lemma ConnectKeepsGood(s: System, view: Key -> View)
    requires Good(s, view)
    ensures Good(Connect(s, view), view)
  {
    hide Image, Ids, DistinctIds, DistinctViews, SendAll, Flat, AnnounceAll, Fresh, SameKeys, DistinctInCopy;
    var sent := Flat(SendAll(s.server, All).buckets);
    ConnectKeepsSound(s, view);
    SendAllKeepsSound(s, All, view);
    MovedViews(Flat(s.server.buckets), sent, view);
    AllImage(sent, view);
    AnnounceAdds({}, sent, view, All);
  }

  lemma LeaveKeepsGood(s: System, view: Key -> View)
    requires Good(s, view)
    ensures Good(s.(connected := false), view)
  {
  }

  lemma SoundHasBuckets(s: System, view: Key -> View)
    requires Sound(s, view)
    ensures |s.server.buckets| == BUCKETS && Sound(s.(connected := false), view)
  {
  }

  ghost predicate UnsentRun(events: seq<Event>) {
    forall e :: e in events && e.Refresh? ==> Unsent(e.news)
  }

  ghost predicate ProperRun(events: seq<Event>, view: Key -> View) {
    forall e :: e in events && e.Refresh? ==> Proper(e.news, view)
  }

  /** After any run, whoever comes and goes, a connected client has only cards that the server has. */
  lemma {:induction false} RunKeepsSound(s: System, events: seq<Event>, view: Key -> View)
    requires Sound(s, view) && UnsentRun(events)
    ensures Sound(Run(s, events, view), view)
    decreases |events|
  {
    hide Sound, Update, Connect, SendAll;
    SoundHasBuckets(s, view);
    if events != [] {
      var e := events[0];
      match e {
        case Refresh(news, now, others) => UpdateKeepsSound(s, news, now, others, view);
        case Joins => ConnectKeepsSound(s, view);
        case Leaves =>
        case OtherJoins(to) => SendAllKeepsSound(s, AllFor(to), view);
      }
      RunKeepsSound(Step(s, e, view), events[1..], view);
    }
  }

  /** After any run with proper lists a connected client has exactly the server's cards. */
  lemma {:induction false} RunKeepsGood(s: System, events: seq<Event>, view: Key -> View)
    requires Good(s, view) && ProperRun(events, view)
    ensures Good(Run(s, events, view), view)
    decreases |events|
  {
    hide Sound, DistinctViews, Update, Connect, SendAll;
    SoundHasBuckets(s, view);
    if events != [] {
      var e := events[0];
      match e {
        case Refresh(news, now, others) => UpdateKeepsGood(s, news, now, others, view);
        case Joins => ConnectKeepsGood(s, view);
        case Leaves => LeaveKeepsGood(s, view);
        case OtherJoins(to) => SendAllKeeps(s, AllFor(to), view);
      }
      RunKeepsGood(Step(s, e, view), events[1..], view);
    }
  }

  lemma {:induction false} AllEmpty(b: Buckets)
    requires forall k :: 0 <= k < |b| ==> b[k] == []
    ensures Flat(b) == []
    decreases |b|
  {
    if b != [] {
      AllEmpty(b[1..]);
    }
  }

  /** Whatever the lists are, a client's cards are the server's, under the server's ids. */
  lemma ReplicaIsSound(events: seq<Event>, view: Key -> View)
    requires UnsentRun(events)
    ensures var s := Run(Start(), events, view);
            s.connected ==> s.copy <= Image(Flat(s.server.buckets), view) && DistinctInCopy(s.copy) && DistinctIds(Flat(s.server.buckets))
  {
    AllEmpty(Start().server.buckets);
    RunKeepsSound(Start(), events, view);
  }

  lemma ReplicaIsExact(events: seq<Event>, view: Key -> View)
    requires ProperRun(events, view)
    ensures var s := Run(Start(), events, view);
            s.connected ==> s.copy == Image(Flat(s.server.buckets), view) && DistinctIds(Flat(s.server.buckets))
  {
    AllEmpty(Start().server.buckets);
    RunKeepsGood(Start(), events, view);
  }

  // -- which cards keep their ids

  ghost predicate KeysApart(cards: seq<Card>) {
    forall i, j :: 0 <= i < j < |cards| ==> cards[i].key != cards[j].key
  }

  lemma WithoutApart(cards: seq<Card>, f: nat)
    requires f < |cards| && KeysApart(cards)
    ensures KeysApart(Without(cards, f))
    ensures forall c :: c in Without(cards, f) <==> c in cards && c.key != cards[f].key
  {
    var r := Without(cards, f);
    assert forall i :: 0 <= i < |r| ==> r[i] == cards[if i < f then i else i + 1];
    forall c | c in cards && c.key != cards[f].key ensures c in r {
      var i :| 0 <= i < |cards| && cards[i] == c;
      assert r[if i < f then i else i - 1] == c;
    }
  }

  lemma TailApart(cards: seq<Card>)
    requires cards != [] && KeysApart(cards)
    ensures KeysApart(cards[1..]) && forall c :: c in cards[1..] ==> c.key != cards[0].key
  {
  }

  /** An old card that has not timed out hands its id and its timeout on to the new card with its key. */
  lemma {:induction false} CardHandsOn(known: seq<Card>, news: seq<Card>, now: int, o: Card, i: nat)
    requires KeysApart(known) && KeysApart(news) && o in known && i < |news|
    requires news[i].key == o.key && !(o.key.isLocal && o.timeout < now)
    ensures Report(known, news, now).cards[i] == news[i].(id := o.id, timeout := o.timeout, added := false)
    decreases |news|
  {
    hide Report, KeysApart, Matched;
    ReportFirst(known, news, now);
    TailApart(news);
    if i == 0 {
      MatchedOwn(known, news[0], now, o);
    } else {
      assert news[i] in news[1..];
      MatchedRest(known, news[0], now, o);
      CardHandsOn(Matched(known, news[0], now).1, news[1..], now, o, i - 1);
    }
  }

  lemma MatchedOwn(known: seq<Card>, c: Card, now: int, o: Card)
    requires KeysApart(known) && o in known && c.key == o.key && !(o.key.isLocal && o.timeout < now)
    ensures Matched(known, c, now).0 == c.(id := o.id, timeout := o.timeout, added := false)
  {
    var j :| 0 <= j < |known| && known[j] == o;
    assert FindFrom(known, c, now, 0) <= j;
  }

  lemma MatchedRest(known: seq<Card>, c: Card, now: int, o: Card)
    requires KeysApart(known) && o in known && c.key != o.key
    ensures KeysApart(Matched(known, c, now).1) && o in Matched(known, c, now).1
  {
    hide KeysApart, Without;
    var f := FindFrom(known, c, now, 0);
    if f < |known| {
      WithoutApart(known, f);
    }
  }

  /** A card without such an old one is new, and has no id yet. */
  lemma {:induction false} CardIsNew(known: seq<Card>, news: seq<Card>, now: int, i: nat)
    requires i < |news|
    requires forall o :: o in known && o.key == news[i].key ==> o.key.isLocal && o.timeout < now
    ensures Report(known, news, now).cards[i] == news[i].(added := true)
    decreases |news|
  {
    var f := FindFrom(known, news[0], now, 0);
    if i > 0 {
      CardIsNew(if f < |known| then Without(known, f) else known, news[1..], now, i - 1);
    }
  }

  /** What is left over: old cards that have timed out, or that are not in the new list. */
  lemma {:induction false} LeftOverIff(known: seq<Card>, news: seq<Card>, now: int, o: Card)
    requires KeysApart(known) && KeysApart(news)
    ensures o in Report(known, news, now).left <==>
            o in known && ((o.key.isLocal && o.timeout < now) || forall c :: c in news ==> c.key != o.key)
    decreases |news|
  {
    if news != [] {
      var f := FindFrom(known, news[0], now, 0);
      TailApart(news);
      assert news == [news[0]] + news[1..];
      if f < |known| {
        WithoutApart(known, f);
        LeftOverIff(Without(known, f), news[1..], now, o);
        assert known[f] in known;
      } else {
        LeftOverIff(known, news[1..], now, o);
        if o in known {
          var j :| 0 <= j < |known| && known[j] == o;
          assert !Reusable(news[0], known[j], now);
        }
      }
    }
  }

  // -- the same for a whole refresh

  lemma {:induction false} AssignedAt(b: Buckets, next: nat, m: Sending, k: nat, i: nat)
    requires k < |b| && i < |b[k]| && !Marked(b[k][i], m)
    ensures |AssignBuckets(b, next, m)[k]| == |b[k]| && AssignBuckets(b, next, m)[k][i] == b[k][i]
    decreases |b|
  {
    hide Marked;
    if k > 0 {
      AssignedAt(b[1..], NextId(b[0], next, m), m, k - 1, i);
    } else {
      UnmarkedStays(b[0], next, m, i);
    }
  }

  lemma {:induction false} UnmarkedStays(cards: seq<Card>, next: nat, m: Sending, i: nat)
    requires i < |cards| && !Marked(cards[i], m)
    ensures Assign(cards, next, m)[i] == cards[i]
    decreases |cards|
  {
    hide Marked;
    if i > 0 {
      UnmarkedStays(cards[1..], if Marked(cards[0], m) && cards[0].id == 0 then next + 1 else next, m, i - 1);
    }
  }

  /** A refresh: a card that stays, and was not timed out, keeps its id and its timeout. */
  lemma UpdateHandsOn(s: System, news: Buckets, now: int, others: Key -> bool, view: Key -> View, k: nat, o: Card, i: nat)
    requires |s.server.buckets| == |news| && k < |news| && i < |news[k]|
    requires KeysApart(s.server.buckets[k]) && KeysApart(news[k])
    requires o in s.server.buckets[k] && news[k][i].key == o.key && !(o.key.isLocal && o.timeout < now)
    ensures var list := Update(s, news, now, others, view).server.buckets;
            |list| == |news| && |list[k]| == |news[k]|
            && list[k][i] == news[k][i].(id := o.id, timeout := o.timeout, added := false)
  {
    hide Report, Reports, AssignBuckets;
    ReportsAt(s.server.buckets, news, now, k);
    CardHandsOn(s.server.buckets[k], news[k], now, o, i);
    AssignedAt(Reports(s.server.buckets, news, now), s.server.next, if s.connected then New else NewFor(others), k, i);
  }

  /** The id of a local card that has timed out is taken out of use. */
  lemma TimedOutIsRetired(s: System, news: Buckets, now: int, others: Key -> bool, view: Key -> View, o: Card)
    requires Sound(s, view) && Unsent(news)
    requires o in Flat(s.server.buckets) && o.id != 0 && o.key.isLocal && o.timeout < now
    ensures forall c :: c in Flat(Update(s, news, now, others, view).server.buckets) ==> c.id != o.id
  {
    hide Image, Ids, SameKeys, Flat, Reports, Lefts, RemoveAll, AnnounceAll, Assign, AssignBuckets, NextId, Marked;
    var known, reported := Flat(s.server.buckets), Reports(s.server.buckets, news, now);
    var m := if s.connected then New else NewFor(others);
    ReportsSplit(s.server.buckets, news, now, view);
    AssignFlat(reported, s.server.next, m);
    var cards := Flat(reported);
    var sent := Assign(cards, s.server.next, m);
    forall c | c in sent ensures c.id != o.id {
      var i :| 0 <= i < |sent| && sent[i] == c;
      AssignEach(cards, s.server.next, m, i);
      if cards[i].id == o.id && !cards[i].added {
        var p :| p in known && p.id == cards[i].id && !(p.key.isLocal && p.timeout < now);
        SameId(known, o, p);
      }
    }
  }

  lemma SameId(cards: seq<Card>, a: Card, b: Card)
    requires DistinctIds(cards) && a in cards && b in cards && a.id == b.id != 0
    ensures a == b
  {
  }

  lemma {:induction false} NoneMarked(copy: Copy, cards: seq<Card>, next: nat, view: Key -> View, m: Sending)
    requires forall c :: c in cards ==> !Marked(c, m)
    ensures NextId(cards, next, m) == next && AnnounceAll(copy, cards, view, m) == copy
    decreases |cards|
  {
    if cards != [] {
      NoneMarked(copy, cards[1..], next, view, m);
    }
  }

  lemma {:induction false} NothingLeft(known: Buckets, news: Buckets, now: int)
    requires |known| == |news| && forall k :: 0 <= k < |known| ==> Report(known[k], news[k], now).left == []
    ensures Lefts(known, news, now) == []
    decreases |known|
  {
    hide Report;
    if known != [] {
      NothingLeft(known[1..], news[1..], now);
    }
  }

  lemma {:induction false} InFlat(b: Buckets, c: Card)
    ensures c in Flat(b) <==> exists k :: 0 <= k < |b| && c in b[k]
    decreases |b|
  {
    if b != [] {
      InFlat(b[1..], c);
      if c in Flat(b[1..]) {
        var k :| 0 <= k < |b[1..]| && c in b[1..][k];
        assert c in b[k + 1];
      }
      if k :| 0 <= k < |b| && c in b[k] {
        assert k > 0 ==> b[k] == b[1..][k - 1];
      }
    }
  }

  /** The new list of a bucket has the cards of the old one, and none of these has timed out. */
  ghost predicate Unchanged(known: seq<Card>, news: seq<Card>, now: int) {
    && KeysApart(known) && KeysApart(news)
    && (forall o :: o in known ==> exists c :: c in news && c.key == o.key)
    && (forall c :: c in news ==> exists o :: o in known && o.key == c.key)
    && (forall o :: o in known ==> !(o.key.isLocal && o.timeout < now))
  }

  lemma SomeElement(cards: seq<Card>)
    ensures cards == [] || exists c :: c in cards
  {
    if cards != [] {
      assert cards[0] in cards;
    }
  }

  lemma UnchangedReport(known: seq<Card>, news: seq<Card>, now: int)
    requires Unchanged(known, news, now)
    ensures Report(known, news, now).left == []
    ensures forall c :: c in Report(known, news, now).cards ==> !c.added
  {
    hide Report;
    var d := Report(known, news, now);
    forall o ensures o !in d.left {
      LeftOverIff(known, news, now, o);
    }
    SomeElement(d.left);
    forall c | c in d.cards ensures !c.added {
      var i :| 0 <= i < |d.cards| && d.cards[i] == c;
      assert news[i] in news;
      var o :| o in known && o.key == news[i].key;
      CardHandsOn(known, news, now, o, i);
    }
  }

  /** A refresh with the same cards calls nothing back, announces nothing and uses up no id. */
  lemma UnchangedListStays(s: System, news: Buckets, now: int, others: Key -> bool, view: Key -> View)
    requires |s.server.buckets| == |news|
    requires forall k :: 0 <= k < |news| ==> Unchanged(s.server.buckets[k], news[k], now)
    ensures Lefts(s.server.buckets, news, now) == []
    ensures var t := Update(s, news, now, others, view);
            && t.server.next == s.server.next && t.copy == s.copy
            && |t.server.buckets| == |news|
            && forall k, i, o :: 0 <= k < |news| && 0 <= i < |news[k]| && o in s.server.buckets[k] && o.key == news[k][i].key ==>
                 |t.server.buckets[k]| == |news[k]| && t.server.buckets[k][i].id == o.id && t.server.buckets[k][i].timeout == o.timeout
  {
    hide Report, Reports, Lefts, AssignBuckets, NextId, AnnounceAll, Unchanged, KeysApart, Update;
    var known, reported := s.server.buckets, Reports(s.server.buckets, news, now);
    forall k | 0 <= k < |news|
      ensures Report(known[k], news[k], now).left == [] && reported[k] == Report(known[k], news[k], now).cards
      ensures forall c: Card :: c in reported[k] ==> !c.added
    {
      ReportsAt(known, news, now, k);
      UnchangedReport(known[k], news[k], now);
    }
    NothingLeft(known, news, now);
    NothingAnnounced(s, news, now, others, view);
    forall k, i, o: Card | 0 <= k < |news| && 0 <= i < |news[k]| && o in known[k] && o.key == news[k][i].key
      ensures var t := Update(s, news, now, others, view);
              |t.server.buckets| == |news| && |t.server.buckets[k]| == |news[k]|
              && t.server.buckets[k][i].id == o.id && t.server.buckets[k][i].timeout == o.timeout
    {
      UnchangedIs(known[k], news[k], now, o);
      UpdateHandsOn(s, news, now, others, view, k, o, i);
    }
  }

  lemma UnchangedIs(known: seq<Card>, news: seq<Card>, now: int, o: Card)
    requires Unchanged(known, news, now) && o in known
    ensures KeysApart(known) && KeysApart(news) && !(o.key.isLocal && o.timeout < now)
  {
  }

  lemma NothingAnnounced(s: System, news: Buckets, now: int, others: Key -> bool, view: Key -> View)
    requires |s.server.buckets| == |news| && Lefts(s.server.buckets, news, now) == []
    requires forall k, c :: 0 <= k < |news| && c in Reports(s.server.buckets, news, now)[k] ==> !c.added
    ensures var t := Update(s, news, now, others, view);
            t.server.next == s.server.next && t.copy == s.copy && |t.server.buckets| == |news|
  {
    hide Report, Reports, Lefts, AssignBuckets, NextId, AnnounceAll;
    var reported, m := Reports(s.server.buckets, news, now), if s.connected then New else NewFor(others);
    var cards := Flat(reported);
    forall c | c in cards ensures !Marked(c, m) {
      InFlat(reported, c);
    }
    NoneMarked(s.copy, cards, s.server.next, view, m);
    AllUnmarked(cards, s.server.next, m);
    AssignFlat(reported, s.server.next, m);
  }

  lemma AllUnmarked(cards: seq<Card>, next: nat, m: Sending)
    requires forall c :: c in cards ==> !Marked(c, m)
    ensures Assign(cards, next, m) == cards
  {
    hide Marked;
    forall i: nat | i < |cards| ensures Assign(cards, next, m)[i] == cards[i] {
      UnmarkedStays(cards, next, m, i);
    }
  }

  // -- when cards look the same

  lemma ExactMeansDistinct(cards: seq<Card>, view: Key -> View)
    requires DistinctIds(cards) && (forall c :: c in cards ==> c.id != 0)
    ensures DistinctInCopy(Image(cards, view)) <==> DistinctViews(cards, view)
  {
    if DistinctInCopy(Image(cards, view)) {
      forall i, j | 0 <= i < j < |cards|
        ensures view(cards[i].key) != view(cards[j].key)
      {
        assert cards[i] in cards && cards[j] in cards;
        assert Pair(cards[i], view) in Image(cards, view) && Pair(cards[j], view) in Image(cards, view);
      }
    }
  }

  lemma SameViews(a: seq<Card>, b: seq<Card>, view: Key -> View)
    requires SameKeys(a, b)
    ensures DistinctViews(a, view) <==> DistinctViews(b, view)
  {
  }

  /**
   A refresh reaches a connected client completely if and only if no two cards of
   the new list look the same to it, and it has every card that is handed on from
   the old list; what it has thrown away before does not come again.
   */
  lemma UpdateExactIff(s: System, news: Buckets, now: int, others: Key -> bool, view: Key -> View)
    requires Sound(s, view) && s.connected && Unsent(news)
    ensures var t := Update(s, news, now, others, view);
            t.copy == Image(Flat(t.server.buckets), view) <==>
            DistinctViews(Flat(news), view) && Image(Flat(Reports(s.server.buckets, news, now)), view) <= s.copy
  {
    hide Image, Ids, DistinctIds, DistinctViews, SameKeys, Update, Flat, DistinctInCopy, Reports;
    var t := Update(s, news, now, others, view);
    UpdateKeepsSound(s, news, now, others, view);
    UpdateKeepsKeys(s, news, now, others, view);
    SameViews(Flat(news), Flat(t.server.buckets), view);
    ExactMeansDistinct(Flat(t.server.buckets), view);
    OldIdsAreHandedOn(s, news, now, others, view);
    if t.copy == Image(Flat(t.server.buckets), view) {
      forall p | p in Image(Flat(Reports(s.server.buckets, news, now)), view)
        ensures p in s.copy
      {
        OldIsKept(s, news, now, others, view, p);
      }
    } else if DistinctViews(Flat(news), view) && Image(Flat(Reports(s.server.buckets, news, now)), view) <= s.copy {
      UpdateReaches(s, news, now, others, view);
    }
  }

  // -- searching one bucket only

  ghost predicate Placed(b: Buckets) {
    |b| == BUCKETS && forall k, c :: 0 <= k < |b| && c in b[k] ==> Bucket(c.key.caid) == k
  }

  lemma {:induction false} FindInAppend(a: seq<Card>, b: seq<Card>, c: Card, now: int, i: nat)
    requires i <= |a|
    ensures FindFrom(a + b, c, now, i) == if FindFrom(a, c, now, i) < |a| then FindFrom(a, c, now, i) else |a| + FindFrom(b, c, now, 0)
    decreases |a| - i
  {
    if i < |a| {
      FindInAppend(a, b, c, now, i + 1);
    } else {
      FindShifted(a, b, c, now, 0);
    }
  }

  lemma {:induction false} FindShifted(a: seq<Card>, b: seq<Card>, c: Card, now: int, i: nat)
    requires i <= |b|
    ensures FindFrom(a + b, c, now, |a| + i) == |a| + FindFrom(b, c, now, i)
    decreases |b| - i
  {
    if i < |b| {
      FindShifted(a, b, c, now, i + 1);
    }
  }

  /** The card found among all, if any. */
  function Found(known: seq<Card>, c: Card, now: int): Option<Card> {
    var i := FindFrom(known, c, now, 0);
    if i < |known| then Some(known[i]) else None
  }

  lemma {:induction false} FoundInBucket(b: Buckets, c: Card, now: int, k: nat)
    requires k < |b|
    requires forall j, e :: 0 <= j < |b| && j != k && e in b[j] ==> e.key.caid != c.key.caid
    ensures Found(Flat(b), c, now) == Found(b[k], c, now)
    decreases |b|
  {
    FindInAppend(b[0], Flat(b[1..]), c, now, 0);
    if k == 0 {
      FoundNowhere(b[1..], c, now);
    } else {
      assert Found(b[0], c, now) == None;
      FoundInBucket(b[1..], c, now, k - 1);
    }
  }

  lemma {:induction false} FoundNowhere(b: Buckets, c: Card, now: int)
    requires forall j, e :: 0 <= j < |b| && e in b[j] ==> e.key.caid != c.key.caid
    ensures Found(Flat(b), c, now) == None
    decreases |b|
  {
    if b != [] {
      FindInAppend(b[0], Flat(b[1..]), c, now, 0);
      FoundNowhere(b[1..], c, now);
    }
  }

  /** Looking only at the cards with the same CAID key finds what looking at all of them would. */
  lemma BucketSearchAgrees(b: Buckets, c: Card, now: int)
    requires Placed(b)
    ensures Found(b[Bucket(c.key.caid)], c, now) == Found(Flat(b), c, now)
  {
    FoundInBucket(b, c, now, Bucket(c.key.caid));
  }

  /** Ids and marks change, but no card changes its bucket. */
  lemma UpdateKeepsPlaced(s: System, news: Buckets, now: int, others: Key -> bool, view: Key -> View)
    requires |s.server.buckets| == |news| && Placed(news)
    ensures Placed(Update(s, news, now, others, view).server.buckets)
  {
    hide Reports, AssignBuckets, Bucket;
    var reported := Reports(s.server.buckets, news, now);
    var m := if s.connected then New else NewFor(others);
    var sent := AssignBuckets(reported, s.server.next, m);
    forall k | 0 <= k < BUCKETS
      ensures SameKeys(news[k], reported[k]) && SameKeys(news[k], sent[k])
    {
      ReportsAt(s.server.buckets, news, now, k);
      AssignBucketsAt(reported, s.server.next, m, k);
    }
    SameKeysPlaced(news, reported);
    SameKeysPlaced(news, sent);
  }

  lemma SameKeysPlaced(a: Buckets, b: Buckets)
    requires Placed(a) && |b| == BUCKETS && forall k :: 0 <= k < BUCKETS ==> SameKeys(a[k], b[k])
    ensures Placed(b)
  {
  }

  lemma {:induction false} ReportKeys(known: seq<Card>, news: seq<Card>, now: int)
    ensures SameKeys(news, Report(known, news, now).cards)
    decreases |news|
  {
    if news != [] {
      var i := FindFrom(known, news[0], now, 0);
      ReportKeys(if i < |known| then Without(known, i) else known, news[1..], now);
    }
  }

  lemma {:induction false} ReportsAt(known: Buckets, news: Buckets, now: int, k: nat)
    requires |known| == |news| && k < |known|
    ensures Reports(known, news, now)[k] == Report(known[k], news[k], now).cards
    ensures SameKeys(news[k], Reports(known, news, now)[k])
    decreases |known|
  {
    hide Report, SameKeys;
    if k > 0 {
      ReportsAt(known[1..], news[1..], now, k - 1);
    } else {
      ReportKeys(known[0], news[0], now);
    }
  }

  lemma {:induction false} AssignBucketsAt(b: Buckets, next: nat, m: Sending, k: nat)
    requires k < |b|
    ensures SameKeys(b[k], AssignBuckets(b, next, m)[k])
    decreases |b|
  {
    hide Assign, SameKeys;
    if k > 0 {
      AssignBucketsAt(b[1..], NextId(b[0], next, m), m, k - 1);
    } else {
      AssignKeys(b[0], next, m);
    }
  }

  // -- ids, buckets and announcements in plain terms

  /** The bucket of a CAID is the low five bits of its high byte. */
  lemma BucketOfCaid(high: nat, low: nat)
    requires high < 256 && low < 256
    ensures Bucket(256 * high + low) == high % 32
  {
  }

  /** A client that is told of a card has it then, unless it had one of the same id or of the same looks. */
  lemma AnnouncedIff(copy: Copy, id: nat, view: View, p: (nat, View))
    ensures p in Announced(copy, id, view)
            <==> p in copy || (p == (id, view) && forall q :: q in copy ==> q.0 != id && q.1 != view)
  {
  }

  /** Cards that are all new get ids in their order, one after the other. */
  lemma {:induction false} IdsInOrder(cards: seq<Card>, next: nat, i: nat)
    requires next > 0 && i < |cards| && forall c :: c in cards ==> c.id == 0
    ensures Assign(cards, next, All)[i] == cards[i].(id := next + i)
    ensures NextId(cards, next, All) == next + |cards|
    decreases |cards|
  {
    if i > 0 {
      IdsInOrder(cards[1..], next + 1, i - 1);
    } else if |cards| > 1 {
      IdsInOrder(cards[1..], next + 1, 0);
    }
  }

  /** A card that has an id keeps it, however the list is sent. */
  lemma {:induction false} IdsStay(cards: seq<Card>, next: nat, m: Sending)
    requires forall c :: c in cards ==> c.id != 0
    ensures Assign(cards, next, m) == cards && NextId(cards, next, m) == next
    decreases |cards|
  {
    if cards != [] {
      IdsStay(cards[1..], next, m);
    }
  }
}
