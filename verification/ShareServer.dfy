/**
 The list handling of the share server and of a CCcam client as they run: lists
 that are walked and edited in place (oscam/oscam_8249/module-cccshare.c,
 module-cccam.c). Every method is proved to compute what `ShareList` says.
 The cards a list node points to are held in the lists by value; a new card is
 told from an inherited one by its mark instead of by a second list.
 */
module ShareServer {
  import opened Sequences
  import opened ShareList

  /** The cards a client has from this server. */
  class Client {
    var cards: seq<(nat, View)>

    constructor ()
      ensures Copy() == {}
    {
      cards := [];
    }

    ghost function Copy(): ShareList.Copy
      reads this
    {
      set p | p in cards
    }

    /** `cc_card_removed`: every card with this id goes. */
    method CardRemoved(id: nat)
      modifies this
      ensures Copy() == Removed(old(Copy()), id)
    {
      var i := 0;
      while i < |cards|
        invariant 0 <= i <= |cards|
        invariant forall j :: 0 <= j < i ==> cards[j].0 != id
        invariant Removed(Copy(), id) == Removed(old(Copy()), id)
        decreases |cards| - i
      {
        if cards[i].0 == id {
          assert cards == cards[..i] + [cards[i]] + cards[i + 1..];
          cards := cards[..i] + cards[i + 1..];
        } else {
          i := i + 1;
        }
      }
    }

    /** NEW_CARD: dropped when a card with this id or with these looks is there. */
    method NewCard(id: nat, view: View)
      modifies this
      ensures Copy() == Announced(old(Copy()), id, view)
    {
      var i := 0;
      while i < |cards|
        invariant 0 <= i <= |cards|
        invariant forall j :: 0 <= j < i ==> cards[j].0 != id && cards[j].1 != view
      {
        if cards[i].0 == id || cards[i].1 == view {
          assert cards[i] in Copy();
          return;
        }
        i := i + 1;
      }
      cards := cards + [(id, view)];
    }
  }

  // -- the functions of ShareList, from the other end of a list

  lemma {:induction false} RemoveAllAppend(copy: ShareList.Copy, a: seq<Card>, b: seq<Card>)
    ensures RemoveAll(copy, a + b) == RemoveAll(RemoveAll(copy, a), b)
    decreases |a|
  {
    if a == [] {
      assert a + b == b;
    } else {
      assert (a + b)[1..] == a[1..] + b;
      RemoveAllAppend(if a[0].id == 0 then copy else Removed(copy, a[0].id), a[1..], b);
    }
  }

  lemma {:induction false} AnnounceAllAppend(copy: ShareList.Copy, a: seq<Card>, b: seq<Card>, view: Key -> View, m: Sending)
    ensures AnnounceAll(copy, a + b, view, m) == AnnounceAll(AnnounceAll(copy, a, view, m), b, view, m)
    decreases |a|
  {
    hide Announced;
    if a == [] {
      assert a + b == b;
    } else {
      assert (a + b)[1..] == a[1..] + b;
      var c := a[0];
      AnnounceAllAppend(if Marked(c, m) then Announced(copy, c.id, view(c.key)) else copy, a[1..], b, view, m);
    }
  }

  function Stamped(c: Card, next: nat): Card {
    if c.id == 0 then c.(id := next) else c
  }

  function After(c: Card, next: nat): nat {
    if c.id == 0 then next + 1 else next
  }

  lemma SendStep(copy: ShareList.Copy, cards: seq<Card>, next: nat, view: Key -> View, m: Sending)
    requires cards != []
    ensures var c := cards[0];
            var c' := if Marked(c, m) then Stamped(c, next) else c;
            var n' := if Marked(c, m) then After(c, next) else next;
            var copy' := if Marked(c, m) then Announced(copy, c'.id, view(c'.key)) else copy;
            && Assign(cards, next, m) == [c'] + Assign(cards[1..], n', m)
            && NextId(cards, next, m) == NextId(cards[1..], n', m)
            && AnnounceAll(copy, Assign(cards, next, m), view, m) == AnnounceAll(copy', Assign(cards[1..], n', m), view, m)
  {
  }

  lemma Ends(copy: ShareList.Copy, next: nat, view: Key -> View, m: Sending)
    ensures Assign([], next, m) == [] && NextId([], next, m) == next && AnnounceAll(copy, [], view, m) == copy
  {
  }

  lemma SendBucketsStep(copy: ShareList.Copy, b: Buckets, next: nat, view: Key -> View, m: Sending)
    requires b != []
    ensures var first, n' := Assign(b[0], next, m), NextId(b[0], next, m);
            var rest := AssignBuckets(b[1..], n', m);
            && AssignBuckets(b, next, m) == [first] + rest
            && NextId(Flat(b), next, m) == NextId(Flat(b[1..]), n', m)
            && AnnounceAll(copy, Flat(AssignBuckets(b, next, m)), view, m) == AnnounceAll(AnnounceAll(copy, first, view, m), Flat(rest), view, m)
  {
    hide Assign, AnnounceAll, NextId;
    var first, rest := Assign(b[0], next, m), AssignBuckets(b[1..], NextId(b[0], next, m), m);
    AssignAppend(b[0], Flat(b[1..]), next, m);
    assert ([first] + rest)[1..] == rest;
    AnnounceAllAppend(copy, first, Flat(rest), view, m);
  }

  lemma BucketsEnd(copy: ShareList.Copy, next: nat, view: Key -> View, m: Sending)
    ensures AssignBuckets([], next, m) == [] && NextId(Flat([]), next, m) == next
    ensures AnnounceAll(copy, Flat([]), view, m) == copy
  {
  }

  lemma ReportStep(copy: ShareList.Copy, known: Buckets, news: Buckets, now: int)
    requires |known| == |news| && known != []
    ensures var d := Report(known[0], news[0], now);
            && Reports(known, news, now) == [d.cards] + Reports(known[1..], news[1..], now)
            && RemoveAll(copy, Lefts(known, news, now)) == RemoveAll(RemoveAll(copy, d.left), Lefts(known[1..], news[1..], now))
  {
    hide Report, RemoveAll;
    RemoveAllAppend(copy, Report(known[0], news[0], now).left, Lefts(known[1..], news[1..], now));
  }

  lemma ReportEnd(copy: ShareList.Copy, now: int)
    ensures Reports([], [], now) == [] && RemoveAll(copy, Lefts([], [], now)) == copy
  {
  }

  ghost function CopyOf(client: Client?): ShareList.Copy
    reads client
  {
    if client == null then {} else client.Copy()
  }

  lemma ReportOne(known: seq<Card>, news: seq<Card>, now: int, done: seq<Card>)
    requires news != []
    ensures var r := Matched(known, news[0], now);
            var d, d' := Report(known, news, now), Report(r.1, news[1..], now);
            d.left == d'.left && done + d.cards == done + [r.0] + d'.cards
  {
    hide Matched, Report;
    ReportFirst(known, news, now);
    var r := Matched(known, news[0], now);
    assert done + ([r.0] + Report(r.1, news[1..], now).cards) == done + [r.0] + Report(r.1, news[1..], now).cards;
  }

  lemma ReportNone(known: seq<Card>, now: int)
    ensures Report(known, [], now) == Diff(known, [])
  {
  }

  class CardServer {
    var reported: Buckets
    var next: nat

    constructor ()
      ensures reported == Start().server.buckets && next == 1
    {
      reported := seq(BUCKETS, _ => []);
      next := 1;
    }

    /** `find_reported_card`: looks in the bucket of the CAID, and takes the old card out of it. */
    method FindReportedCard(c: Card, now: int) returns (found: bool, r: Card)
      requires |reported| == BUCKETS
      modifies this`reported
      ensures var k := Bucket(c.key.caid);
              var i := FindFrom(old(reported[k]), c, now, 0);
              && found == (i < |old(reported[k])|)
              && reported == old(reported)[k := if found then Without(old(reported[k]), i) else old(reported[k])]
              && r == if found then c.(id := old(reported[k])[i].id, timeout := old(reported[k])[i].timeout) else c
    {
      var k := Bucket(c.key.caid);
      var i := 0;
      while i < |reported[k]|
        invariant 0 <= i <= |reported[k]|
        invariant FindFrom(reported[k], c, now, 0) == FindFrom(reported[k], c, now, i)
      {
        if Reusable(c, reported[k][i], now) {
          r := c.(id := reported[k][i].id, timeout := reported[k][i].timeout);
          reported := reported[k := Without(reported[k], i)];
          return true, r;
        }
        i := i + 1;
      }
      return false, c;
    }

    /** `report_card` for each card of one bucket of the new list. */
    method ReportBucket(news: seq<Card>, k: nat, now: int) returns (cards: seq<Card>)
      requires |reported| == BUCKETS && k < BUCKETS && forall c :: c in news ==> Bucket(c.key.caid) == k
      modifies this`reported
      ensures |reported| == BUCKETS
      ensures Report(old(reported[k]), news, now) == Diff(reported[k], cards)
      ensures reported == old(reported)[k := reported[k]]
    {
      hide Bucket, Report, FindFrom;
      cards := [];
      for j := 0 to |news|
        invariant |reported| == BUCKETS && reported == old(reported)[k := reported[k]]
        invariant var d := Report(reported[k], news[j..], now);
                  Report(old(reported[k]), news, now) == Diff(d.left, cards + d.cards)
      {
        ReportOne(reported[k], news[j..], now, cards);
        assert news[j..][0] == news[j] && news[j..][1..] == news[j + 1..];
        var found, c := FindReportedCard(news[j], now);
        cards := cards + [c.(added := !found)];
      }
      ReportNone(reported[k], now);
      assert news[|news|..] == [] && cards + [] == cards;
    }

    method SendRemoved(cards: seq<Card>, client: Client?)
      modifies client
      ensures client != null ==> client.Copy() == RemoveAll(old(client.Copy()), cards)
    {
      for j := 0 to |cards|
        invariant client != null ==> RemoveAll(client.Copy(), cards[j..]) == RemoveAll(old(client.Copy()), cards)
      {
        assert cards[j..][1..] == cards[j + 1..];
        if client != null && cards[j].id != 0 {
          client.CardRemoved(cards[j].id);
        }
      }
    }

    /** `send_card_to_clients`: a card without an id gets the next one. */
    method SendCard(c: Card, client: Client?, view: Key -> View) returns (r: Card)
      modifies this`next, client
      ensures r == Stamped(c, old(next)) && next == After(c, old(next))
      ensures client != null ==> client.Copy() == Announced(old(client.Copy()), r.id, view(r.key))
    {
      r := c;
      if r.id == 0 {
        r := r.(id := next);
        next := next + 1;
      }
      if client != null {
        client.NewCard(r.id, view(r.key));
      }
    }

    /** The marked cards of one bucket are sent. */
    method SendBucket(k: nat, client: Client?, view: Key -> View, m: Sending)
      requires |reported| == BUCKETS && k < BUCKETS
      modifies this, client
      ensures reported == old(reported)[k := Assign(old(reported[k]), old(next), m)]
      ensures next == NextId(old(reported[k]), old(next), m)
      ensures client != null ==> client.Copy() == AnnounceAll(old(client.Copy()), reported[k], view, m)
    {
      hide Announced, Assign, AnnounceAll, NextId, Stamped, After;
      ghost var cards := reported[k];
      ghost var sent := Assign(cards, next, m);
      for j := 0 to |reported[k]|
        invariant |reported| == BUCKETS && |reported[k]| == |cards| && reported == old(reported)[k := reported[k]]
        invariant reported[k][j..] == cards[j..]
        invariant reported[k][..j] + Assign(cards[j..], next, m) == sent
        invariant NextId(cards[j..], next, m) == NextId(cards, old(next), m)
        invariant client != null ==> AnnounceAll(client.Copy(), Assign(cards[j..], next, m), view, m) == AnnounceAll(old(client.Copy()), sent, view, m)
      {
        ghost var copy := if client == null then {} else client.Copy();
        var c := reported[k][j];
        assert c == cards[j..][0] && cards[j..][1..] == cards[j + 1..];
        SendStep(copy, cards[j..], next, view, m);
        if Marked(c, m) {
          c := SendCard(c, client, view);
        }
        ghost var before := reported[k];
        reported := reported[k := reported[k][j := c]];
        assert reported[k][..j + 1] == before[..j] + [c];
      }
      assert cards[|cards|..] == [];
      Ends(if client == null then {} else client.Copy(), next, view, m);
      assert reported[k] == reported[k][..|cards|] + [] == sent;
    }

    /** The marked cards of all buckets are sent. */
    method SendBuckets(client: Client?, view: Key -> View, m: Sending)
      requires |reported| == BUCKETS
      modifies this, client
      ensures reported == AssignBuckets(old(reported), old(next), m)
      ensures next == NextId(Flat(old(reported)), old(next), m)
      ensures client != null ==> client.Copy() == AnnounceAll(old(client.Copy()), Flat(reported), view, m)
    {
      hide Announced, Assign, AnnounceAll, NextId, AssignBuckets, Flat;
      ghost var before := reported;
      ghost var sent := AssignBuckets(reported, next, m);
      for k := 0 to BUCKETS
        invariant |reported| == BUCKETS && reported[k..] == before[k..]
        invariant reported[..k] + AssignBuckets(before[k..], next, m) == sent
        invariant NextId(Flat(before[k..]), next, m) == NextId(Flat(before), old(next), m)
        invariant client != null ==> AnnounceAll(client.Copy(), Flat(AssignBuckets(before[k..], next, m)), view, m) == AnnounceAll(old(client.Copy()), Flat(sent), view, m)
      {
        ghost var earlier, n := reported, next;
        assert before[k..][0] == reported[k] && before[k..][1..] == before[k + 1..];
        SendBucketsStep(CopyOf(client), before[k..], n, view, m);
        SendBucket(k, client, view, m);
        assert reported[..k + 1] == earlier[..k] + [Assign(before[k], n, m)];
      }
      assert before[BUCKETS..] == [];
      BucketsEnd(CopyOf(client), next, view, m);
      assert reported == reported[..BUCKETS] + [] == sent;
    }

    /** `cc_srv_report_cards`. */
    method ReportCards(client: Client, view: Key -> View)
      requires |reported| == BUCKETS && client.Copy() == {}
      modifies this, client
      ensures System(ShareList.Server(reported, next), true, client.Copy()) == Connect(System(ShareList.Server(old(reported), old(next)), false, {}), view)
    {
      hide AssignBuckets, AnnounceAll, NextId, Flat;
      SendBuckets(client, view, All);
    }

    /** The new list against the old one; what is left over is called back. */
    method ReportAll(news: Buckets, now: int, client: Client?)
      requires |reported| == BUCKETS && Placed(news)
      modifies this`reported, client
      ensures reported == Reports(old(reported), news, now)
      ensures client != null ==> client.Copy() == RemoveAll(old(client.Copy()), Lefts(old(reported), news, now))
    {
      hide Report, RemoveAll, Bucket, Reports, Lefts;
      ghost var known := reported;
      for k := 0 to BUCKETS
        invariant |reported| == BUCKETS && reported[k..] == known[k..]
        invariant reported[..k] + Reports(known[k..], news[k..], now) == Reports(known, news, now)
        invariant client != null ==> RemoveAll(client.Copy(), Lefts(known[k..], news[k..], now)) == RemoveAll(old(client.Copy()), Lefts(known, news, now))
      {
        ghost var earlier := reported;
        assert known[k..][0] == reported[k] && known[k..][1..] == known[k + 1..];
        assert news[k..][0] == news[k] && news[k..][1..] == news[k + 1..];
        ReportStep(CopyOf(client), known[k..], news[k..], now);
        var cards := ReportBucket(news[k], k, now);
        SendRemoved(reported[k], client);
        reported := reported[k := cards];
        assert reported[..k + 1] == earlier[..k] + [cards];
      }
      assert known[BUCKETS..] == [] && news[BUCKETS..] == [];
      ReportEnd(CopyOf(client), now);
      assert reported == reported[..BUCKETS] + [] == Reports(known, news, now);
    }

    /** `update_card_list` from the report phase on: always removals first, then the new cards. */
    method UpdateCardList(news: Buckets, now: int, client: Client?, others: Key -> bool, view: Key -> View)
      requires |reported| == BUCKETS && Placed(news)
      modifies this, client
      ensures var s := System(ShareList.Server(old(reported), old(next)), client != null, old(CopyOf(client)));
              System(ShareList.Server(reported, next), client != null, CopyOf(client)) == Update(s, news, now, others, view)
    {
      hide RemoveAll, AnnounceAll, AssignBuckets, Flat, Reports, Lefts;
      ReportAll(news, now, client);
      SendBuckets(client, view, if client != null then New else NewFor(others));
    }
  }
}
