/**
 The hit cache of the cache exchange (oscam/oscam_8249/module-cacheex.c): a
 doubly linked list in move-to-front order whose searches stop at the first
 entry that is too old.
 */
module HitCache {

  /** What an entry is found by.  Groups are the bits of a 64-bit mask. */
  datatype Key = Key(ecmlen: int, caid: int, prid: int, srvid: int)

  /** An unknown length, 0, goes with every length. */
  predicate Matches(a: Key, b: Key) {
    && a.caid == b.caid && a.prid == b.prid && a.srvid == b.srvid
    && (a.ecmlen == 0 || b.ecmlen == 0 || a.ecmlen == b.ecmlen)
  }

  /** Keys of known lengths match if they are equal; if one length is unknown, if all else is. */
  lemma MatchesIff(a: Key, b: Key)
    ensures a.ecmlen != 0 && b.ecmlen != 0 ==> (Matches(a, b) <==> a == b)
    ensures a.ecmlen == 0 || b.ecmlen == 0 ==> (Matches(a, b) <==> a.(ecmlen := 7) == b.(ecmlen := 7))
  {
  }

  /** An empty group on either side goes with every group. */
  predicate GroupsMeet(a: set<nat>, b: set<nat>) {
    a == {} || b == {} || a * b != {}
  }

  // ------------------------------------------- the list as a sequence of values

  datatype Item = Item(key: Key, time: int)

  ghost predicate Fresh(t: int, now: int, maxTime: nat) {
    t >= now - maxTime
  }

  /** Youngest first, and nothing from the future. */
  ghost predicate Ordered(s: seq<Item>, now: int) {
    && (forall i, j :: 0 <= i < j < |s| ==> s[i].time >= s[j].time)
    && (forall i :: 0 <= i < |s| ==> s[i].time <= now)
  }

  /** No two entries that are fresh at `now` match each other. */
  ghost predicate Unique(s: seq<Item>, now: int, maxTime: nat) {
    forall i, j :: 0 <= i < j < |s| && Fresh(s[i].time, now, maxTime) && Fresh(s[j].time, now, maxTime) ==>
      !Matches(s[i].key, s[j].key)
  }

  ghost function ToFront<T>(s: seq<T>, i: nat): (r: seq<T>)
    requires i < |s|
    ensures |r| == |s| && r[0] == s[i]
    ensures forall k :: 0 < k <= i ==> r[k] == s[k - 1]
    ensures forall k :: i < k < |s| ==> r[k] == s[k]
  {
    [s[i]] + s[..i] + s[i + 1..]
  }

  /** Refreshing a fresh entry and moving it to the front keeps order and uniqueness. */
  lemma RefreshKeeps(s: seq<Item>, i: nat, now: int, maxTime: nat)
    requires i < |s| && Ordered(s, now) && Unique(s, now, maxTime) && Fresh(s[i].time, now, maxTime)
    ensures var t := ToFront(s, i)[0 := s[i].(time := now)];
            Ordered(t, now) && Unique(t, now, maxTime)
  {
  }

  /** So does a new entry that nothing fresh matches. */
  lemma InsertKeeps(s: seq<Item>, key: Key, now: int, maxTime: nat)
    requires Ordered(s, now) && Unique(s, now, maxTime)
    requires forall i :: 0 <= i < |s| && Fresh(s[i].time, now, maxTime) ==> !Matches(key, s[i].key)
    ensures var t := [Item(key, now)] + s;
            Ordered(t, now) && Unique(t, now, maxTime)
  {
  }

  lemma PrefixKeeps(s: seq<Item>, k: nat, now: int, maxTime: nat)
    requires k <= |s| && Ordered(s, now) && Unique(s, now, maxTime)
    ensures Ordered(s[..k], now) && Unique(s[..k], now, maxTime)
    ensures forall i :: k <= i < |s| ==> s[i].time <= s[k].time
  {
  }

  // --------------------------------------------------------------- the objects

  class Hit {
    const key: Key
    var grp: set<nat>
    var time: int
    var prev: Hit?
    var next: Hit?

    constructor (key: Key)
      ensures this.key == key && grp == {} && prev == null && next == null
    {
      this.key := key;
      grp, time, prev, next := {}, 0, null, null;
    }
  }

  class Cache {
    var head: Hit?
    var size: int
    const maxTime: nat
    const maxCount: int
    ghost var nodes: seq<Hit>

    ghost predicate Linked()
      reads `head, `nodes, nodes`next, nodes`prev
    {
      && head == (if nodes == [] then null else nodes[0])
      && (forall i {:trigger nodes[i].next} :: 0 <= i < |nodes| ==> nodes[i].next == if i + 1 < |nodes| then nodes[i + 1] else null)
      && (forall i {:trigger nodes[i].prev} :: 0 <= i < |nodes| ==> nodes[i].prev == if i > 0 then nodes[i - 1] else null)
      && (forall i, j :: 0 <= i < j < |nodes| ==> nodes[i] != nodes[j])
    }

    ghost function Items(): (s: seq<Item>)
      reads this, nodes
      ensures |s| == |nodes| && forall i :: 0 <= i < |s| ==> s[i] == Item(nodes[i].key, nodes[i].time)
    {
      seq(|nodes|, i requires 0 <= i < |nodes| reads this, nodes => Item(nodes[i].key, nodes[i].time))
    }

    /** The state at a clock value `now`. */
    ghost predicate Valid(now: int)
      reads this, nodes
    {
      Linked() && size == |nodes| && Ordered(Items(), now) && Unique(Items(), now, maxTime)
    }

    /** Time may pass. */
    lemma ValidLater(now: int, later: int)
      requires Valid(now) && now <= later
      ensures Valid(later)
    {
    }

    constructor (maxTime: nat, maxCount: int)
      ensures nodes == [] && forall now :: Valid(now)
    {
      head, size, nodes := null, 0, [];
      this.maxTime, this.maxCount := maxTime, maxCount;
    }

    /** Would a scan of the whole list accept entry `i`? */
    ghost predicate Accepts(i: nat, key: Key, grp: set<nat>, groups: bool, now: int)
      requires i < |nodes|
      reads this, nodes
    {
      Fresh(nodes[i].time, now, maxTime) && Matches(key, nodes[i].key) && (groups ==> GroupsMeet(grp, nodes[i].grp))
    }

    /** The first entry a full scan accepts, or the length if it accepts none. */
    ghost predicate FirstAccepted(at: nat, key: Key, grp: set<nat>, groups: bool, now: int)
      reads this, nodes
    {
      && at <= |nodes|
      && (forall i :: 0 <= i < at ==> !Accepts(i, key, grp, groups, now))
      && (at < |nodes| ==> Accepts(at, key, grp, groups, now))
    }

    /** An entry answers for its own key up to `maxTime` seconds after its last refresh, and if groups count, for groups that share one with it. */
    lemma AnswersIff(i: nat, grp: set<nat>, groups: bool, now: int)
      requires i < |nodes|
      ensures Accepts(i, nodes[i].key, grp, groups, now)
              <==> now - nodes[i].time <= maxTime &&
                   (groups && grp != {} && nodes[i].grp != {} ==> exists g :: g in grp && g in nodes[i].grp)
    {
      var meet := grp * nodes[i].grp;
      assert forall g :: g in meet <==> g in grp && g in nodes[i].grp;
      if meet != {} {
        var g :| g in meet;
      }
    }

    /**
     `check_hitcache`.  It stops at the first stale entry, and yet it answers
     like a scan of everything: the first acceptable entry, or null if there
     is none.  Its final consistency check never fires.
     */
    method Check(key: Key, grp: set<nat>, groups: bool, now: int) returns (ch: Hit?, ghost at: nat)
      requires Valid(now)
      ensures FirstAccepted(at, key, grp, groups, now)
      ensures ch == if at < |nodes| then nodes[at] else null
    {
      var timeout := now - maxTime;
      var fs: set<nat> := {};
      ch, at := head, 0;
      while ch != null
        invariant at <= |nodes|
        invariant ch == if at < |nodes| then nodes[at] else null
        invariant forall i :: 0 <= i < at ==> !Accepts(i, key, grp, groups, now)
        invariant fs <= {1, 2, 4, 8}
        decreases |nodes| - at
      {
        assert ch == nodes[at] && nodes[at].next == if at + 1 < |nodes| then nodes[at + 1] else null;
        if ch.time < timeout {
          assert Items()[at].time < timeout;
          ch, at := null, |nodes|;
          break;
        }
        fs := fs + {1};
        if key.caid == ch.key.caid && key.prid == ch.key.prid && key.srvid == ch.key.srvid {
          fs := fs + {2};
          if !(ch.key.ecmlen != 0 && key.ecmlen != 0 && ch.key.ecmlen != key.ecmlen) {
            fs := fs + {4};
            if !(groups && grp != {} && ch.grp != {} && grp * ch.grp == {}) {
              fs := fs + {8};
              assert Accepts(at, key, grp, groups, now);
              break;
            }
          }
        }
        ch, at := ch.next, at + 1;
      }
      if fs != {1, 2, 4, 8} && ch != null {
        ch := null;
      }
    }

    /** Puts a new entry in front. */
    method PushFront(ch: Hit)
      requires Linked() && ch !in nodes && ch.prev == null && ch.next == null
      modifies `head, `nodes, `size, ch`next, nodes`prev
      ensures Linked() && nodes == [ch] + old(nodes) && size == old(size) + 1
    {
      if head != null {
        head.prev := ch;
        ch.next := head;
      }
      head := ch;
      size := size + 1;
      nodes := [ch] + nodes;
    }

    /** Unlinks an entry that is not the first and puts it in front. */
    method MoveToFront(ch: Hit, ghost at: nat)
      requires Linked() && 0 < at < |nodes| && nodes[at] == ch
      modifies `head, `nodes, nodes`next, nodes`prev
      ensures Linked() && nodes == ToFront(old(nodes), at)
    {
      hide ToFront;
      ghost var was := nodes;
      assert ch.prev == was[at - 1] && ch.next == if at + 1 < |was| then was[at + 1] else null;
      if ch.next != null {
        ch.prev.next := ch.next;
        ch.next.prev := ch.prev;
      } else {
        ch.prev.next := null;
      }
      ch.prev := null;
      head.prev := ch;
      ch.next := head;
      head := ch;
      nodes := ToFront(was, at);
    }

    lemma NothingMatches(key: Key, now: int)
      requires FirstAccepted(|nodes|, key, {}, false, now)
      ensures forall i :: 0 <= i < |nodes| && Fresh(Items()[i].time, now, maxTime) ==> !Matches(key, Items()[i].key)
    {
      hide Matches;
      forall i | 0 <= i < |nodes| && Fresh(Items()[i].time, now, maxTime) ensures !Matches(key, Items()[i].key) {
        assert !Accepts(i, key, {}, false, now);
      }
    }

    method Insert(key: Key, grp: set<nat>, now: int)
      requires Valid(now) && FirstAccepted(|nodes|, key, {}, false, now)
      modifies this, nodes
      ensures Valid(now) && |nodes| == old(|nodes|) + 1 && nodes[1..] == old(nodes) && fresh(nodes[0])
      ensures nodes[0].key == key && nodes[0].grp == grp && nodes[0].time == now
      ensures forall h :: h in old(nodes) ==> h.time == old(h.time) && h.grp == old(h.grp)
    {
      hide Ordered, Unique, Matches, FirstAccepted, Accepts;
      ghost var s := Items();
      NothingMatches(key, now);
      InsertKeeps(s, key, now, maxTime);
      var ch := new Hit(key);
      PushFront(ch);
      ch.grp := ch.grp + grp;
      ch.time := now;
      assert Items() == [Item(key, now)] + s;
    }

    method Refresh(ch: Hit, grp: set<nat>, now: int, ghost at: nat)
      requires Valid(now) && at < |nodes| && nodes[at] == ch && Accepts(at, ch.key, {}, false, now)
      modifies this, nodes
      ensures Valid(now) && nodes == ToFront(old(nodes), at)
      ensures ch.grp == old(ch.grp) + grp && ch.time == now
      ensures forall h :: h in old(nodes) && h != ch ==> h.time == old(h.time) && h.grp == old(h.grp)
    {
      hide Ordered, Unique, Matches, ToFront, Linked;
      ghost var s := Items();
      RefreshKeeps(s, at, now, maxTime);
      NodeIs(at);
      ch.grp := ch.grp + grp;
      ch.time := now;
      if ch.prev != null {
        MoveToFront(ch, at);
      } else {
        FrontIsFront(nodes);
      }
      assert Items() == ToFront(s, at)[0 := s[at].(time := now)];
    }

    lemma NodeIs(at: nat)
      requires Linked() && at < |nodes|
      ensures nodes[at].prev != null <==> at > 0
      ensures forall i :: 0 <= i < |nodes| && i != at ==> nodes[i] != nodes[at]
    {
    }

    static lemma FrontIsFront<T>(s: seq<T>)
      requires s != []
      ensures ToFront(s, 0) == s
    {
    }

    /**
     The locked part of `add_hitcache`: the entry that answers for the request
     is refreshed and moved to the front, or a new one is put there.
     */
    method Add(key: Key, grp: set<nat>, now: int) returns (ghost at: nat)
      requires Valid(now)
      modifies this, nodes
      ensures Valid(now) && old(FirstAccepted(at, key, {}, false, now))
      ensures nodes != [] && nodes[0].time == now
      ensures if at < old(|nodes|) then
                nodes == ToFront(old(nodes), at) && nodes[0].grp == old(nodes[at].grp) + grp
              else
                fresh(nodes[0]) && nodes[1..] == old(nodes) && nodes[0].key == key && nodes[0].grp == grp
      ensures forall h :: h in old(nodes) && h != nodes[0] ==> h.time == old(h.time) && h.grp == old(h.grp)
    {
      hide Ordered, Unique, ToFront, Linked;
      var ch: Hit?;
      ch, at := Check(key, {}, false, now);
      if ch == null {
        Insert(key, grp, now);
      } else {
        Refresh(ch, grp, now, at);
      }
    }

    /** The entries `cleanup_hitcache` keeps: young enough, and among the first `maxCount`. */
    ghost predicate Keeps(i: nat, now: int)
      requires i < |nodes|
      reads this, nodes
    {
      now - nodes[i].time < maxTime + maxTime / 2 && i < maxCount
    }

    /** `cleanup_hitcache`: exactly the entries to be kept remain, in order, and the counter says how many. */
    method Cleanup(now: int)
      requires Valid(now)
      modifies this, nodes
      ensures Valid(now) && size == |nodes| <= old(|nodes|) && nodes == old(nodes)[..|nodes|]
      ensures forall i :: 0 <= i < old(|nodes|) ==>
                (i < |nodes| <==> now - old(nodes[i].time) < maxTime + maxTime / 2 && i < maxCount)
      ensures forall h :: h in old(nodes) ==> h.time == old(h.time) && h.grp == old(h.grp)
    {
      hide Ordered, Unique;
      var count := 0;
      var current, prv: Hit? := head, null;
      while current != null
        invariant 0 <= count <= |nodes|
        invariant current == if count < |nodes| then nodes[count] else null
        invariant prv == if count > 0 then nodes[count - 1] else null
        invariant forall i :: 0 <= i < count ==> Keeps(i, now)
        decreases |nodes| - count
      {
        assert nodes[count].next == if count + 1 < |nodes| then nodes[count + 1] else null;
        if !(now - current.time < maxTime + maxTime / 2 && count < maxCount) {
          break;
        }
        prv, current, count := current, current.next, count + 1;
      }
      ghost var s := Items();
      PrefixKeeps(s, count, now, maxTime);
      assert count < |nodes| ==> !Keeps(count, now);
      assert forall i :: 0 <= i < |nodes| ==> (i < count <==> Keeps(i, now)) && s[i].time == old(nodes[i].time);
      if current != null {
        if prv != null {
          CutBehind(prv, count);
        } else {
          head, nodes := null, [];
        }
      }
      size := count;
      assert Items() == s[..count];
    }

    /** Everything from position `count` on is unlinked. */
    method CutBehind(prv: Hit, ghost count: nat)
      requires Linked() && 0 < count < |nodes| && prv == nodes[count - 1]
      modifies `nodes, prv`next
      ensures Linked() && nodes == old(nodes)[..count]
    {
      prv.next := null;
      nodes := nodes[..count];
    }
  }
}
