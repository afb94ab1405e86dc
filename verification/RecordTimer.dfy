/**
 The recording scheduler on objects: entries, the recorder pool and the timer
 with its two lists.  The clock does not go back; during an operation it moves
 on only while no service is found for an entry that is to be recorded.
 */
module RecordTimer {
  import opened Sequences
  import opened TimerValues

  /** NavigationInstance: recorders in use, and the entries subscribed to record events. */
  class Navigation {
    var live: set<nat>
    var issued: nat
    var callbacks: multiset<Entry>
    ghost var owner: map<nat, Entry>

    ghost predicate Valid()
      reads this
    {
      && owner.Keys == live
      && forall h :: h in live ==> h < issued
    }

    /** Nothing changed for any entry but `e`. */
    ghost predicate OthersAs(e: Entry, was: map<nat, Entry>, calls: multiset<Entry>)
      reads this
    {
      && (forall h :: h in owner && owner[h] != e ==> h in was && was[h] == owner[h])
      && (forall h :: h in was && was[h] != e ==> h in owner && was[h] == owner[h])
      && callbacks[e := 0] == calls[e := 0]
    }

    constructor ()
      ensures Valid() && live == {} && callbacks == multiset{}
    {
      live, issued, callbacks, owner := {}, 0, multiset{}, map[];
    }

    method RecordService(ghost who: Entry) returns (h: nat)
      requires Valid()
      modifies this
      ensures Valid() && h == old(issued) && live == old(live) + {h} && issued == h + 1
      ensures owner == old(owner)[h := who] && callbacks == old(callbacks)
    {
      h := issued;
      issued := issued + 1;
      live := live + {h};
      owner := owner[h := who];
    }

    /** A recorder can be given back only while it is in use, so never twice. */
    method StopRecordService(h: nat)
      requires Valid() && h in live
      modifies this
      ensures Valid() && live == old(live) - {h} && issued == old(issued)
      ensures owner == old(owner) - {h} && callbacks == old(callbacks)
    {
      live := live - {h};
      owner := owner - {h};
    }
  }

  /** What the edit screen sets. */
  datatype Edits = Edits(begin: int, end: int, repeated: nat, repeatedbegindate: int, disabled: bool, autoincrease: bool, justplay: bool)

  function Edited(v: Val, d: Edits): Val {
    v.(begin := d.begin, end := d.end, repeated := d.repeated, repeatedbegindate := d.repeatedbegindate,
       disabled := d.disabled, autoincrease := d.autoincrease, justplay := d.justplay)
  }

  function AsIs(v: Val): Edits {
    Edits(v.begin, v.end, v.repeated, v.repeatedbegindate, v.disabled, v.autoincrease, v.justplay)
  }

  /** The edit leaves a prepared or running entry what it is, a recording or a zap timer. */
  predicate KeepsKind(v: Val, d: Edits) {
    d.justplay == v.justplay || (v.state != PREPARED && v.state != RUNNING)
  }

  predicate Possible(d: Edits) {
    d.repeated == 0 || Repeatable(d.repeated)
  }

  class Entry {
    var begin: int
    var end: int
    var state: int
    var repeated: nat
    var repeatedbegindate: int
    var disabled: bool
    var cancelled: bool
    var justplay: bool
    var autoincrease: bool
    var startPrepare: int
    var backoff: nat
    var firstTryPrepare: bool
    var recordService: Option<nat>

    function Value(): Val
      reads this
    {
      Val(begin, end, state, repeated, repeatedbegindate, disabled, cancelled, justplay, autoincrease,
          startPrepare, backoff, firstTryPrepare)
    }

    constructor (begin: int, end: int, repeated: nat, disabled: bool, justplay: bool, autoincrease: bool)
      ensures Value() == TimeChanged(Val(begin, if end < begin then begin else end, WAITING, repeated, begin, disabled,
                                         false, justplay, autoincrease, 0, 0, true))
      ensures recordService == None
    {
      this.begin, this.end, state := begin, if end < begin then begin else end, WAITING;
      this.repeated, repeatedbegindate := repeated, begin;
      this.disabled, cancelled, this.justplay, this.autoincrease := disabled, false, justplay, autoincrease;
      startPrepare, backoff, firstTryPrepare := begin - PREPARE_TIME, 0, true;
      recordService := None;
    }

    /** Recorder, ownership and subscription all say the same: this entry has a recorder, or it has none. */
    ghost predicate Has(nav: Navigation, recorder: bool)
      reads `recordService, nav`owner, nav`callbacks
    {
      && (recordService.Some? <==> recorder)
      && (recordService.Some? ==> recordService.value in nav.owner && nav.owner[recordService.value] == this)
      && nav.callbacks[this] == (if recorder then 1 else 0)
      && forall h :: h in nav.owner && nav.owner[h] == this ==> recordService == Some(h)
    }

    ghost predicate Linked(nav: Navigation)
      reads this, nav
    {
      Has(nav, Holds(Value()))
    }

    /** The property setter: leaves the old recorder's events and joins the new one's. */
    method SetRecordService(nav: Navigation, service: Option<nat>)
      requires recordService.Some? ==> nav.callbacks[this] > 0
      modifies this`recordService, nav`callbacks
      ensures recordService == service
      ensures nav.callbacks == old(nav.callbacks)
                               - (if old(recordService).Some? then multiset{this} else multiset{})
                               + (if service.Some? then multiset{this} else multiset{})
    {
      if recordService.Some? {
        nav.callbacks := nav.callbacks - multiset{this};
      }
      recordService := service;
      if recordService.Some? {
        nav.callbacks := nav.callbacks + multiset{this};
      }
    }

    method Acquire(nav: Navigation)
      requires nav.Valid() && Has(nav, false)
      modifies `recordService, nav
      ensures nav.Valid() && Has(nav, true) && nav.OthersAs(this, old(nav.owner), old(nav.callbacks))
      ensures recordService == Some(old(nav.issued)) && nav.live == old(nav.live) + {old(nav.issued)}
      ensures nav.issued == old(nav.issued) + 1
    {
      var h := nav.RecordService(this);
      SetRecordService(nav, Some(h));
    }

    method Release(nav: Navigation)
      requires nav.Valid() && Has(nav, true)
      modifies `recordService, nav
      ensures nav.Valid() && Has(nav, false) && nav.OthersAs(this, old(nav.owner), old(nav.callbacks))
      ensures nav.live == old(nav.live) - {old(recordService).value} && nav.issued == old(nav.issued)
    {
      nav.StopRecordService(recordService.value);
      SetRecordService(nav, None);
    }

    method DoBackoff()
      modifies `backoff
      ensures backoff == NextBackoff(old(backoff))
    {
      if backoff == 0 {
        backoff := 5;
      } else {
        backoff := backoff * 2;
        if backoff > 100 {
          backoff := 100;
        }
      }
    }

    method TimeChanges()
      modifies `startPrepare, `backoff
      ensures Value() == TimeChanged(old(Value()))
    {
      startPrepare := begin - PREPARE_TIME;
      backoff := 0;
    }

    /** The loop of `processRepeated`: day by day, as long as the guard holds. */
    method SkipDays(now: int, offset: int, findRunning: bool)
      requires Repeatable(repeated)
      modifies `begin, `end
      ensures var k := FirstDay(old(Value()), now, offset, findRunning, 0);
              begin == old(begin) + k * DAY && end == old(end) + k * DAY
    {
      hide Skips, SkipsHere, FirstDay, StopDay, Repeatable;
      ghost var v := Value();
      var k := 0;
      while SkipsHere(now, offset, findRunning, k > 0)
        invariant k <= StopDay(v, now, offset)
        invariant begin == v.begin + k * DAY && end == v.end + k * DAY
        invariant FirstDay(v, now, offset, findRunning, k) == FirstDay(v, now, offset, findRunning, 0)
        decreases StopDay(v, now, offset) - k
      {
        GuardIsSkips(v, now, offset, findRunning, k);
        FirstDayRound(v, now, offset, findRunning, k);
        begin := begin + DAY;
        end := end + DAY;
        k := k + 1;
      }
      GuardIsSkips(v, now, offset, findRunning, k);
      FirstDayRound(v, now, offset, findRunning, k);
    }

    method ProcessRepeats(time: int, offset: int, findRunning: bool)
      requires WellFormed(Value())
      modifies `begin, `end, `startPrepare, `backoff
      ensures Value() == ProcessRepeated(old(Value()), time, offset, findRunning)
    {
      hide FirstDay, Repeatable;
      if repeated != 0 {
        SkipDays(time + 1, offset, findRunning);
        if begin == end {
          end := end + 1;
        }
        TimeChanges();
      }
    }

    predicate SkipsHere(now: int, offset: int, findRunning: bool, moved: bool)
      reads this
    {
      || !Enabled(repeated, Weekday(begin, offset))
      || repeatedbegindate > begin
      || Past(if findRunning then end else begin, now, moved)
    }

    lemma GuardIsSkips(v: Val, now: int, offset: int, findRunning: bool, k: nat)
      requires begin == v.begin + k * DAY && end == v.end + k * DAY
      requires repeated == v.repeated && repeatedbegindate == v.repeatedbegindate
      ensures SkipsHere(now, offset, findRunning, k > 0) == Skips(v, now, offset, findRunning, k)
    {
    }

    /** `tryPrepare`: true with a recorder (or for a zap timer), false without one. */
    method TryPrepare(nav: Navigation, time: int, o: Outcome) returns (ok: bool)
      requires nav.Valid() && Linked(nav) && state == WAITING
      modifies `recordService, `backoff, `startPrepare, nav
      ensures nav.Valid() && nav.OthersAs(this, old(nav.owner), old(nav.callbacks))
      ensures ok == (justplay || o.prepare == PrepareWorks) && Has(nav, ok && !justplay)
      ensures backoff == if justplay || o.prepare != PrepareFails then old(backoff) else NextBackoff(old(backoff))
      ensures startPrepare == if justplay || o.prepare != PrepareFails then old(startPrepare) else time + backoff
    {
      if justplay {
        return true;
      }
      if o.prepare == NoService {
        return false;
      }
      Acquire(nav);
      if o.prepare == PrepareFails {
        DoBackoff();
        startPrepare := time + backoff;
        Release(nav);
        return false;
      }
      return true;
    }

    /**
     `activate`.  The answer says whether the entry moves to the next state; an
     entry that is extended answers yes after stepping one state back.
     */
    method Activate(nav: Navigation, time: int, o: Outcome) returns (accepted: bool)
      requires nav.Valid() && Linked(nav) && WAITING <= state < ENDED
      modifies this, nav
      ensures nav.Valid() && nav.OthersAs(this, old(nav.owner), old(nav.callbacks))
      ensures var v := Activated(old(Value()), time, o);
              && Value() == (if accepted then v.(state := v.state - 1) else v)
              && Has(nav, Holds(v))
    {
      hide Activated, Tried, Prepares, Holds, Has, Navigation.Valid, Navigation.OthersAs;
      LinkedIs(nav, time, o);
      if state == WAITING {
        PrepareIs(Value(), time, o);
        accepted := Prepare(nav, time, o);
      } else if state == PREPARED {
        accepted := StartRecording(time, o);
        NothingMoved(nav, old(nav.owner), old(nav.callbacks));
      } else {
        StopOrExtend(nav, time, o);
        accepted := true;
      }
    }

    lemma LinkedIs(nav: Navigation, time: int, o: Outcome)
      requires Linked(nav)
      ensures Has(nav, recordService.Some?)
      ensures state == PREPARED || state == RUNNING ==> recordService.Some? == !justplay
      ensures state == RUNNING ==>
                var v := Activated(Value(), time, o);
                Holds(v) == (recordService.Some? && (justplay || v.state == RUNNING))
    {
    }

    /** Everything a user can change of a listed entry. */
    method Edit(d: Edits)
      modifies this
      ensures Value() == Edited(old(Value()), d) && recordService == old(recordService)
    {
      begin, end, repeated, repeatedbegindate := d.begin, d.end, d.repeated, d.repeatedbegindate;
      disabled, autoincrease, justplay := d.disabled, d.autoincrease, d.justplay;
    }

    /**
     An edit leaves the entry with the recorder it must have if and only if it
     does not turn a prepared or running entry from a recording into a zap timer
     or back.
     */
    lemma EditKeepsRecorderIff(nav: Navigation, d: Edits)
      requires Linked(nav)
      ensures Has(nav, Holds(Edited(Value(), d))) <==> KeepsKind(Value(), d)
    {
    }

    /** A running recording that was turned into a zap timer has ended, and its recorder is never given back. */
    method EndAsZap(nav: Navigation, d: Edits, time: int, o: Outcome)
      requires nav.Valid() && Linked(nav) && state == RUNNING && !justplay && d.justplay && !d.autoincrease
      modifies this, nav
      ensures state == ENDED && Has(nav, true) && !Linked(nav)
    {
      Edit(d);
      StopOrExtend(nav, time, o);
      state := state + 1;
    }

    lemma NothingMoved(nav: Navigation, owner: map<nat, Entry>, calls: multiset<Entry>)
      requires nav.owner == owner && nav.callbacks == calls
      ensures nav.OthersAs(this, owner, calls)
    {
    }

    predicate Prepares(v: Val, o: Outcome) {
      v.justplay || o.prepare == PrepareWorks
    }

    /** The values after the attempt to prepare, before the step to the next state. */
    function Tried(v: Val, time: int, o: Outcome): Val {
      if Prepares(v, o) then v.(backoff := 0)
      else
        var w := v.(firstTryPrepare := false);
        if o.prepare == PrepareFails then w.(backoff := NextBackoff(v.backoff), startPrepare := time + NextBackoff(v.backoff)) else w
    }

    lemma PrepareIs(v: Val, time: int, o: Outcome)
      requires v.state == WAITING
      ensures var r := Activated(v, time, o);
              && Holds(r) == (Prepares(v, o) && !v.justplay)
              && Tried(v, time, o) == if Prepares(v, o) then r.(state := r.state - 1) else r
    {
    }

    /** The step to the prepared state. */
    method Prepare(nav: Navigation, time: int, o: Outcome) returns (accepted: bool)
      requires nav.Valid() && Linked(nav) && state == WAITING
      modifies `firstTryPrepare, `recordService, `backoff, `startPrepare, nav
      ensures nav.Valid() && nav.OthersAs(this, old(nav.owner), old(nav.callbacks))
      ensures accepted == Prepares(old(Value()), o) && Has(nav, accepted && !justplay)
      ensures Value() == Tried(old(Value()), time, o)
    {
      hide Navigation.Valid, Navigation.OthersAs, NextBackoff, Has;
      accepted := TryPrepare(nav, time, o);
      if accepted {
        backoff := 0;
      } else {
        firstTryPrepare := false;
      }
    }

    /** The step to the running state. */
    method StartRecording(time: int, o: Outcome) returns (accepted: bool)
      requires state == PREPARED && (cancelled || justplay || recordService.Some?)
      modifies `begin, `backoff
      ensures var v := Activated(old(Value()), time, o);
              && Value() == (if accepted then v.(state := v.state - 1) else v)
              && Holds(v) == Holds(old(Value()))
    {
      accepted := cancelled || justplay || !o.startFails;
      if !accepted {
        DoBackoff();
        begin := time + backoff;
      }
    }

    /** The step to the end, which an automatic extension turns into a step back. */
    method StopOrExtend(nav: Navigation, time: int, o: Outcome)
      requires nav.Valid() && state == RUNNING && Has(nav, recordService.Some?) && (justplay || recordService.Some?)
      modifies `end, `state, `recordService, nav
      ensures nav.Valid() && nav.OthersAs(this, old(nav.owner), old(nav.callbacks))
      ensures var v := Activated(old(Value()), time, o);
              Value() == v.(state := v.state - 1) && Has(nav, old(recordService.Some?) && (justplay || v.state == RUNNING))
    {
      var extended := SetAutoincreaseEnd(time, o.conflict);
      if extended {
        state := state - 1;
      } else if !justplay {
        Release(nav);
      }
    }

    method SetAutoincreaseEnd(time: int, c: Conflict) returns (extended: bool)
      modifies `end
      ensures extended == (autoincrease && NewEnd(time, c) > time)
      ensures end == if extended then NewEnd(time, c) else old(end)
    {
      extended := false;
      if autoincrease {
        var newEnd := time + AUTOINCREASE_TIME;
        if c.Overlap? {
          newEnd := c.begin - 30;
        }
        if newEnd > time {
          end := newEnd;
          extended := true;
        }
      }
    }

    /** The edits of `removeEntry`: no repetition, no extension, over by now, cancelled. */
    method Cancel(time: int)
      modifies this
      ensures Value() == old(Value()).(repeated := 0, autoincrease := false, cancelled := true, end := time,
                                       begin := if old(begin) > time then time else old(begin))
      ensures recordService == old(recordService)
    {
      repeated := 0;
      autoincrease := false;
      Abort(time);
    }

    method Abort(time: int)
      modifies `begin, `end, `cancelled
      ensures end == time && cancelled && begin == if old(begin) > time then time else old(begin)
    {
      end := time;
      if begin > end {
        begin := end;
      }
      cancelled := true;
    }
  }

  // ------------------------------------------------------------- the lists

  predicate Sorted(s: seq<Entry>)
    reads s
  {
    forall i, j :: 0 <= i < j < |s| ==> NextActivation(s[i].Value()) <= NextActivation(s[j].Value())
  }

  function InsertAt(s: seq<Entry>, i: nat, e: Entry): (r: seq<Entry>)
    requires i <= |s|
    ensures |r| == |s| + 1 && r[i] == e
  {
    s[..i] + [e] + s[i..]
  }

  lemma InsertElements(s: seq<Entry>, i: nat, e: Entry)
    requires i <= |s|
    ensures forall x :: x in InsertAt(s, i, e) <==> x in s || x == e
    ensures Distinct(s) && e !in s ==> Distinct(InsertAt(s, i, e))
  {
  }

  /** list.remove: the first occurrence goes. */
  function RemoveFrom(s: seq<Entry>, e: Entry): seq<Entry> {
    if s == [] then [] else if s[0] == e then s[1..] else [s[0]] + RemoveFrom(s[1..], e)
  }

  ghost function Work(s: seq<Entry>, time: int): nat
    reads s
  {
    if s == [] then 0 else Rank(s[0].Value(), time) + Work(s[1..], time)
  }

  lemma {:induction false} WorkOfConcat(s: seq<Entry>, t: seq<Entry>, time: int)
    ensures Work(s + t, time) == Work(s, time) + Work(t, time)
  {
    if s == [] {
      assert s + t == t;
    } else {
      assert (s + t)[1..] == s[1..] + t;
      WorkOfConcat(s[1..], t, time);
    }
  }

  lemma WorkOfInsert(s: seq<Entry>, i: nat, e: Entry, time: int)
    requires i <= |s|
    ensures Work(InsertAt(s, i, e), time) == Work(s, time) + Rank(e.Value(), time)
  {
    WorkOfConcat(s[..i] + [e], s[i..], time);
    WorkOfConcat(s[..i], [e], time);
    WorkOfConcat(s[..i], s[i..], time);
    assert s[..i] + s[i..] == s;
  }

  lemma {:induction false} RemoveElements(s: seq<Entry>, e: Entry)
    ensures forall x :: x in RemoveFrom(s, e) ==> x in s
    ensures forall x :: x in s && x != e ==> x in RemoveFrom(s, e)
    ensures e !in s ==> RemoveFrom(s, e) == s
  {
    if s != [] && s[0] != e {
      RemoveElements(s[1..], e);
    }
  }

  lemma {:induction false} RemoveDistinct(s: seq<Entry>, e: Entry)
    requires Distinct(s)
    ensures Distinct(RemoveFrom(s, e)) && e !in RemoveFrom(s, e)
  {
    if s != [] && s[0] != e {
      RemoveDistinct(s[1..], e);
      RemoveElements(s[1..], e);
      var r := RemoveFrom(s[1..], e);
      assert s[0] !in s[1..] && s[0] !in r;
      assert forall i :: 0 < i < |r| + 1 ==> RemoveFrom(s, e)[i] == r[i - 1];
    }
  }

  /** Sorted, if one looks away from `e`. */
  predicate SortedBut(s: seq<Entry>, e: Entry)
    reads s
  {
    forall i, j :: 0 <= i < j < |s| && s[i] != e && s[j] != e ==>
      NextActivation(s[i].Value()) <= NextActivation(s[j].Value())
  }

  /** The first entry against the rest. */
  lemma SortedTail(s: seq<Entry>, e: Entry)
    requires SortedBut(s, e) && Distinct(s) && s != []
    ensures SortedBut(s[1..], e) && Distinct(s[1..]) && s[0] !in s[1..]
    ensures s[0] != e ==> forall x :: x in s[1..] && x != e ==> NextActivation(s[0].Value()) <= NextActivation(x.Value())
  {
    hide NextActivation;
  }

  lemma SortedCons(c: Entry, r: seq<Entry>)
    requires Sorted(r) && forall x :: x in r ==> NextActivation(c.Value()) <= NextActivation(x.Value())
    ensures Sorted([c] + r)
  {
    hide NextActivation;
  }

  lemma SortedWithout(s: seq<Entry>, e: Entry)
    requires SortedBut(s, e) && e !in s
    ensures Sorted(s)
  {
    hide NextActivation;
  }

  lemma {:induction false} RemoveSorted(s: seq<Entry>, e: Entry)
    requires SortedBut(s, e) && Distinct(s)
    ensures Sorted(RemoveFrom(s, e))
  {
    hide NextActivation, Sorted, SortedBut, Distinct;
    if s == [] {
      SortedWithout(s, e);
    } else {
      SortedTail(s, e);
      var t := s[1..];
      if s[0] == e {
        SortedWithout(t, e);
      } else {
        RemoveSorted(t, e);
        RemoveDistinct(t, e);
        RemoveElements(t, e);
        SortedCons(s[0], RemoveFrom(t, e));
      }
    }
  }

  lemma {:induction false} WorkOfRemove(s: seq<Entry>, e: Entry, time: int)
    requires e in s
    ensures Work(s, time) == Work(RemoveFrom(s, e), time) + Rank(e.Value(), time)
  {
    if s[0] != e {
      WorkOfRemove(s[1..], e, time);
      assert RemoveFrom(s, e)[1..] == RemoveFrom(s[1..], e);
    }
  }

  lemma {:induction false} NoWorkIfNothingDue(s: seq<Entry>, time: int)
    requires forall e :: e in s ==> !Due(e.Value(), time)
    ensures Work(s, time) == 0
  {
    if s != [] {
      NoWorkIfNothingDue(s[1..], time);
    }
  }

  /** `insort`: a binary search for the place after all entries that are not later. */
  method Insort(s: seq<Entry>, e: Entry) returns (r: seq<Entry>, ghost at: nat)
    ensures at <= |s| && r == InsertAt(s, at, e)
    ensures Sorted(s) ==> Sorted(r)
    ensures Sorted(s) ==> forall i :: 0 <= i < |s| ==> (i < at <==> NextActivation(s[i].Value()) <= NextActivation(e.Value()))
  {
    var lo, hi := 0, |s|;
    ghost var key := NextActivation(e.Value());
    while lo < hi
      invariant 0 <= lo <= hi <= |s|
      invariant Sorted(s) ==> forall i :: 0 <= i < lo ==> NextActivation(s[i].Value()) <= key
      invariant Sorted(s) ==> forall i :: hi <= i < |s| ==> key < NextActivation(s[i].Value())
    {
      var mid := (lo + hi) / 2;
      if NextActivation(e.Value()) < NextActivation(s[mid].Value()) {
        hi := mid;
      } else {
        lo := mid + 1;
      }
    }
    at := lo;
    r := s[..lo] + [e] + s[lo..];
    assert r == InsertAt(s, at, e);
  }

  // ------------------------------------------------------------- the timer

  /** What `cleanupDaily` may throw away. */
  predicate Droppable(v: Val, time: int, days: nat) {
    v.state == ENDED && !(v.disabled && v.repeated != 0) && !(v.end != 0 && v.end > time - days * DAY)
  }

  /** The values of all entries and the two lists at one moment. */
  datatype Snapshot = Snapshot(vals: map<Entry, Val>, timers: seq<Entry>, processed: seq<Entry>)

  ghost predicate Listed(s: Snapshot, e: Entry) {
    e in s.timers || e in s.processed
  }

  /**
   What any run of the scheduler does to the entries, `moving` being handed to
   it from outside the lists: values evolve, processed entries are left alone,
   and an entry can leave the lists only by becoming droppable.
   */
  ghost predicate Ran(s: Snapshot, t: Snapshot, moving: set<Entry>, time: int, days: nat) {
    && t.vals.Keys == s.vals.Keys
    && (forall e :: e in s.vals ==> Evolves(s.vals[e], t.vals[e]) && ValidState(s.vals[e].state))
    && (forall e :: e in s.vals && e !in s.timers && e !in moving ==> t.vals[e] == s.vals[e])
    && (forall e :: e in s.vals && (Listed(s, e) || e in moving) ==> Listed(t, e) || Droppable(t.vals[e], time, days))
    && (forall e :: e in t.processed ==> Listed(s, e) || e in moving)
    && (forall e :: e in t.timers ==> e in s.timers || e in moving)
  }

  ghost predicate StatesValid(s: Snapshot) {
    forall e :: e in s.vals ==> ValidState(s.vals[e].state) && WellFormed(s.vals[e])
  }

  /** Handing one entry to one of the lists is a run. */
  lemma RanFiling(s: Snapshot, t: Snapshot, e: Entry, time: int, days: nat)
    requires StatesValid(s) && e in s.vals && !Listed(s, e)
    requires t.vals.Keys == s.vals.Keys && Evolves(s.vals[e], t.vals[e])
    requires forall x :: x in s.vals && x != e ==> t.vals[x] == s.vals[x]
    requires forall x :: x in t.timers ==> x in s.timers || x == e
    requires forall x :: x in t.processed ==> x in s.processed || x == e
    requires forall x :: Listed(s, x) || x == e ==> Listed(t, x)
    ensures Ran(s, t, {e}, time, days)
  {
  }

  /** `w` has been stepped and taken off the pending list; it is in no list. */
  ghost predicate TakenOff(s: Snapshot, t: Snapshot, w: Entry) {
    && t.vals.Keys == s.vals.Keys && w in s.vals
    && Evolves(s.vals[w], t.vals[w])
    && (forall x :: x in s.vals && x != w ==> t.vals[x] == s.vals[x])
    && (forall x :: x in t.timers ==> x in s.timers && x != w)
    && (forall x :: x in s.timers ==> x in t.timers || x == w)
    && t.processed == s.processed
  }

  /** Taking off without a step, and then the entry's `timeChanged`. */
  lemma TakenOffEdited(s: Snapshot, t: Snapshot, u: Snapshot, w: Entry)
    requires w in s.vals && u.vals.Keys == t.vals.Keys && t.vals == s.vals && Distinct(s.timers)
    requires t.timers == RemoveFrom(s.timers, w) && t.processed == s.processed
    requires u.timers == t.timers && u.processed == t.processed
    requires forall x :: x in t.vals && x != w ==> u.vals[x] == t.vals[x]
    requires u.vals[w] == TimeChanged(t.vals[w])
    ensures TakenOff(s, u, w)
  {
    RemoveElements(s.timers, w);
    RemoveDistinct(s.timers, w);
  }

  /** Filing `w` after some processed entries were dropped. */
  lemma RanDropping(s: Snapshot, t: Snapshot, u: Snapshot, w: Entry, time: int, days: nat)
    requires StatesValid(s) && w in s.vals && u.vals == t.vals == s.vals && u.timers == t.timers == s.timers
    requires forall e :: e in t.processed ==> e in s.processed
    requires forall e :: e in s.processed && e in s.vals && e !in t.processed ==> Droppable(s.vals[e], time, days)
    requires forall e :: e in u.processed <==> e in t.processed || e == w
    ensures Ran(s, u, {w}, time, days)
  {
  }

  /** Values of a loose entry edited before a run. */
  lemma RanEdited(s: Snapshot, t: Snapshot, u: Snapshot, e: Entry, time: int, days: nat)
    requires StatesValid(s) && e in s.vals && t.vals.Keys == s.vals.Keys && Evolves(s.vals[e], t.vals[e])
    requires forall x :: x in s.vals && x != e ==> t.vals[x] == s.vals[x]
    requires t.timers == s.timers && t.processed == s.processed
    requires Ran(t, u, {e}, time, days)
    ensures Ran(s, u, {e}, time, days)
  {
    hide Evolves;
    EvolvesTransitive(s.vals[e], t.vals[e], u.vals[e]);
  }

  /** Taking an entry off, working on it and filing it again is a run without movers. */
  lemma RanAround(s: Snapshot, t: Snapshot, u: Snapshot, w: Entry, time: int, days: nat)
    requires w in s.timers && StatesValid(s)
    requires TakenOff(s, t, w) && Ran(t, u, {w}, time, days)
    ensures Ran(s, u, {}, time, days)
  {
    hide Evolves, Droppable;
    forall e | e in s.vals ensures Evolves(s.vals[e], u.vals[e]) {
      EvolvesTransitive(s.vals[e], t.vals[e], u.vals[e]);
    }
  }

  lemma RanNothing(s: Snapshot, time: int, days: nat)
    requires StatesValid(s)
    ensures Ran(s, s, {}, time, days)
  {
  }

  /** A run followed by a run; what `moving` was is in a list or loose in between. */
  lemma RanTwice(s: Snapshot, t: Snapshot, u: Snapshot, moving: set<Entry>, between: set<Entry>, time: int, days: nat)
    requires Ran(s, t, moving, time, days) && Ran(t, u, between, time, days)
    requires forall e :: e in between ==> e in s.timers || e in moving
    ensures Ran(s, u, moving, time, days)
  {
    forall e | e in s.vals ensures Evolves(s.vals[e], u.vals[e]) {
      EvolvesTransitive(s.vals[e], t.vals[e], u.vals[e]);
    }
  }

  /** What is droppable stays droppable. */
  lemma RanLater(s: Snapshot, t: Snapshot, moving: set<Entry>, time: int, later: int, days: nat)
    requires Ran(s, t, moving, time, days) && time <= later
    ensures Ran(s, t, moving, later, days)
  {
  }

  /** Entries that record once and still wait are over at `horizon`. */
  ghost predicate OverBy(s: Snapshot, horizon: int) {
    forall e :: e in s.vals && s.vals[e].repeated == 0 && s.vals[e].state == WAITING ==> s.vals[e].end <= horizon
  }

  lemma RanStaysOver(s: Snapshot, t: Snapshot, moving: set<Entry>, time: int, days: nat, horizon: int)
    requires Ran(s, t, moving, time, days) && OverBy(s, horizon)
    ensures OverBy(t, horizon)
  {
  }

  lemma TakenOffStaysOver(s: Snapshot, t: Snapshot, w: Entry, horizon: int)
    requires TakenOff(s, t, w) && OverBy(s, horizon) && StatesValid(s)
    ensures OverBy(t, horizon)
  {
  }

  /** There is always such a horizon. */
  lemma {:induction false} Horizon(vals: map<Entry, Val>, least: int) returns (horizon: int)
    ensures least <= horizon && forall e :: e in vals ==> vals[e].end <= horizon
    decreases vals.Keys
  {
    horizon := least;
    if vals.Keys != {} {
      var e :| e in vals.Keys;
      var rest := map x | x in vals && x != e :: vals[x];
      assert forall x :: x in vals ==> x == e || x in rest;
      var h := Horizon(rest, least);
      horizon := if vals[e].end > h then vals[e].end else h;
    }
  }

  /** Clock values until `horizon`. */
  function Left(horizon: int, time: int): nat {
    if time < horizon then horizon - time else 0
  }

  class RecordTimer {
    const nav: Navigation
    const offset: int
    const keepTimers: nat
    var timerList: seq<Entry>
    var processedTimers: seq<Entry>
    var lastActivation: int
    var next: int
    ghost var all: set<Entry>  // every entry this timer has ever been given

    /**
     Everything the scheduler keeps, with the entries in `loose` (at most the
     one being moved) outside both lists.
     */
    ghost predicate ValidBut(loose: set<Entry>)
      reads `timerList, `processedTimers, `all, nav, all
    {
      && nav.Valid()
      && Distinct(timerList) && Distinct(processedTimers)
      && (forall e :: e in timerList ==> e in all && e !in loose && e !in processedTimers && WAITING <= e.state < ENDED)
      && (forall e :: e in processedTimers ==> e in all && e !in loose && e.state == ENDED)
      && (forall e :: e in all ==> ValidState(e.state) && WellFormed(e.Value()) && e.Linked(nav))
      && (forall e :: e in all && e !in loose && e !in timerList ==> e.state == ENDED)
      && (forall h :: h in nav.owner ==> nav.owner[h] in all)
      && (forall e :: e in nav.callbacks ==> e in all)
      && Sorted(timerList)
    }

    ghost predicate Valid()
      reads `timerList, `processedTimers, `all, nav, all
    {
      ValidBut({})
    }

    ghost predicate NothingDue(time: int)
      reads `timerList, timerList
    {
      forall e :: e in timerList ==> !Due(e.Value(), time)
    }

    constructor (nav: Navigation, offset: int, keepTimers: nat, time: int)
      requires nav.Valid() && nav.owner == map[] && nav.callbacks == multiset{}
      ensures Valid() && this.nav == nav && all == {} && timerList == [] && processedTimers == []
    {
      this.nav, this.offset, this.keepTimers := nav, offset, keepTimers;
      timerList, processedTimers, lastActivation, next := [], [], time, time;
      all := {};
    }

    /** A list comprehension over the processed entries. */
    method CleanupDaily(days: nat, time: int)
      modifies `processedTimers
      ensures Distinct(old(processedTimers)) ==> Distinct(processedTimers)
      ensures forall e :: e in processedTimers <==>
                (e in old(processedTimers) && ((e.disabled && e.repeated != 0) || (e.end != 0 && e.end > time - days * 24 * 60 * 60)))
    {
      var limit := time - days * DAY;
      var kept: seq<Entry> := [];
      for i := 0 to |processedTimers|
        invariant forall e :: e in kept ==> e in processedTimers[..i]
        invariant Distinct(processedTimers) ==> Distinct(kept)
        invariant forall e :: e in processedTimers[..i] ==>
                    (e in kept <==> (e.disabled && e.repeated != 0) || (e.end != 0 && e.end > limit))
      {
        var e := processedTimers[i];
        if (e.disabled && e.repeated != 0) || (e.end != 0 && e.end > limit) {
          kept := kept + [e];
        }
      }
      processedTimers := kept;
    }

    ghost function Now(): Snapshot
      reads `timerList, `processedTimers, `all, all
    {
      Snapshot(map e | e in all :: e.Value(), timerList, processedTimers)
    }

    /** Ends an entry that holds nothing and is in no list. */
    method EndLoose(e: Entry)
      requires ValidBut({e}) && e in all && !Holds(e.Value())
      modifies e`state
      ensures ValidBut({e}) && e.Value() == old(e.Value()).(state := ENDED)
    {
      hide Distinct, Sorted, NextActivation;
      e.state := ENDED;
      assert e.Linked(nav);
    }

    lemma NowIsValid(loose: set<Entry>)
      requires ValidBut(loose)
      ensures StatesValid(Now())
      ensures forall e :: e in loose ==> !Listed(Now(), e)
    {
    }

    lemma PendingIsActive(w: Entry)
      requires Valid() && w in timerList
      ensures w in all && WAITING <= w.state < ENDED && WellFormed(w.Value()) && Midway(w)
    {
      hide Distinct, NextActivation, WellFormed, Entry.Has;
    }

    lemma MidwayIsValid(e: Entry)
      requires Midway(e)
      ensures StatesValid(Now()) && e in all && WellFormed(e.Value())
      ensures Distinct(timerList)
    {
    }

    /** Files an ended entry among the processed ones, which are not kept in order. */
    method ToProcessed(e: Entry)
      requires ValidBut({e}) && e in all && e.state == ENDED
      modifies `processedTimers
      ensures Valid()
      ensures forall x :: x in processedTimers <==> x in old(processedTimers) || x == e
    {
      hide ValidBut, Distinct, InsertAt, Sorted, NextActivation;
      LooseIsApart(e);
      ghost var at;
      processedTimers, at := Insort(processedTimers, e);
      InsertElements(old(processedTimers), at, e);
      Filed(e);
    }

    lemma LooseIsApart(e: Entry)
      requires ValidBut({e}) && e in all
      ensures e !in timerList && e !in processedTimers && Distinct(timerList) && Distinct(processedTimers) && Sorted(timerList)
    {
    }

    /** The loose entry was put into one of the lists, the right one for its state. */
    twostate lemma Filed(e: Entry)
      requires old(ValidBut({e})) && e in all
      requires unchanged(`all) && unchanged(nav) && forall x :: x in all ==> unchanged(x)
      requires Distinct(timerList) && Distinct(processedTimers) && Sorted(timerList)
      requires forall x :: x in timerList <==> x in old(timerList) || (x == e && e.state < ENDED)
      requires forall x :: x in processedTimers <==> x in old(processedTimers) || (x == e && e.state == ENDED)
      ensures Valid()
    {
      hide Distinct, Sorted, NextActivation, WellFormed, Entry.Has;
    }

    /** Sorts an active entry into the pending list. */
    method ToTimerList(e: Entry, ghost time: int)
      requires ValidBut({e}) && e in all && e.state < ENDED
      modifies `timerList
      ensures Valid()
      ensures forall x :: x in timerList <==> x in old(timerList) || x == e
      ensures Work(timerList, time) == old(Work(timerList, time)) + Rank(e.Value(), time)
    {
      hide ValidBut, Distinct, InsertAt, Sorted, Rank, Work, NextActivation;
      LooseIsApart(e);
      ghost var at;
      timerList, at := Insort(timerList, e);
      InsertElements(old(timerList), at, e);
      Filed(e);
      WorkOfInsert(old(timerList), at, e, time);
    }

    /** `processRepeated` on an entry outside the lists. */
    method RepeatLoose(e: Entry, time: int)
      requires ValidBut({e}) && e in all
      modifies e`begin, e`end, e`startPrepare, e`backoff
      ensures ValidBut({e}) && e.Value() == ProcessRepeated(old(e.Value()), time, offset, true)
    {
      hide ValidBut, ProcessRepeated, WellFormed, Entry.Has;
      LooseIs(e);
      RepeatedIsIdempotent(e.Value(), time, offset, true);
      RepeatedKeeps(e.Value(), time);
      e.ProcessRepeats(time, offset, true);
      LooseEdited(e);
    }

    lemma RepeatedKeeps(v: Val, time: int)
      requires WellFormed(v)
      ensures var r := ProcessRepeated(v, time, offset, true);
              r.state == v.state && Holds(r) == Holds(v) && Evolves(v, r) && (v.repeated == 0 ==> r == v)
    {
    }

    /** A disabled entry, and one that is over and does not repeat, stays so. */
    lemma NotFiled(v: Val, time: int)
      requires WellFormed(v) && v.state == WAITING && (v.disabled || (v.end <= time && v.repeated == 0))
      ensures var r := ProcessRepeated(v, time, offset, true);
              r.state == WAITING && (r.disabled || r.end <= time)
    {
    }

    method FileActive(e: Entry, time: int)
      requires ValidBut({e}) && e in all && e.state < ENDED
      modifies `timerList
      ensures Valid() && Ran(old(Now()), Now(), {e}, time, keepTimers) && e in timerList
      ensures Work(timerList, time) == old(Work(timerList, time)) + Rank(e.Value(), time)
    {
      hide ValidBut, Ran, Rank, Work;
      NowIsValid({e});
      ghost var before := Now();
      ToTimerList(e, time);
      RanFiling(before, Now(), e, time, keepTimers);
    }

    method FileEnded(e: Entry, time: int)
      requires ValidBut({e}) && e in all && !Holds(e.Value())
      modifies `processedTimers, e`state
      ensures Valid() && Ran(old(Now()), Now(), {e}, time, keepTimers) && e in processedTimers && e !in timerList
      ensures Work(timerList, time) == old(Work(timerList, time))
    {
      hide ValidBut, Ran, Rank, NextActivation;
      NowIsValid({e});
      ghost var before := Now();
      EndLoose(e);
      ToProcessed(e);
      RanFiling(before, Now(), e, time, keepTimers);
    }

    /** The part of `addTimerEntry` before the recalculation; `active` if the entry is pending now. */
    method FileEntry(e: Entry, time: int) returns (active: bool)
      requires ValidBut({e}) && e in all && WellFormed(e.Value())
      modifies `timerList, `processedTimers, e
      ensures Valid() && Ran(old(Now()), Now(), {e}, time, keepTimers)
      ensures if active then e in timerList else e in processedTimers && e !in timerList
      ensures var v := ProcessRepeated(old(e.Value()), time, offset, true);
              active <==> !(v.state == 0 && (v.disabled || v.end <= time)) && v.state != 3
      ensures Work(timerList, time) == old(Work(timerList, time))
              + if active then Rank(ProcessRepeated(old(e.Value()), time, offset, true), time) else 0
    {
      hide ProcessRepeated, Rank, NextActivation, Valid, ValidBut, Ran, Work, WellFormed, Evolves, Distinct, Sorted, StatesValid, Listed;
      ghost var before := Now();
      NowIsValid({e});
      LooseIs(e);
      RepeatedKeeps(e.Value(), time);
      RepeatLoose(e, time);
      ghost var between := Now();
      active := !(ShouldSkip(e.Value(), time) || e.state == ENDED || (e.state == WAITING && e.disabled));
      if active {
        FileActive(e, time);
      } else {
        FileEnded(e, time);
      }
      RanEdited(before, between, Now(), e, time, keepTimers);
    }

    /**
     `addTimerEntry`.  From the clock value `outage` on there is a service for
     every repeating entry; `now` is the clock afterwards.
     */
    method AddTimerEntry(e: Entry, time: int, noRecalc: bool, outage: int, ghost horizon: int) returns (now: int)
      requires ValidBut({e}) && e in all && WellFormed(e.Value())
      requires outage <= horizon && OverBy(Now(), horizon)
      modifies this, nav, all
      ensures Valid() && all == old(all)
      ensures time <= now && (time < now ==> time < horizon)
      ensures Ran(old(Now()), Now(), {e}, now, keepTimers)
      ensures Work(timerList, time) <= old(Work(timerList, time))
              + Rank(ProcessRepeated(old(e.Value()), time, offset, true), time)
      ensures !noRecalc ==> NothingDue(time) || (e in processedTimers && now == time)
      ensures old(e.state == WAITING && (e.disabled || (e.end <= time && e.repeated == 0))) ==> e in processedTimers && now == time
      decreases Left(horizon, time), Work(timerList, time) + Rank(ProcessRepeated(e.Value(), time, offset, true), time), 3
    {
      hide ProcessRepeated, Rank, NextActivation, Valid, ValidBut, Ran, Work, WellFormed, Evolves, OverBy;
      ghost var before := Now();
      now := time;
      if e.state == WAITING && (e.disabled || (e.end <= time && e.repeated == 0)) {
        NotFiled(e.Value(), time);
      }
      var active := FileEntry(e, time);
      if active && !noRecalc {
        ghost var between := Now();
        RanStaysOver(before, between, {e}, time, keepTimers, horizon);
        now := CalcNextActivation(time, outage, horizon);
        RanLater(before, between, {e}, time, now, keepTimers);
        RanTwice(before, between, Now(), {e}, {}, now, keepTimers);
      }
    }

    /** `calcNextActivation`, for a clock that has not gone back. */
    method CalcNextActivation(time: int, outage: int, ghost horizon: int) returns (now: int)
      requires Valid() && outage <= horizon && OverBy(Now(), horizon)
      modifies this, nav, all
      ensures Valid() && all == old(all)
      ensures time <= now && (time < now ==> time < horizon)
      ensures Ran(old(Now()), Now(), {}, now, keepTimers)
      ensures NothingDue(time) && Work(timerList, time) == 0
      ensures lastActivation == time
      ensures time + 1 <= next && forall e :: e in timerList ==> next <= NextActivation(e.Value())
      ensures next <= time + 100 && (time < 1072224000 ==> next <= time + 5)
      ensures next == time + 100 || (time < 1072224000 && next == time + 5)
              || exists e :: e in timerList && next == NextActivation(e.Value())
      decreases Left(horizon, time), Work(timerList, time), 2
    {
      hide ValidBut, Ran, Work, NextActivation, OverBy;
      now := ProcessActivation(time, outage, horizon);
      FrontIsEarliest();
      lastActivation := time;
      var min := time + 100;
      if timerList != [] {
        var w := NextActivation(timerList[0].Value());
        assert timerList[0] in timerList;
        if w < min {
          min := w;
        }
      }
      if time < 1072224000 && min > time + 5 {
        min := time + 5;
      }
      next := min;
    }

    /**
     Entries due at the start are processed from the front until the front is
     in the future.  That is fixed once, while the clock may move on.  The loop
     ends by itself for entries that record once: an entry without a service
     is over at some time.
     */
    method ProcessActivation(start: int, outage: int, ghost horizon: int) returns (now: int)
      requires Valid() && outage <= horizon && OverBy(Now(), horizon)
      modifies this, nav, all
      ensures Valid() && all == old(all)
      ensures start <= now && (start < now ==> start < horizon)
      ensures Ran(old(Now()), Now(), {}, now, keepTimers)
      ensures NothingDue(start) && Work(timerList, start) == 0
      decreases Left(horizon, start), Work(timerList, start), 1
    {
      hide ValidBut, Ran, Rank, Evolves, Work, Due, Stuck, NextActivation, OverBy;
      ghost var before := Now();
      NowIsValid({});
      RanNothing(before, start, keepTimers);
      now := start;
      while timerList != [] && NextActivation(timerList[0].Value()) < start + 1
        invariant Valid() && all == old(all)
        invariant start <= now && (start < now ==> start < horizon)
        invariant Ran(before, Now(), {}, now, keepTimers)
        invariant now == start ==> Work(timerList, start) <= old(Work(timerList, start))
        decreases Left(horizon, now), Work(timerList, now)
      {
        ghost var between, clock := Now(), now;
        RanStaysOver(before, between, {}, now, keepTimers, horizon);
        var o := NextOutcome(timerList[0], now, outage);
        StuckOnlyBefore(timerList[0], start, now, o, outage, horizon);
        now := DoActivate(timerList[0], now, o, outage, horizon);
        RanLater(before, between, {}, clock, now, keepTimers);
        RanTwice(before, between, Now(), {}, {}, now, keepTimers);
      }
      FrontIsFirst(start);
    }

    /** An entry gets stuck only before the horizon. */
    lemma StuckOnlyBefore(e: Entry, start: int, now: int, o: Outcome, outage: int, horizon: int)
      requires Valid() && e in timerList && OverBy(Now(), horizon) && outage <= horizon && start <= now
      requires NextActivation(e.Value()) < start + 1
      requires Stuck(e.Value(), now, o) && e.repeated != 0 ==> now < outage
      ensures Due(e.Value(), now) && (Stuck(e.Value(), now, o) ==> now < horizon)
    {
      hide Sorted, Distinct, NextActivation, WellFormed;
      assert Now().vals[e] == e.Value();
    }

    lemma FrontIsEarliest()
      requires Valid()
      ensures forall e :: e in timerList ==> NextActivation(timerList[0].Value()) <= NextActivation(e.Value())
    {
    }

    lemma FrontIsFirst(time: int)
      requires Valid()
      requires timerList == [] || !(NextActivation(timerList[0].Value()) < time + 1)
      ensures NothingDue(time) && Work(timerList, time) == 0
    {
      NoWorkIfNothingDue(timerList, time);
    }

    /** What the receiver answers next: anything, except that a repeating entry has a service after the outage. */
    method NextOutcome(e: Entry, now: int, outage: int) returns (o: Outcome)
      ensures Stuck(e.Value(), now, o) && e.repeated != 0 ==> now < outage
    {
      o := *;
      if o.prepare == NoService && e.repeated != 0 && outage <= now {
        o := o.(prepare := PrepareFails);
      }
    }

    /** The clock after a while. */
    method Later(time: int) returns (now: int)
      ensures now > time
    {
      var seconds: int := *;
      now := time + if seconds > 0 then seconds else 1;
    }

    /** `ValidBut({w})`, except that `w`, whose key may have moved, is still on the pending list. */
    ghost predicate Midway(w: Entry)
      reads `timerList, `processedTimers, `all, nav, all
    {
      && nav.Valid() && w in all
      && Distinct(timerList) && Distinct(processedTimers)
      && (forall e :: e in timerList ==> e in all && e !in processedTimers && (e != w ==> WAITING <= e.state < ENDED))
      && (forall e :: e in processedTimers ==> e in all && e != w && e.state == ENDED)
      && (forall e :: e in all ==> ValidState(e.state) && WellFormed(e.Value()) && e.Linked(nav))
      && (forall e :: e in all && e != w && e !in timerList ==> e.state == ENDED)
      && (forall h :: h in nav.owner ==> nav.owner[h] in all)
      && (forall e :: e in nav.callbacks ==> e in all)
      && SortedBut(timerList, w)
    }

    /** Recorder changes of `w` do not touch another entry. */
    twostate lemma LinksKept(w: Entry)
      requires all == old(all)
      requires forall e :: e in all && e != w ==> unchanged(e) && old(e.Linked(nav))
      requires nav.OthersAs(w, old(nav.owner), old(nav.callbacks))
      ensures forall e :: e in all && e != w ==> e.Linked(nav)
    {
      forall e | e in all && e != w ensures e.Linked(nav) {
        assert nav.callbacks[e] == nav.callbacks[w := 0][e] == old(nav.callbacks)[w := 0][e];
      }
    }

    twostate lemma NavKept(w: Entry)
      requires w in all && all == old(all)
      requires old(forall h :: h in nav.owner ==> nav.owner[h] in all)
      requires old(forall e :: e in nav.callbacks ==> e in all)
      requires nav.OthersAs(w, old(nav.owner), old(nav.callbacks))
      ensures forall h :: h in nav.owner ==> nav.owner[h] in all
      ensures forall e :: e in nav.callbacks ==> e in all
    {
      forall e | e in nav.callbacks ensures e in all {
        if e != w {
          assert nav.callbacks[w := 0][e] > 0;
        }
      }
    }

    method StepEntry(w: Entry, time: int, o: Outcome)
      requires nav.Valid() && w.Linked(nav) && WAITING <= w.state < ENDED
      modifies w, nav
      ensures w.Value() == Stepped(old(w.Value()), time, o)
      ensures nav.Valid() && w.Linked(nav) && nav.OthersAs(w, old(nav.owner), old(nav.callbacks))
    {
      if ShouldSkip(w.Value(), time) {
        w.state := ENDED;
      } else {
        var accepted := w.Activate(nav, time, o);
        if accepted {
          w.state := w.state + 1;
        }
      }
    }

    method StepInList(w: Entry, time: int, o: Outcome)
      requires Midway(w) && w in timerList && WAITING <= w.state < ENDED
      modifies w, nav
      ensures Midway(w) && w.Value() == Stepped(old(w.Value()), time, o)
    {
      hide Distinct, Stepped, NextActivation;
      SteppingEvolves(w.Value(), time, offset, o);
      StepEntry(w, time, o);
      LinksKept(w);
      NavKept(w);
    }

    method Unlist(w: Entry)
      requires Midway(w) && w in timerList
      modifies `timerList
      ensures ValidBut({w}) && timerList == RemoveFrom(old(timerList), w)
    {
      hide NextActivation, Distinct, WellFormed, Entry.Has, RemoveFrom;
      RemoveElements(timerList, w);
      RemoveDistinct(timerList, w);
      RemoveSorted(timerList, w);
      timerList := RemoveFrom(timerList, w);
    }

    /** The first part of `doActivate`: the entry takes its step and leaves the pending list. */
    method Step(w: Entry, time: int, o: Outcome)
      requires Midway(w) && w in timerList && WAITING <= w.state < ENDED
      modifies `timerList, w, nav
      ensures ValidBut({w}) && w.Value() == Stepped(old(w.Value()), time, o)
      ensures TakenOff(old(Now()), Now(), w)
      ensures old(Work(timerList, time)) == Work(timerList, time) + Rank(old(w.Value()), time)
    {
      hide ValidBut, Midway, Stepped, NextActivation, Rank, Evolves, WellFormed;
      ghost var list := timerList;
      ghost var rest := RemoveFrom(list, w);
      MidwayIsValid(w);
      SteppingEvolves(w.Value(), time, offset, o);
      WorkOfRemove(list, w, time);
      RemoveElements(list, w);
      RemoveDistinct(list, w);
      ghost var work := Work(rest, time);
      StepInList(w, time, o);
      assert Work(rest, time) == work;
      Unlist(w);
    }

    /** Only the loose entry was edited, and it still has a recorder if it must. */
    twostate lemma LooseEdited(e: Entry)
      requires old(ValidBut({e})) && e in all
      requires unchanged(`timerList) && unchanged(`processedTimers) && unchanged(`all) && unchanged(nav)
      requires forall x :: x in all && x != e ==> unchanged(x)
      requires ValidState(e.state) && WellFormed(e.Value()) && e.Linked(nav)
      ensures ValidBut({e})
    {
      hide NextActivation, WellFormed, Distinct;
    }

    lemma SameRepetition(v: Val, w: Val)
      requires WellFormed(v) && w.repeated == v.repeated
      ensures WellFormed(w)
    {
    }

    lemma LooseIs(e: Entry)
      requires ValidBut({e}) && e in all
      ensures ValidState(e.state) && WellFormed(e.Value()) && e.Linked(nav) && e !in timerList
    {
    }

    /** A repeating entry that has ended: on to its next occurrence, still outside the lists. */
    method Restart(w: Entry, time: int)
      requires ValidBut({w}) && w in all && w.state == ENDED && w.repeated != 0
      modifies w
      ensures ValidBut({w}) && w.Value() == Restarted(old(w.Value()), time, offset)
      ensures Work(timerList, time) == old(Work(timerList, time))
    {
      hide ValidBut, ProcessRepeated, WellFormed, Entry.Has;
      LooseIs(w);
      RepeatedIsIdempotent(w.Value(), time, offset, true);
      RepeatedKeeps(w.Value(), time);
      ghost var v := ProcessRepeated(w.Value(), time, offset, true);
      w.ProcessRepeats(time, offset, true);
      w.state := WAITING;
      w.firstTryPrepare := true;
      SameRepetition(v, w.Value());
      LooseEdited(w);
    }

    /** An entry that has ended for good: old processed entries go, this one is filed. */
    method Retire(w: Entry, time: int)
      requires ValidBut({w}) && w in all && w.state == ENDED
      modifies `processedTimers
      ensures Valid() && Ran(old(Now()), Now(), {w}, time, keepTimers)
    {
      hide ValidBut, NextActivation, WellFormed;
      NowIsValid({w});
      ghost var before := Now();
      DropOld(w, time);
      ghost var between := Now();
      ToProcessed(w);
      RanDropping(before, between, Now(), w, time, keepTimers);
    }

    /** `cleanupDaily` while `w` is in neither list. */
    method DropOld(w: Entry, time: int)
      requires ValidBut({w})
      modifies `processedTimers
      ensures ValidBut({w})
      ensures forall e :: e in processedTimers ==> e in old(processedTimers)
      ensures forall e :: e in old(processedTimers) && e !in processedTimers ==> Droppable(e.Value(), time, keepTimers)
    {
      hide NextActivation, Sorted, WellFormed;
      CleanupDaily(keepTimers, time);
    }

    /** The values with which an ended entry is filed. */
    function Refiled(v: Val, time: int): Val
      requires WellFormed(v)
    {
      if v.repeated != 0 then Restarted(v, time, offset) else v
    }

    /** The end of `doActivate` for an entry that has ended: started again, or put away. */
    method Refile(w: Entry, time: int, outage: int, ghost horizon: int) returns (now: int)
      requires ValidBut({w}) && w in all && WellFormed(w.Value()) && w.state == ENDED
      requires outage <= horizon && OverBy(Now(), horizon)
      modifies this, nav, all
      ensures Valid() && all == old(all)
      ensures time <= now && (time < now ==> time < horizon)
      ensures Ran(old(Now()), Now(), {w}, now, keepTimers)
      ensures Work(timerList, time) <= old(Work(timerList, time)) + Rank(Refiled(old(w.Value()), time), time)
      decreases Left(horizon, time), Work(timerList, time) + Rank(Refiled(w.Value(), time), time), 4
    {
      hide ValidBut, Ran, Restarted, ProcessRepeated, Rank, Work, Evolves, WellFormed, NextActivation;
      ghost var before := Now();
      NowIsValid({w});
      if w.repeated != 0 {
        RestartedIsFixed(w.Value(), time, offset);
        RestartedEvolves(w.Value(), time);
        Restart(w, time);
        ghost var restarted := Now();
        OnlyRepeats(before, restarted, w, horizon);
        now := AddTimerEntry(w, time, false, outage, horizon);
        RanEdited(before, restarted, Now(), w, now, keepTimers);
      } else {
        Retire(w, time);
        now := time;
      }
    }

    lemma RestartedEvolves(v: Val, time: int)
      requires WellFormed(v) && v.repeated != 0
      ensures Evolves(v, Restarted(v, time, offset)) && Restarted(v, time, offset).repeated == v.repeated
    {
      hide FirstDay;
    }

    /** Restarting a repeating entry leaves the horizon as it is. */
    lemma OnlyRepeats(s: Snapshot, t: Snapshot, e: Entry, horizon: int)
      requires OverBy(s, horizon) && t.vals.Keys == s.vals.Keys
      requires forall x :: x in s.vals && x != e ==> t.vals[x] == s.vals[x]
      requires e in t.vals && t.vals[e].repeated != 0
      ensures OverBy(t, horizon)
    {
    }

    /** `doActivate`.  An attempt that finds no service takes time and changes a flag; any other one is progress. */
    method DoActivate(w: Entry, time: int, o: Outcome, outage: int, ghost horizon: int) returns (now: int)
      requires Valid() && w in timerList && Due(w.Value(), time)
      requires outage <= horizon && OverBy(Now(), horizon) && (Stuck(w.Value(), time, o) ==> time < horizon)
      modifies this, nav, all
      ensures Valid() && all == old(all)
      ensures time <= now && (time < now ==> time < horizon)
      ensures Ran(old(Now()), Now(), {}, now, keepTimers)
      ensures if old(Stuck(w.Value(), time, o)) then time < now else Work(timerList, time) < old(Work(timerList, time))
      decreases Left(horizon, time), Work(timerList, time), 0
    {
      hide ValidBut, Midway, Ran, Stepped, Refiled, Rank, Work, Evolves, Due, Stuck, WellFormed, TakenOff, NextActivation, OverBy;
      var later := Later(time);
      var stuck := Stuck(w.Value(), time, o);
      ghost var before, v := Now(), w.Value();
      NowIsValid({});
      PendingIsActive(w);
      StepProgress(v, time, o);
      Step(w, time, o);
      ghost var between := Now();
      TakenOffStaysOver(before, between, w, horizon);
      if w.state < ENDED {
        FileActive(w, time);
        now := if stuck then later else time;
        RanLater(between, Now(), {w}, time, now, keepTimers);
      } else {
        now := Refile(w, time, outage, horizon);
      }
      RanAround(before, between, Now(), w, now, keepTimers);
    }

    /** Unless it is stuck, an entry is filed again with a lower rank; a stuck one does not end. */
    lemma StepProgress(v: Val, time: int, o: Outcome)
      requires WellFormed(v) && ValidState(v.state) && v.state != ENDED && Due(v, time)
      ensures var s := Stepped(v, time, o);
              && WellFormed(s) && ValidState(s.state)
              && (Stuck(v, time, o) ==> s.state != ENDED)
              && (!Stuck(v, time, o) ==> Rank(if s.state == ENDED then Refiled(s, time) else s, time) < Rank(v, time))
    {
      hide ProcessRepeated, Rank, NextActivation, NextBackoff;
      ProgressIff(v, time, o);
      if Stepped(v, time, o).state == ENDED && v.repeated != 0 {
        RestartRanksLower(v, time, offset, o);
      }
    }

    /** processed_timers.remove: the entry must be there. */
    method OffProcessed(e: Entry)
      requires Valid() && e in processedTimers
      modifies `processedTimers
      ensures ValidBut({e}) && e in all && processedTimers == RemoveFrom(old(processedTimers), e)
    {
      hide ValidBut, Sorted, NextActivation, WellFormed, Distinct;
      ListsAreDistinct();
      RemoveElements(processedTimers, e);
      RemoveDistinct(processedTimers, e);
      processedTimers := RemoveFrom(processedTimers, e);
      TakenFromProcessed(e);
    }

    lemma ListsAreDistinct()
      requires Valid()
      ensures Distinct(timerList) && Distinct(processedTimers)
    {
    }

    /** One entry, and nothing else, was taken off the processed list. */
    twostate lemma TakenFromProcessed(e: Entry)
      requires old(Valid()) && e in old(processedTimers)
      requires unchanged(`timerList) && unchanged(`all) && unchanged(nav) && forall x :: x in all ==> unchanged(x)
      requires Distinct(processedTimers)
      requires forall x :: x in processedTimers <==> x in old(processedTimers) && x != e
      ensures ValidBut({e}) && e in all
    {
      hide NextActivation, WellFormed, Distinct;
    }

    /** The entry's own `timeChanged`, and a new start for one that had ended. */
    method Refresh(e: Entry)
      requires ValidBut({e}) && e in all
      modifies e
      ensures ValidBut({e})
      ensures e.Value() == TimeChanged(old(e.Value())).(state := if old(e.state) == ENDED then WAITING else old(e.state))
      ensures forall time :: Work(timerList, time) == old(Work(timerList, time))
    {
      hide ValidBut, WellFormed, Entry.Has;
      LooseIs(e);
      ghost var v := e.Value();
      e.TimeChanges();
      if e.state == ENDED {
        e.state := WAITING;
      }
      SameRepetition(v, e.Value());
      LooseEdited(e);
    }

    /**
     The timer's `timeChanged`: the entry is taken out and handed in again, an
     ended one as waiting.  Its times may have been edited while it was listed.
     */
    method EntryChanged(e: Entry, time: int, outage: int) returns (now: int)
      requires if e in timerList then Midway(e) && e.state < ENDED else Valid() && e in processedTimers
      modifies this, nav, all
      ensures Valid() && all == old(all) && time <= now
      ensures old(e in timerList) ==> Ran(old(Now()), Now(), {}, now, keepTimers)
      ensures NothingDue(time) || e in processedTimers
      ensures old(e in timerList && ShouldSkip(e.Value(), time) && e.repeated == 0) ==> e in processedTimers
    {
      hide ValidBut, Midway, Distinct, NextActivation, ProcessRepeated, Rank, Ran, Evolves, TakenOff, WellFormed;
      ghost var before, pending := Now(), e in timerList;
      PendingOrEnded(e);
      TakeOff(e);
      ghost var edited := Now();
      ghost var horizon := Horizon(edited.vals, outage);
      now := AddTimerEntry(e, time, false, outage, horizon);
      if pending {
        RanAround(before, edited, Now(), e, now, keepTimers);
      }
    }

    method TakeOff(e: Entry)
      requires if e in timerList then Midway(e) && e.state < ENDED else Valid() && e in processedTimers
      modifies `timerList, `processedTimers, e
      ensures ValidBut({e}) && e in all && WellFormed(e.Value())
      ensures e.Value() == TimeChanged(old(e.Value())).(state := if old(e.state) == ENDED then WAITING else old(e.state))
      ensures old(e in timerList) ==> StatesValid(old(Now())) && TakenOff(old(Now()), Now(), e)
    {
      hide ValidBut, Midway, NextActivation;
      ghost var before, pending := Now(), e in timerList;
      if e in timerList {
        MidwayIsValid(e);
        Unlist(e);
      } else {
        NowIsValid({});
        OffProcessed(e);
      }
      ghost var between := Now();
      Refresh(e);
      NowIsValid({e});
      assert WellFormed(Now().vals[e]);
      if pending {
        TakenOffEdited(before, between, Now(), e);
      }
    }

    method CancelListed(e: Entry, time: int)
      requires Valid() && (e in timerList || e in processedTimers)
      modifies e
      ensures if e in timerList then Midway(e) && e.state < ENDED else Valid()
      ensures e in all && e.end == time && e.begin <= time && e.cancelled && e.repeated == 0 && !e.autoincrease
      ensures e.state == old(e.state)
    {
      hide ValidBut, Midway, WellFormed, Entry.Has;
      ListedIs(e);
      e.Cancel(time);
      WithoutRepeats(e.Value());
      TimesEdited(e);
    }

    lemma WithoutRepeats(v: Val)
      requires v.repeated == 0
      ensures WellFormed(v)
    {
    }

    /**
     `removeEntry`.  The removed entry holds no recorder and is in no list.  It
     is `found` among the processed ones, from which it is taken, unless the
     clock has run past the days that old entries are kept.
     */
    method RemoveEntry(e: Entry, time: int, outage: int) returns (found: bool, now: int)
      requires Valid() && (e in timerList || e in processedTimers)
      modifies this, nav, all
      ensures Valid() && all == old(all) && time <= now
      ensures e !in timerList && e !in processedTimers
      ensures e.state == ENDED && e.recordService == None && nav.callbacks[e] == 0
      ensures forall h :: h in nav.owner ==> nav.owner[h] != e
      ensures time != 0 && now - time < keepTimers * DAY ==> found
    {
      hide ValidBut, Midway, Ran;
      ListedIsKnown(e);
      CancelListed(e, time);
      PendingOrEnded(e);
      ghost var before := Now();
      now := time;
      if e.state != ENDED {
        assert before.vals[e] == e.Value();
        now := EntryChanged(e, time, outage);
        RemovedIsProcessed(before, e, time, now);
      }
      found := e in processedTimers;
      if found {
        ProcessedIsEnded(e);
        OffProcessed(e);
        LooseIsApart(e);
      }
      UnlistedIsFree(e);
    }

    lemma ListedIsKnown(e: Entry)
      requires Valid() && (e in timerList || e in processedTimers)
      ensures e in all
    {
    }

    lemma ProcessedIsEnded(e: Entry)
      requires Valid() && e in processedTimers
      ensures e.state == ENDED
    {
    }

    lemma PendingOrEnded(e: Entry)
      requires if e in timerList then Midway(e) && e.state < ENDED else Valid() && e in processedTimers
      ensures e in all && ValidState(e.state) && (e.state == ENDED <==> e in processedTimers)
    {
    }

    lemma RemovedIsProcessed(before: Snapshot, e: Entry, time: int, now: int)
      requires Valid() && e in all && e in before.vals && e in before.timers && time <= now
      requires Ran(before, Now(), {}, now, keepTimers) && (NothingDue(time) || e in processedTimers)
      requires var v := before.vals[e];
               && v.end == time && v.begin <= time && v.cancelled && v.repeated == 0 && !v.autoincrease
               && WAITING <= v.state < ENDED && (v.state == WAITING ==> e in processedTimers)
      ensures e !in timerList
      ensures time != 0 && now - time < keepTimers * DAY ==> e in processedTimers
    {
      hide Sorted, Distinct;
      assert Now().vals[e] == e.Value();
      assert e in timerList && WAITING < e.state ==> Due(e.Value(), time);
    }

    lemma UnlistedIsFree(e: Entry)
      requires e in all && e !in timerList && e !in processedTimers
      requires Valid() || (ValidBut({e}) && e.state == ENDED)
      ensures Valid() && e.state == ENDED
      ensures e.recordService == None && nav.callbacks[e] == 0
      ensures forall h :: h in nav.owner ==> nav.owner[h] != e
    {
    }

    /** The end of `record`: a new entry is handed in. */
    method Record(e: Entry, time: int, outage: int) returns (now: int)
      requires Valid() && e !in all && e.state == WAITING && e.recordService == None && WellFormed(e.Value())
      modifies this, nav, all, e
      ensures Valid() && all == old(all) + {e} && time <= now
      ensures NothingDue(time) || e in processedTimers
    {
      hide Ran, ProcessRepeated, Rank;
      Adopt(e);
      ghost var horizon := Horizon(Now().vals, outage);
      now := AddTimerEntry(e, time, false, outage, horizon);
    }

    ghost method Adopt(e: Entry)
      requires Valid() && e !in all && e.state == WAITING && e.recordService == None && WellFormed(e.Value())
      modifies `all
      ensures ValidBut({e}) && all == old(all) + {e}
    {
      hide Sorted, Distinct, WellFormed, Entry.Has, NextActivation;
      StrangerIsLinked(e);
      all := all + {e};
    }

    lemma StrangerIsLinked(e: Entry)
      requires Valid() && e !in all && e.state == WAITING && e.recordService == None
      ensures e.Linked(nav)
    {
    }

    /** A user edits a listed entry, and `timeChanged` follows. */
    method Reschedule(e: Entry, d: Edits, time: int, outage: int) returns (now: int)
      requires Valid() && (e in timerList || e in processedTimers) && Possible(d) && KeepsKind(e.Value(), d)
      modifies this, nav, all
      ensures Valid() && all == old(all) && time <= now
      ensures NothingDue(time) || e in processedTimers
    {
      hide ValidBut, Midway, Ran;
      ListedIsKnown(e);
      ApplyEdits(e, d);
      now := EntryChanged(e, time, outage);
    }

    lemma ListedIs(e: Entry)
      requires Valid() && (e in timerList || e in processedTimers)
      ensures e in all && ValidState(e.state) && WellFormed(e.Value()) && e.Linked(nav)
      ensures e in timerList ==> e.state < ENDED
    {
    }

    /** Only the times of one listed entry were edited: a pending one may be out of order now. */
    twostate lemma TimesEdited(e: Entry)
      requires old(Valid()) && e in all && (e in timerList || e in processedTimers)
      requires unchanged(`timerList) && unchanged(`processedTimers) && unchanged(`all) && unchanged(nav)
      requires forall x :: x in all && x != e ==> unchanged(x)
      requires e.state == old(e.state) && WellFormed(e.Value()) && e.Linked(nav)
      ensures if e in timerList then Midway(e) else Valid()
    {
      hide NextActivation, WellFormed, Distinct;
    }

    method ApplyEdits(e: Entry, d: Edits)
      requires Valid() && (e in timerList || e in processedTimers) && Possible(d) && KeepsKind(e.Value(), d)
      modifies e
      ensures if e in timerList then Midway(e) && e.state < ENDED else Valid() && e in processedTimers
    {
      hide ValidBut, Midway, Entry.Has, KeepsKind, Repeatable;
      ListedIs(e);
      e.EditKeepsRecorderIff(nav, d);
      e.Edit(d);
      TimesEdited(e);
    }

    /** Switching the automatic extension of a listed entry, without `timeChanged`. */
    method SetExtension(e: Entry, autoincrease: bool)
      requires Valid() && (e in timerList || e in processedTimers)
      modifies e`autoincrease
      ensures Valid()
    {
      hide ValidBut, WellFormed, Entry.Has;
      ListedIs(e);
      ghost var v := e.Value();
      e.autoincrease := autoincrease;
      SameRepetition(v, e.Value());
      KeyKept(e);
    }

    /** One listed entry was edited, but neither its state nor its place in the order. */
    twostate lemma KeyKept(e: Entry)
      requires old(Valid()) && e in all
      requires unchanged(`timerList) && unchanged(`processedTimers) && unchanged(`all) && unchanged(nav)
      requires forall x :: x in all && x != e ==> unchanged(x)
      requires e.state == old(e.state) && WellFormed(e.Value()) && e.Linked(nav)
      requires NextActivation(e.Value()) == old(NextActivation(e.Value()))
      ensures Valid()
    {
      hide NextActivation, WellFormed, Distinct;
    }

    /**
     Stopping the current occurrence of a running repeating entry: its times are
     moved on while it is listed, and it is activated although it is not due.
     */
    method StopOccurrence(e: Entry, time: int, outage: int) returns (now: int)
      requires Valid() && e in timerList && e.state == RUNNING && e.repeated != 0
      modifies this, nav, all
      ensures Valid() && all == old(all) && time <= now
    {
      hide ValidBut, Midway, Ran, WellFormed, Entry.Has, ProcessRepeated, Restarted, Stepped;
      ListedIsKnown(e);
      MoveOn(e, time);
      var o: Outcome := *;
      MidwayIsValid(e);
      SteppingEvolves(e.Value(), time, offset, o);
      Step(e, time, o);
      now := time;
      if e.state < ENDED {
        FileActive(e, time);
      } else {
        ghost var horizon := Horizon(Now().vals, outage);
        now := Refile(e, time, outage, horizon);
      }
    }

    method MoveOn(e: Entry, time: int)
      requires Valid() && e in timerList && e.state == RUNNING
      modifies e
      ensures Midway(e) && e in all && e.state == RUNNING
    {
      hide ValidBut, Midway, WellFormed, Entry.Has, ProcessRepeated;
      ListedIs(e);
      ghost var v := e.Value();
      e.disabled := false;
      SameRepetition(v, e.Value());
      RepeatedKeepsKind(e.Value(), time);
      e.ProcessRepeats(time, offset, false);
      TimesEdited(e);
    }

    lemma RepeatedKeepsKind(v: Val, time: int)
      requires WellFormed(v)
      ensures var r := ProcessRepeated(v, time, offset, false);
              r.state == v.state && Holds(r) == Holds(v) && WellFormed(r)
    {
      hide FirstDay;
    }

    /** `calcNextActivation`, called by the clock. */
    method Tick(time: int, outage: int) returns (now: int)
      requires Valid()
      modifies this, nav, all
      ensures Valid() && all == old(all) && time <= now && NothingDue(time)
    {
      hide ValidBut, Ran;
      ghost var horizon := Horizon(Now().vals, outage);
      now := CalcNextActivation(time, outage, horizon);
    }

    predicate InAList(e: Entry)
      reads `timerList, `processedTimers
    {
      e in timerList || e in processedTimers
    }

    /**
     One command; the `k`th entry is the `k`th that is known, and a new one is
     known from then on.  Edits that turn a prepared or running entry around are
     not among them: `EditKeepsRecorderIff`.
     */
    method Perform(c: Command, known: seq<Entry>, start: int) returns (known': seq<Entry>, now: int)
      requires Valid() && (c.Add? || c.Edit? ==> Possible(c.edits))
      requires forall e :: e in known ==> e in all
      modifies this, nav, all
      ensures Valid() && old(all) <= all && fresh(all - old(all))
      ensures known <= known' && forall e :: e in known' ==> e in all
      ensures start + c.seconds <= now
    {
      hide ValidBut, Ran, Repeatable, KeepsKind;
      var time, outage := start + c.seconds, start + c.seconds + c.outage;
      known', now := known, time;
      match c
      case Tick(_, _) => now := Tick(time, outage);
      case Add(_, _, d) =>
        var e := new Entry(d.begin, d.end, d.repeated, d.disabled, d.justplay, d.autoincrease);
        known' := known + [e];
        now := Record(e, time, outage);
      case Remove(_, _, k) =>
        if k < |known| && InAList(known[k]) {
          var found;
          found, now := RemoveEntry(known[k], time, outage);
        }
      case Edit(_, _, k, d) =>
        if k < |known| && InAList(known[k]) && KeepsKind(known[k].Value(), d) {
          now := Reschedule(known[k], d, time, outage);
        }
      case Extend(_, _, k, on) =>
        if k < |known| && InAList(known[k]) {
          SetExtension(known[k], on);
        }
      case Stop(_, _, k, comingToo) =>
        if k < |known| && known[k] in timerList && known[k].state == RUNNING && known[k].repeated != 0 {
          now := StopAndDisable(known[k], comingToo, time, outage);
        }
    }

    /** The answers to "Stop current event ..." of the timer list. */
    method StopAndDisable(e: Entry, comingToo: bool, time: int, outage: int) returns (now: int)
      requires Valid() && e in timerList && e.state == RUNNING && e.repeated != 0
      modifies this, nav, all
      ensures Valid() && all == old(all) && time <= now
    {
      hide ValidBut, Ran, WellFormed;
      now := StopOccurrence(e, time, outage);
      if InAList(e) {
        ListedIs(e);
        var d := AsIs(e.Value());
        AsIsIsPossible(e.Value());
        now := Reschedule(e, d.(disabled := d.disabled || comingToo), now, outage);
      }
    }

    lemma AsIsIsPossible(v: Val)
      requires WellFormed(v)
      ensures Possible(AsIs(v))
    {
    }

    /**
     Any run, from the empty timer or any later state on: entries are added,
     removed, edited and stopped and the clock calls, in any order, and any
     activation may find no service.
     Every entry the timer has ever seen holds a recorder, with exactly one
     subscription, if and only if it records and is prepared or running; and
     no recorder is in use by anything else.
     */
    method Run(commands: seq<Command>, known: seq<Entry>, start: int)
      requires Valid() && forall e :: e in known ==> e in all
      requires forall c :: c in commands && (c.Add? || c.Edit?) ==> Possible(c.edits)
      modifies this, nav, all
      ensures Valid() && old(all) <= all && fresh(all - old(all))
      ensures forall e :: e in all ==>
                && (e.recordService.Some? <==> Holds(e.Value()))
                && nav.callbacks[e] == (if Holds(e.Value()) then 1 else 0)
                && (e.recordService.Some? ==> e.recordService.value in nav.live)
      ensures forall h :: h in nav.live ==> nav.owner[h] in timerList && nav.owner[h].recordService == Some(h)
    {
      var time, entries := start, known;
      for i := 0 to |commands|
        invariant Valid() && old(all) <= all && fresh(all - old(all))
        invariant forall e :: e in entries ==> e in all
      {
        hide ValidBut, Repeatable;
        entries, time := Perform(commands[i], entries, time);
      }
    }
  }

  /** What is asked of the timer, after some seconds, with repeating entries without a service for some seconds more. */
  datatype Command =
    | Tick(seconds: nat, outage: nat)
    | Add(seconds: nat, outage: nat, edits: Edits)
    | Remove(seconds: nat, outage: nat, k: nat)
    | Edit(seconds: nat, outage: nat, k: nat, edits: Edits)
    | Extend(seconds: nat, outage: nat, k: nat, on: bool)
    | Stop(seconds: nat, outage: nat, k: nat, comingToo: bool)
}
