/**
 Which ECM PID of a channel is tried next (oscam/oscam_8249/module-dvbapi.c), in
 the mode that asks for one PID at a time and gives up after three rounds; and
 the search for a free descrambler index.
 */
module PidTrial {

  /** `status` is -1 for a PID to ignore, else its priority. */
  datatype Pid = Pid(status: int, checked: bool)

  const ROUNDS: int := 3

  /** PIDs whose priority the search visits: 0, or 1 up to the demuxer's `max_status`. */
  predicate Eligible(p: Pid, max: int) {
    p.status == 0 || 1 <= p.status <= max
  }

  predicate Waiting(p: Pid, max: int) {
    Eligible(p, max) && !p.checked
  }

  /** `n` is the waiting PID of highest priority, the first of those; -1 if none waits. */
  ghost predicate IsPick(pids: seq<Pid>, max: int, n: int) {
    if n == -1 then forall i :: 0 <= i < |pids| ==> !Waiting(pids[i], max)
    else
      && 0 <= n < |pids| && Waiting(pids[n], max)
      && forall i :: 0 <= i < |pids| && Waiting(pids[i], max) ==> pids[i].status < pids[n].status || (pids[i].status == pids[n].status && n <= i)
  }

  function Pick(pids: seq<Pid>, max: int): (n: int)
    ensures IsPick(pids, max, n)
    decreases |pids|
  {
    if pids == [] then -1
    else
      var k := |pids| - 1;
      var b := Pick(pids[..k], max);
      if Waiting(pids[k], max) && (b == -1 || pids[k].status > pids[b].status) then k else b
  }

  lemma PickIsUnique(pids: seq<Pid>, max: int, n: int)
    requires IsPick(pids, max, n)
    ensures n == Pick(pids, max)
  {
  }

  function Checked(pids: seq<Pid>, n: nat): (r: seq<Pid>)
    requires n < |pids|
    ensures |r| == |pids|
  {
    pids[n := pids[n].(checked := true)]
  }

  function Unchecked(pids: seq<Pid>): seq<Pid> {
    seq(|pids|, i requires 0 <= i < |pids| => pids[i].(checked := false))
  }

  datatype State = State(pids: seq<Pid>, max: int, tries: nat, current: int)
  datatype Outcome = Tried(n: nat) | GaveUp

  /** One call of `dvbapi_try_next_caid`. */
  function Next(s: State): (r: (State, Outcome))
    decreases ROUNDS - s.tries
  {
    if s.tries >= ROUNDS then (s, GaveUp)
    else
      var n := Pick(s.pids, s.max);
      if n == -1 then Next(s.(pids := Unchecked(s.pids), tries := s.tries + 1))
      else (s.(pids := Checked(s.pids, n), current := n), Tried(n))
  }

  /** What `k` calls in a row do, each one after the PID tried before has failed. */
  function Outcomes(s: State, k: nat): (r: seq<Outcome>)
    ensures |r| == k
    decreases k
  {
    if k == 0 then [] else [Next(s).1] + Outcomes(Next(s).0, k - 1)
  }

  // -- one round

  ghost function WaitingSet(pids: seq<Pid>, max: int): set<nat> {
    set i: nat | i < |pids| && Waiting(pids[i], max)
  }

  lemma CheckingRemoves(pids: seq<Pid>, max: int, n: nat)
    requires n < |pids| && Waiting(pids[n], max)
    ensures WaitingSet(Checked(pids, n), max) == WaitingSet(pids, max) - {n}
    ensures |WaitingSet(Checked(pids, n), max)| < |WaitingSet(pids, max)|
  {
  }

  /** The order of one round. */
  ghost function Order(pids: seq<Pid>, max: int): (o: seq<nat>)
    ensures forall i :: 0 <= i < |o| ==> o[i] < |pids|
    decreases |WaitingSet(pids, max)|
  {
    var n := Pick(pids, max);
    if n == -1 then [] else
      CheckingRemoves(pids, max, n);
      [n] + Order(Checked(pids, n), max)
  }

  function Exhausted(pids: seq<Pid>, max: int): seq<Pid> {
    seq(|pids|, i requires 0 <= i < |pids| => if Eligible(pids[i], max) then pids[i].(checked := true) else pids[i])
  }

  /** Comes before in a round: higher priority, or the same and earlier in the table. */
  predicate Before(pids: seq<Pid>, a: nat, b: nat)
    requires a < |pids| && b < |pids|
  {
    pids[a].status > pids[b].status || (pids[a].status == pids[b].status && a < b)
  }

  lemma {:induction false} OrderIsSorted(pids: seq<Pid>, max: int)
    ensures var o := Order(pids, max);
            && (forall i :: i in o <==> i in WaitingSet(pids, max))
            && forall a, b :: 0 <= a < b < |o| ==> Before(pids, o[a], o[b])
    decreases |WaitingSet(pids, max)|
  {
    hide WaitingSet;
    var n := Pick(pids, max);
    if n == -1 {
      assert WaitingSet(pids, max) == {} by { NoneWaits(pids, max); }
    } else {
      CheckingRemoves(pids, max, n);
      OrderIsSorted(Checked(pids, n), max);
      var rest := Order(Checked(pids, n), max);
      forall b | 0 <= b < |rest|
        ensures Before(pids, n, rest[b])
      {
        assert rest[b] in rest;
        PickComesFirst(pids, max, rest[b]);
      }
      Prepended(pids, n, rest);
      PickWaits(pids, max);
    }
  }

  /** A round tries exactly the unchecked PIDs of priority 0 up to the maximum, each once, highest priority first, then in table order. */
  lemma OrderIsRight(pids: seq<Pid>, max: int)
    ensures var o := Order(pids, max);
            && (forall i: nat :: i in o <==>
                  (i < |pids| && !pids[i].checked && (pids[i].status == 0 || 1 <= pids[i].status <= max)))
            && forall a, b :: 0 <= a < b < |o| ==>
                 pids[o[a]].status > pids[o[b]].status || (pids[o[a]].status == pids[o[b]].status && o[a] < o[b])
  {
    hide Order;
    OrderIsSorted(pids, max);
  }

  lemma NoneWaits(pids: seq<Pid>, max: int)
    requires Pick(pids, max) == -1
    ensures WaitingSet(pids, max) == {}
  {
  }

  lemma PickWaits(pids: seq<Pid>, max: int)
    requires Pick(pids, max) != -1
    ensures Pick(pids, max) in WaitingSet(pids, max)
  {
  }

  lemma PickComesFirst(pids: seq<Pid>, max: int, i: nat)
    requires Pick(pids, max) != -1 && i in WaitingSet(pids, max) - {Pick(pids, max)}
    ensures i < |pids| && Before(pids, Pick(pids, max), i)
  {
  }

  lemma Prepended(pids: seq<Pid>, n: nat, rest: seq<nat>)
    requires n < |pids| && forall b :: 0 <= b < |rest| ==> rest[b] < |pids| && Before(pids, n, rest[b])
    requires forall a, b :: 0 <= a < b < |rest| ==> Before(Checked(pids, n), rest[a], rest[b])
    ensures var o := [n] + rest;
            && (forall b :: 0 <= b < |o| ==> o[b] < |pids|)
            && forall a, b :: 0 <= a < b < |o| ==> Before(pids, o[a], o[b])
  {
  }

  function Tries(o: seq<nat>): (r: seq<Outcome>)
    ensures |r| == |o|
  {
    seq(|o|, i requires 0 <= i < |o| => Tried(o[i]))
  }

  function GivingUp(k: nat): (r: seq<Outcome>)
    ensures |r| == k
  {
    seq(k, _ => GaveUp)
  }

  /** After a round: every PID the search visits is checked, the last one tried is the current one. */
  ghost function Ended(s: State): State {
    var o := Order(s.pids, s.max);
    s.(pids := Exhausted(s.pids, s.max), current := if o == [] then s.current else o[|o| - 1])
  }

  lemma StepInRound(s: State)
    requires s.tries < ROUNDS && Pick(s.pids, s.max) != -1
    ensures var n, t := Pick(s.pids, s.max), Next(s).0;
            && Next(s).1 == Tried(n) && t.max == s.max && t.tries == s.tries && t.pids == Checked(s.pids, n)
            && |WaitingSet(t.pids, t.max)| < |WaitingSet(s.pids, s.max)|
            && Order(s.pids, s.max) == [n] + Order(t.pids, t.max)
            && Exhausted(t.pids, t.max) == Exhausted(s.pids, s.max)
            && Ended(t) == Ended(s)
  {
    CheckingRemoves(s.pids, s.max, Pick(s.pids, s.max));
  }

  lemma {:induction false} OneRound(s: State, k: nat)
    requires s.tries < ROUNDS
    ensures var o := Order(s.pids, s.max);
            Outcomes(s, |o| + k) == Tries(o) + Outcomes(Ended(s), k)
    decreases |WaitingSet(s.pids, s.max)|
  {
    hide Order, Exhausted, Next;
    var o := Order(s.pids, s.max);
    if Pick(s.pids, s.max) == -1 {
      RoundOver(s);
    } else {
      StepInRound(s);
      var t := Next(s).0;
      OneRound(t, k);
      assert Tries(o) == [Next(s).1] + Tries(Order(t.pids, t.max));
    }
  }

  lemma RoundOver(s: State)
    requires Pick(s.pids, s.max) == -1
    ensures Order(s.pids, s.max) == [] && Ended(s) == s
  {
  }

  /** A call that tries a PID marks it alone, in the round in which it is found, and makes it the current one. */
  lemma {:induction false} TriedIsMarked(s: State)
    ensures var (t, r) := Next(s);
            t.tries >= s.tries &&
            match r
            case Tried(n) =>
              && n < |s.pids| && !(s.tries == t.tries && s.pids[n].checked) && t.current == n && t.tries <= 2
              && t.pids == (if t.tries == s.tries then s.pids else Unchecked(s.pids))[n := Pid(s.pids[n].status, true)]
            case GaveUp => t.current == s.current && t.tries >= 3
    decreases ROUNDS - s.tries
  {
    if s.tries < ROUNDS && Pick(s.pids, s.max) == -1 {
      var u := s.(pids := Unchecked(s.pids), tries := s.tries + 1);
      TriedIsMarked(u);
      assert Unchecked(u.pids) == u.pids;
      assert Next(s) == Next(u);
    }
  }

  /** When a round has ended, the next call starts the next one, or finds there is none left. */
  lemma NextRound(s: State, k: nat)
    requires s.tries < ROUNDS
    ensures Outcomes(Ended(s), k) == Outcomes(Ended(s).(pids := Unchecked(Ended(s).pids), tries := s.tries + 1), k)
  {
  }

  lemma {:induction false} NoMore(s: State, k: nat)
    requires s.tries >= ROUNDS
    ensures Outcomes(s, k) == GivingUp(k)
    decreases k
  {
    if k > 0 {
      NoMore(s, k - 1);
    }
  }

  /** From a fresh start: three equal rounds, then nothing but giving up, for any number of calls. */
  lemma ThreeRounds(s: State, k: nat)
    requires s.tries == 0 && Unchecked(s.pids) == s.pids
    ensures var o := Order(s.pids, s.max);
            Outcomes(s, |o| + |o| + |o| + k) == Tries(o) + Tries(o) + Tries(o) + GivingUp(k)
  {
    hide Order, Exhausted, Outcomes, Tries, Ended;
    var o := Order(s.pids, s.max);
    EndedIs(s);
    OneRound(s, |o| + |o| + k);
    NextRound(s, |o| + |o| + k);
    var t := Ended(s).(pids := Unchecked(Ended(s).pids), tries := 1);
    FreshAgain(s, t);
    EndedIs(t);
    OneRound(t, |o| + k);
    NextRound(t, |o| + k);
    var u := Ended(t).(pids := Unchecked(Ended(t).pids), tries := 2);
    FreshAgain(t, u);
    EndedIs(u);
    OneRound(u, k);
    NextRound(u, k);
    NoMore(Ended(u).(pids := Unchecked(Ended(u).pids), tries := 3), k);
  }

  lemma EndedIs(s: State)
    ensures Ended(s).pids == Exhausted(s.pids, s.max) && Ended(s).max == s.max && Ended(s).tries == s.tries
  {
  }

  lemma FreshAgain(s: State, t: State)
    requires Unchecked(s.pids) == s.pids && t.pids == Unchecked(Exhausted(s.pids, s.max)) && t.max == s.max
    ensures t.pids == s.pids && Order(t.pids, t.max) == Order(s.pids, s.max)
  {
  }

  /** A demuxer's part of the trial: the table of ECM PIDs and the counters. */
  class Demux {
    const pids: array<Pid>
    var max: int
    var tries: nat
    var current: int

    constructor (pids: array<Pid>, max: int)
      ensures this.pids == pids && Value() == State(pids[..], max, 0, -1)
    {
      this.pids, this.max, this.tries, this.current := pids, max, 0, -1;
    }

    ghost function Value(): State
      reads this, pids
    {
      State(pids[..], max, tries, current)
    }

    /** `dvbapi_try_next_caid`; -1 stands for giving up. */
    method TryNextCaid() returns (num: int)
      modifies this, pids
      ensures Value() == Next(old(Value())).0
      ensures Next(old(Value())).1 == if num < 0 then GaveUp else Tried(num)
      decreases ROUNDS - tries
    {
      hide Pick;
      if tries > 2 {
        return -1;
      }
      num := -1;
      ghost var s := Value();
      var start, end := 1, max;
      while true
        invariant num == -1 && ((start == 1 && end == max) || start == 0 == end)
        invariant start == 0 ==> forall i :: 0 <= i < pids.Length && Waiting(pids[i], max) ==> pids[i].status < 1
        modifies {}
        decreases start
      {
        num := Highest(start, end);
        if start == 0 || num > -1 { break; }
        start, end := 0, 0;
      }
      assert s.pids == pids[..] && s.max == max;
      assert num == -1 ==> forall i :: 0 <= i < pids.Length ==> !Waiting(pids[i], max);
      PickIsUnique(s.pids, s.max, num);
      if num == -1 {
        tries := tries + 1;
        ghost var before := pids[..];
        for n := 0 to pids.Length
          invariant forall i :: 0 <= i < pids.Length ==> pids[i] == if i < n then before[i].(checked := false) else before[i]
          modifies pids
        {
          pids[n] := pids[n].(checked := false);
        }
        assert pids[..] == Unchecked(before);
        assert Value() == s.(pids := Unchecked(s.pids), tries := s.tries + 1);
        assert Next(s) == Next(Value());
        num := TryNextCaid();
      } else {
        current := num;
        pids[num] := pids[num].(checked := true);
        assert pids[..] == Checked(s.pids, num);
      }
    }

    /** The two inner loops: from the largest status down, the first unchecked PID. */
    method Highest(start: int, end: int) returns (num: int)
      requires (start == 1 && end == max) || start == 0 == end
      requires start == 0 ==> forall i :: 0 <= i < pids.Length && Waiting(pids[i], max) ==> pids[i].status < 1
      ensures num == -1 ==> forall i :: 0 <= i < pids.Length && Waiting(pids[i], max) ==> pids[i].status < start
      ensures num != -1 ==> IsPick(pids[..], max, num)
    {
      num := -1;
      var j := end;
      while j >= start && num == -1
        invariant num == -1 ==> forall i :: 0 <= i < pids.Length && Waiting(pids[i], max) ==> pids[i].status <= j || pids[i].status < start
        invariant num != -1 ==> IsPick(pids[..], max, num)
        invariant j <= end
        decreases j - start, num == -1
      {
        var n := 0;
        while n < pids.Length && !(!pids[n].checked && pids[n].status == j)
          invariant 0 <= n <= pids.Length
          invariant forall i :: 0 <= i < n ==> !(!pids[i].checked && pids[i].status == j)
        {
          n := n + 1;
        }
        if n < pids.Length {
          num := n;
        }
        j := j - 1;
      }
    }
  }

  // -- the descrambler index

  ghost predicate Used(demux: seq<seq<int>>, idx: int) {
    exists i :: 0 <= i < |demux| && idx in demux[i]
  }

  function Most(s: seq<int>): (m: int)
    ensures m >= 0 && forall x :: x in s ==> x <= m
  {
    assert s != [] ==> s == [s[0]] + s[1..];
    if s == [] then 0 else if s[0] > Most(s[1..]) then s[0] else Most(s[1..])
  }

  function Bound(demux: seq<seq<int>>): (m: int)
    ensures m >= 0 && forall i, x :: 0 <= i < |demux| && x in demux[i] ==> x <= m
  {
    if demux == [] then 0 else if Most(demux[0]) > Bound(demux[1..]) then Most(demux[0]) else Bound(demux[1..])
  }

  /** `dvbapi_get_descindex`: the least positive index that no ECM PID of any demuxer has. */
  method GetDescIndex(demux: seq<seq<int>>) returns (idx: int)
    ensures idx >= 1 && !Used(demux, idx)
    ensures forall k :: 1 <= k < idx ==> Used(demux, k)
  {
    idx := 1;
    var fail := true;
    while fail
      invariant 1 <= idx <= Bound(demux) + 1
      invariant forall k :: 1 <= k < idx ==> Used(demux, k)
      invariant !fail ==> !Used(demux, idx)
      decreases Bound(demux) + 1 - idx, fail
    {
      fail := false;
      ghost var before := idx;
      for i := 0 to |demux|
        invariant before <= idx <= Bound(demux) + 1
        invariant forall k :: 1 <= k < idx ==> Used(demux, k)
        invariant fail ==> idx > before
        invariant !fail ==> idx == before && forall h :: 0 <= h < i ==> idx !in demux[h]
      {
        for j := 0 to |demux[i]|
          invariant idx !in demux[i][..j]
        {
          if demux[i][j] == idx {
            assert Used(demux, idx);
            idx := idx + 1;
            fail := true;
            break;
          }
        }
      }
    }
  }
}
