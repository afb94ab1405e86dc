/**
 The cache push among servers for one control word request (oscam/oscam_8249/
 module-cacheex.c, `cc_cache_push_chk/out/in` of module-cccam.c, and `chk_dcw`
 of oscam-ecm.c): a found answer is handed to every neighbour that is not on the
 list of nodes it came through.  A request that was given up and is answered
 after all is not handed on.
 */
module Gossip {
  import opened Sequences

  const E_CACHEEX: int := 3
  const E_NOTFOUND: int := 4
  const E_TIMEOUT: int := 5
  const E_99: int := 99
  const E_UNHANDLED: int := 100

  type NodeId = nat

  /** A node's cache entry for the request: result code, nodes it came through. */
  datatype Entry = Absent | Entry(rc: int, lastNodes: seq<NodeId>)

  /** A queued push, carried out later with the entry as it is then. */
  datatype Job = Job(from: NodeId, to: NodeId)

  datatype Push = Push(from: NodeId, to: NodeId, rc: int, nodes: seq<NodeId>)

  /** Neighbours, and a node's limit for each of them, are configuration; the rest is the state of the protocol. */
  datatype Config = Config(size: nat, neighbours: seq<seq<NodeId>>, maxHop: (NodeId, NodeId) -> int)

  datatype State = State(cache: seq<Entry>, jobs: seq<Job>, wire: seq<Push>)

  predicate ConfigOk(c: Config) {
    && |c.neighbours| == c.size
    && (forall n, i :: 0 <= n < c.size && 0 <= i < |c.neighbours[n]| ==>
          c.neighbours[n][i] < c.size && c.neighbours[n][i] != n)
  }

  /** What is pushed at all: found answers and open requests. */
  predicate Pushable(rc: int) {
    rc < E_NOTFOUND || rc == E_UNHANDLED
  }

  /** `cc_cache_push_chk`. */
  predicate MayPush(c: Config, e: Entry, from: NodeId, to: NodeId) {
    e.Entry? && |e.lastNodes| < c.maxHop(from, to) && to !in e.lastNodes
  }

  /** The jobs that `cacheex_cache_push` queues: one per neighbour but the source. */
  function JobsFor(from: NodeId, targets: seq<NodeId>, source: NodeId): (js: seq<Job>)
    ensures |js| <= |targets|
    ensures forall j :: j in js ==> j.from == from && j.to in targets
  {
    if targets == [] then []
    else (if targets[0] == source then [] else [Job(from, targets[0])]) + JobsFor(from, targets[1..], source)
  }

  /**
   `Answer` is the result of the node's own readers, found or not; `waiting`
   says that the client whose request it is has not hung up.
   */
  datatype Action =
    | Ask(node: NodeId)
    | Answer(node: NodeId, rc: int)
    | RunJob(job: nat)
    | Deliver(push: nat, waiting: bool)
    | Lose(push: nat)

  /** An entry that was given up: not found, or timed out. */
  predicate GivenUp(e: Entry) {
    e.Entry? && E_NOTFOUND <= e.rc < E_99
  }

  /** An entry taken into the cache, and pushed on if it is worth it. */
  function Store(c: Config, s: State, n: NodeId, e: Entry, source: NodeId): State
    requires ConfigOk(c) && |s.cache| == c.size && n < c.size && e.Entry?
  {
    State(s.cache[n := e], s.jobs + (if Pushable(e.rc) then JobsFor(n, c.neighbours[n], source) else []), s.wire)
  }

  /** An entry whose code gets better, and nothing else. */
  function Improve(s: State, n: NodeId, e: Entry): State
    requires n < |s.cache|
  {
    s.(cache := s.cache[n := e])
  }

  /**
   `cc_cache_push_in` and the cache update of `cacheex_add_to_cache_int`.  The
   answer to a waiting client is a job of its own; the call that should hand an
   entry on still finds it given up then, and does not.
   */
  function Take(c: Config, s: State, p: Push, waiting: bool): State
    requires ConfigOk(c) && |s.cache| == c.size && p.to < c.size
  {
    var n := p.to;
    var rc := if p.rc < E_NOTFOUND then E_CACHEEX else p.rc;
    var known := s.cache[n];
    if !(p.rc == 0 || p.rc == E_UNHANDLED) || |p.nodes| > c.maxHop(n, p.from) then s
    else
      var nodes := if p.nodes == [] then [p.from] else p.nodes;
      if known.Absent? then
        if rc < E_NOTFOUND then Store(c, s, n, Entry(rc, nodes), p.from) else s
      else if rc < known.rc then
        var e := Entry(rc, if known.lastNodes == [] then nodes else known.lastNodes);
        if GivenUp(known) && waiting then Improve(s, n, e) else Store(c, s, n, e, p.from)
      else s
  }

  /** `chk_dcw`: an open request is answered, and pushed if found; a late answer only improves the entry. */
  function TakeAnswer(c: Config, s: State, n: NodeId, rc: int): State
    requires ConfigOk(c) && |s.cache| == c.size && n < c.size && s.cache[n].Entry?
  {
    var known := s.cache[n];
    if known.rc >= E_99 && rc < E_NOTFOUND then Store(c, s, n, Entry(rc, known.lastNodes), n)
    else Improve(s, n, Entry(rc, known.lastNodes))
  }

  /** `cc_cache_push_out` after the check; found codes are sent as 0. */
  function Send(c: Config, s: State, j: Job): State
    requires ConfigOk(c) && |s.cache| == c.size && j.from < c.size
  {
    var e := s.cache[j.from];
    if MayPush(c, e, j.from, j.to) && Pushable(e.rc) then
      s.(wire := s.wire + [Push(j.from, j.to, if e.rc < E_NOTFOUND then 0 else e.rc, [j.from] + e.lastNodes)])
    else s
  }

  predicate Enabled(c: Config, s: State, a: Action)
    requires ConfigOk(c) && |s.cache| == c.size
  {
    match a
    case Ask(n) => n < c.size && s.cache[n].Absent?
    case Answer(n, rc) => n < c.size && 0 <= rc <= E_TIMEOUT && s.cache[n].Entry? && rc < s.cache[n].rc
    case RunJob(i) => i < |s.jobs|
    case Deliver(i, _) => i < |s.wire|
    case Lose(i) => i < |s.wire|
  }

  function Step(c: Config, s: State, a: Action): (t: State)
    requires Good(c, s) && Enabled(c, s, a)
    ensures |t.cache| == c.size
  {
    match a
    case Ask(n) => s.(cache := s.cache[n := Entry(E_UNHANDLED, [])])
    case Answer(n, rc) => TakeAnswer(c, s, n, rc)
    case RunJob(i) => assert s.jobs[i] in s.jobs; Send(c, s.(jobs := Without(s.jobs, i)), s.jobs[i])
    case Deliver(i, waiting) => assert s.wire[i] in s.wire; Take(c, s.(wire := Without(s.wire, i)), s.wire[i], waiting)
    case Lose(i) => s.(wire := Without(s.wire, i))
  }

  // -------------------------------------------------------------- the claims

  ghost predicate GoodEntry(e: Entry, n: NodeId) {
    e.Entry? ==> 0 <= e.rc <= E_UNHANDLED && Distinct([n] + e.lastNodes)
  }

  /** The list names the sender first, no node twice, never the receiver, and fits the sender's limit for it. */
  ghost predicate GoodPush(c: Config, p: Push)
    requires ConfigOk(c)
  {
    && p.from < c.size && p.to < c.size && (p.rc == 0 || p.rc == E_UNHANDLED)
    && p.nodes != [] && p.nodes[0] == p.from
    && Distinct(p.nodes) && p.to !in p.nodes && |p.nodes| <= c.maxHop(p.from, p.to)
  }

  ghost predicate Good(c: Config, s: State) {
    && ConfigOk(c) && |s.cache| == c.size
    && (forall n :: 0 <= n < c.size ==> GoodEntry(s.cache[n], n))
    && (forall j :: j in s.jobs ==> j.from < c.size && j.to < c.size && j.from != j.to)
    && (forall p :: p in s.wire ==> GoodPush(c, p))
  }

  lemma StoreKeepsGood(c: Config, s: State, n: NodeId, e: Entry, source: NodeId)
    requires Good(c, s) && n < c.size && e.Entry? && GoodEntry(e, n)
    ensures Good(c, Store(c, s, n, e, source))
  {
  }

  lemma SendKeepsGood(c: Config, s: State, j: Job)
    requires Good(c, s) && j.from < c.size && j.to < c.size && j.from != j.to
    ensures Good(c, Send(c, s, j))
  {
  }

  lemma TakeKeepsGood(c: Config, s: State, p: Push, waiting: bool)
    requires Good(c, s) && GoodPush(c, p)
    ensures Good(c, Take(c, s, p, waiting))
  {
  }

  lemma StepKeepsGood(c: Config, s: State, a: Action)
    requires Good(c, s) && Enabled(c, s, a)
    ensures Good(c, Step(c, s, a))
  {
    hide GoodPush, Store, Send, Take;
    match a
    case Ask(n) =>
    case Answer(n, rc) =>
      StoreKeepsGood(c, s, n, Entry(rc, s.cache[n].lastNodes), n);
    case RunJob(i) =>
      SendKeepsGood(c, s.(jobs := Without(s.jobs, i)), s.jobs[i]);
    case Deliver(i, waiting) =>
      TakeKeepsGood(c, s.(wire := Without(s.wire, i)), s.wire[i], waiting);
    case Lose(i) =>
  }

  /** A found entry is final: nothing but a better answer of the node's own changes it. */
  lemma FoundIsFinal(c: Config, s: State, a: Action, n: NodeId)
    requires Good(c, s) && Enabled(c, s, a) && n < c.size
    requires s.cache[n].Entry? && s.cache[n].rc < E_NOTFOUND && !(a.Answer? && a.node == n)
    ensures Step(c, s, a).cache[n] == s.cache[n]
  {
  }

  // -- dying out

  /** How often an entry may still change: a result code can only get smaller. */
  function Weight(e: Entry): nat
  {
    if e.Absent? then E_UNHANDLED + 1 else if e.rc < 0 then 0 else e.rc
  }

  function TotalWeight(cache: seq<Entry>): nat {
    if cache == [] then 0 else Weight(cache[0]) + TotalWeight(cache[1..])
  }

  function Degree(c: Config): (d: nat)
    requires ConfigOk(c)
    ensures forall n :: 0 <= n < c.size ==> |c.neighbours[n]| <= d
  {
    MaxLength(c.neighbours)
  }

  function MaxLength(ss: seq<seq<NodeId>>): (d: nat)
    ensures forall n :: 0 <= n < |ss| ==> |ss[n]| <= d
  {
    if ss == [] then 0
    else
      var rest := MaxLength(ss[1..]);
      assert forall n :: 0 < n < |ss| ==> ss[n] == ss[1..][n - 1];
      if |ss[0]| > rest then |ss[0]| else rest
  }

  /** A change of an entry may queue a job per neighbour, and a job may become a push. */
  function Potential(c: Config, s: State): nat
    requires ConfigOk(c)
  {
    TotalWeight(s.cache) * (2 * Degree(c) + 1) + 2 * |s.jobs| + |s.wire|
  }

  lemma {:induction false} WeightAfter(cache: seq<Entry>, n: nat, e: Entry)
    requires n < |cache|
    ensures TotalWeight(cache[n := e]) == TotalWeight(cache) - Weight(cache[n]) + Weight(e)
  {
    if n == 0 {
      assert cache[0 := e][1..] == cache[1..];
    } else {
      assert cache[n := e][1..] == cache[1..][n - 1 := e];
      WeightAfter(cache[1..], n - 1, e);
    }
  }

  lemma ImproveLowers(c: Config, s: State, n: NodeId, e: Entry)
    requires Good(c, s) && n < c.size && e.Entry? && 0 <= e.rc && Weight(e) < Weight(s.cache[n])
    ensures Potential(c, Improve(s, n, e)) < Potential(c, s)
  {
    hide MaxLength, Weight, TotalWeight, GoodEntry, GoodPush;
    WeightAfter(s.cache, n, e);
    Times(TotalWeight(s.cache[n := e]), TotalWeight(s.cache), 2 * Degree(c) + 1);
  }

  lemma StoreLowers(c: Config, s: State, n: NodeId, e: Entry, source: NodeId)
    requires Good(c, s) && n < c.size && e.Entry? && 0 <= e.rc && Weight(e) < Weight(s.cache[n])
    ensures Potential(c, Store(c, s, n, e, source)) < Potential(c, s)
  {
    hide MaxLength, JobsFor, Weight, TotalWeight, GoodEntry, GoodPush;
    WeightAfter(s.cache, n, e);
    var d := Degree(c);
    var w, w' := TotalWeight(s.cache), TotalWeight(s.cache[n := e]);
    Times(w', w, 2 * d + 1);
    var jobs := if Pushable(e.rc) then JobsFor(n, c.neighbours[n], source) else [];
    assert |jobs| <= d;
    var t := Store(c, s, n, e, source);
    assert t.wire == s.wire && |t.jobs| == |s.jobs| + |jobs|;
  }

  /** Every step uses something up. */
  lemma StepLowersPotential(c: Config, s: State, a: Action)
    requires Good(c, s) && Enabled(c, s, a)
    ensures Potential(c, Step(c, s, a)) < Potential(c, s)
  {
    hide Store, Improve, MaxLength, GoodPush;
    match a
    case Ask(n) =>
      WeightAfter(s.cache, n, Entry(E_UNHANDLED, []));
      var w := TotalWeight(s.cache);
      Times(TotalWeight(Step(c, s, a).cache), w, 2 * Degree(c) + 1);
    case Answer(n, rc) =>
      StoreLowers(c, s, n, Entry(rc, s.cache[n].lastNodes), n);
      ImproveLowers(c, s, n, Entry(rc, s.cache[n].lastNodes));
    case RunJob(i) =>
    case Deliver(i, waiting) =>
      var t, p := s.(wire := Without(s.wire, i)), s.wire[i];
      assert Good(c, t) && GoodPush(c, p);
      TakeNeverRaises(c, t, p, waiting);
    case Lose(i) =>
  }

  lemma Times(x: nat, y: nat, f: nat)
    requires x < y && f > 0
    ensures x * f + f <= y * f
  {
    assert (x + 1) * f <= y * f;
  }

  lemma TakeNeverRaises(c: Config, s: State, p: Push, waiting: bool)
    requires Good(c, s) && GoodPush(c, p)
    ensures Potential(c, Take(c, s, p, waiting)) <= Potential(c, s)
  {
    hide Store, Improve, Potential;
    var n := p.to;
    var rc := if p.rc < E_NOTFOUND then E_CACHEEX else p.rc;
    var known := s.cache[n];
    assert GoodEntry(known, n);
    if known.Absent? {
      if rc < E_NOTFOUND {
        StoreLowers(c, s, n, Entry(rc, p.nodes), p.from);
      }
    } else if rc < known.rc {
      var e := Entry(rc, if known.lastNodes == [] then p.nodes else known.lastNodes);
      StoreLowers(c, s, n, e, p.from);
      ImproveLowers(c, s, n, e);
    }
  }

  /** A run all of whose actions are possible when their turn comes. */
  predicate IsRun(c: Config, s: State, run: seq<Action>)
    requires Good(c, s)
    decreases |run|
  {
    run == [] ||
    (Enabled(c, s, run[0]) && (StepKeepsGood(c, s, run[0]); IsRun(c, Step(c, s, run[0]), run[1..])))
  }

  /** The gossip dies out: no run, in whatever order things happen, is longer than its initial potential. */
  lemma {:induction false} GossipDiesOut(c: Config, s: State, run: seq<Action>)
    requires Good(c, s) && IsRun(c, s, run)
    ensures |run| <= Potential(c, s)
    decreases |run|
  {
    hide Potential;
    if run != [] {
      StepKeepsGood(c, s, run[0]);
      StepLowersPotential(c, s, run[0]);
      GossipDiesOut(c, Step(c, s, run[0]), run[1..]);
    }
  }

  function Exec(c: Config, s: State, run: seq<Action>): State
    requires Good(c, s) && IsRun(c, s, run)
    decreases |run|
  {
    if run == [] then s
    else
      StepKeepsGood(c, s, run[0]);
      Exec(c, Step(c, s, run[0]), run[1..])
  }

  /**
   Safety over whole runs: every list in flight has distinct nodes, leaves out
   its receiver and is within the sender's limit for it; and an answer that was found
   before the run is unchanged after it, unless the node found a better one itself.
   */
  lemma {:induction false} GossipIsSafe(c: Config, s: State, run: seq<Action>, n: NodeId)
    requires Good(c, s) && IsRun(c, s, run) && n < c.size
    ensures var t := Exec(c, s, run);
            && Good(c, t)
            && (forall p :: p in t.wire ==> Distinct(p.nodes) && p.to !in p.nodes && |p.nodes| <= c.maxHop(p.from, p.to))
            && (s.cache[n].Entry? && s.cache[n].rc < E_NOTFOUND && (forall a :: a in run && a.Answer? ==> a.node != n) ==>
                  t.cache[n] == s.cache[n])
    decreases |run|
  {
    hide Step, Enabled;
    if run != [] {
      StepKeepsGood(c, s, run[0]);
      if s.cache[n].Entry? && s.cache[n].rc < E_NOTFOUND && !(run[0].Answer? && run[0].node == n) {
        FoundIsFinal(c, s, run[0], n);
      }
      GossipIsSafe(c, Step(c, s, run[0]), run[1..], n);
    }
  }

  // -- what is handed on

  predicate Found(e: Entry) {
    e.Entry? && e.rc < E_NOTFOUND
  }

  lemma {:induction false} JobsForAll(from: NodeId, targets: seq<NodeId>, source: NodeId, m: NodeId)
    ensures Job(from, m) in JobsFor(from, targets, source) <==> m in targets && m != source
  {
    if targets != [] {
      JobsForAll(from, targets[1..], source, m);
    }
  }

  /**
   A found push within the receiver's limit is taken by a node that has no entry
   or one that is not found: code 3, the nodes of the push unless the entry has
   nodes already, and a job for every neighbour but the sender.  There is no job
   if the request was given up and its client is still there.
   */
  lemma PushIsTaken(c: Config, s: State, p: Push, waiting: bool, m: NodeId)
    requires Good(c, s) && p.to < c.size && p.rc == 0 && p.nodes != [] && |p.nodes| <= c.maxHop(p.to, p.from)
    ensures var known, t := s.cache[p.to], Take(c, s, p, waiting);
            if known.Absent? || known.rc > 3 then
              && t.cache == s.cache[p.to := Entry(3, if known.Absent? || known.lastNodes == [] then p.nodes else known.lastNodes)]
              && s.jobs <= t.jobs && t.wire == s.wire
              && (Job(p.to, m) in t.jobs[|s.jobs|..] <==>
                    m in c.neighbours[p.to] && m != p.from && !(known.Entry? && 4 <= known.rc < 99 && waiting))
            else t == s
  {
    JobsForAll(p.to, c.neighbours[p.to], p.from, m);
  }

  /** A push with a longer list, or one that is not found, is dropped; so open requests get no further. */
  lemma PushIsDropped(c: Config, s: State, p: Push, waiting: bool)
    requires Good(c, s) && p.to < c.size && (|p.nodes| > c.maxHop(p.to, p.from) || p.rc != 0)
    ensures Take(c, s, p, waiting) == s
  {
    assert GoodEntry(s.cache[p.to], p.to);
  }

  /** A node's own answer: its code replaces the old one, and it is pushed to every neighbour if it is found and the request was open. */
  lemma AnswerIsPushed(c: Config, s: State, n: NodeId, rc: int, m: NodeId)
    requires Good(c, s) && Enabled(c, s, Answer(n, rc))
    ensures var known, t := s.cache[n], Step(c, s, Answer(n, rc));
            && t.cache == s.cache[n := Entry(rc, known.lastNodes)]
            && s.jobs <= t.jobs && t.wire == s.wire
            && (Job(n, m) in t.jobs[|s.jobs|..] <==> m in c.neighbours[n] && rc < 4 && known.rc >= 99)
  {
    JobsForAll(n, c.neighbours[n], n, m);
  }

  /** What a job sends: the own node in front of the list, found codes as 0; nothing to a node on the list or beyond the limit. */
  lemma JobSends(c: Config, s: State, j: Job)
    requires Good(c, s) && j.from < c.size
    ensures var e, t := s.cache[j.from], Send(c, s, j);
            && t.cache == s.cache && t.jobs == s.jobs
            && t.wire ==
               if e.Entry? && |e.lastNodes| < c.maxHop(j.from, j.to) && j.to !in e.lastNodes && (e.rc < 4 || e.rc == 100)
               then s.wire + [Push(j.from, j.to, if e.rc < 4 then 0 else 100, [j.from] + e.lastNodes)]
               else s.wire
  {
  }

  /** A neighbour to which a found entry of a node must come. */
  predicate Reaches(c: Config, s: State, n: NodeId, m: NodeId)
    requires ConfigOk(c) && |s.cache| == c.size
  {
    && n < c.size && m in c.neighbours[n] && Found(s.cache[n])
    && |s.cache[n].lastNodes| < c.maxHop(n, m) && |s.cache[n].lastNodes| < c.maxHop(m, n)
    && m !in s.cache[n].lastNodes
  }

  predicate OnItsWay(c: Config, s: State, n: NodeId, m: NodeId) {
    Job(n, m) in s.jobs || exists p :: p in s.wire && IsFor(c, p, n, m)
  }

  predicate IsFor(c: Config, p: Push, n: NodeId, m: NodeId) {
    p.from == n && p.to == m && p.rc == 0 && |p.nodes| <= c.maxHop(m, n)
  }

  /** A found entry of `n` has reached the neighbours it must reach, or is on its way to them; only found entries are pushed as found. */
  ghost predicate Spreading(c: Config, s: State, n: NodeId)
    requires Good(c, s)
  {
    && (forall m: NodeId :: Reaches(c, s, n, m) ==> m < c.size && (Found(s.cache[m]) || OnItsWay(c, s, n, m)))
    && (forall p :: p in s.wire && p.rc == 0 ==> Found(s.cache[p.from]))
  }

  /** The step does not find what `n` has given up: such an answer, and such a push for a client that still waits, come too late. */
  predicate InTime(c: Config, s: State, a: Action, n: NodeId)
    requires Good(c, s) && Enabled(c, s, a)
  {
    match a
    case Answer(k, rc) => !(k == n && rc < 4 && 4 <= s.cache[n].rc < 99)
    case Deliver(i, waiting) =>
      var p := s.wire[i];
      assert p in s.wire;
      !(p.to == n && waiting && p.rc == 0 && |p.nodes| <= c.maxHop(p.to, p.from) && s.cache[p.to].Entry? && 4 <= s.cache[p.to].rc < 99)
    case _ => true
  }

  predicate AllInTime(c: Config, s: State, run: seq<Action>, n: NodeId)
    requires Good(c, s) && IsRun(c, s, run)
    decreases |run|
  {
    run == [] ||
    (InTime(c, s, run[0], n) && (StepKeepsGood(c, s, run[0]); AllInTime(c, Step(c, s, run[0]), run[1..], n)))
  }

  /** A step by which an entry becomes found queues a job for every neighbour, but for one that has it, if and only if it is in time. */
  lemma HandedOnIff(c: Config, s: State, a: Action, n: NodeId)
    requires Good(c, s) && Enabled(c, s, a) && n < c.size && !Found(s.cache[n]) && Found(Step(c, s, a).cache[n])
    ensures var t := Step(c, s, a);
            && s.jobs <= t.jobs
            && (InTime(c, s, a, n) ==>
                  exists source: NodeId {:trigger JobsFor(n, c.neighbours[n], source)} ::
                    && t.jobs == s.jobs + JobsFor(n, c.neighbours[n], source)
                    && (a.Deliver? ==> a.push < |s.wire| && source == s.wire[a.push].from))
            && (!InTime(c, s, a, n) ==> t.jobs == s.jobs)
  {
    match a
    case Answer(k, rc) => assert InTime(c, s, a, n) ==> Step(c, s, a).jobs == s.jobs + JobsFor(n, c.neighbours[n], n);
    case Deliver(i, _) =>
      assert s.wire[i] in s.wire;
      assert InTime(c, s, a, n) ==> Step(c, s, a).jobs == s.jobs + JobsFor(n, c.neighbours[n], s.wire[i].from);
    case Ask(_) =>
    case RunJob(_) =>
    case Lose(_) =>
  }

  /** Found entries stay found. */
  lemma StaysFound(c: Config, s: State, a: Action, n: NodeId)
    requires Good(c, s) && Enabled(c, s, a) && n < c.size && Found(s.cache[n])
    ensures Found(Step(c, s, a).cache[n]) && Step(c, s, a).cache[n].lastNodes == s.cache[n].lastNodes
  {
  }

  /** A node whose entry becomes found has a job for every neighbour, except for a node that has it already. */
  lemma NewlyFound(c: Config, s: State, a: Action, n: NodeId, m: NodeId)
    requires Good(c, s) && Enabled(c, s, a) && InTime(c, s, a, n) && Spreading(c, s, n) && n < c.size && m in c.neighbours[n]
    requires !Found(s.cache[n]) && Found(Step(c, s, a).cache[n])
    ensures m < c.size && (Job(n, m) in Step(c, s, a).jobs || Found(s.cache[m]))
  {
    match a
    case Answer(k, rc) => JobsForAll(n, c.neighbours[n], n, m);
    case Deliver(i, _) =>
      assert s.wire[i] in s.wire;
      JobsForAll(n, c.neighbours[n], s.wire[i].from, m);
    case Ask(_) =>
    case RunJob(_) =>
    case Lose(_) =>
  }

  /** What is on its way stays so, or arrives. */
  lemma StaysOnItsWay(c: Config, s: State, a: Action, n: NodeId, m: NodeId)
    requires Good(c, s) && Enabled(c, s, a) && !a.Lose? && Reaches(c, s, n, m) && m < c.size && OnItsWay(c, s, n, m)
    ensures var t := Step(c, s, a);
            Found(t.cache[m]) || OnItsWay(c, t, n, m)
  {
    match a
    case Ask(_) =>
    case Answer(_, _) => WayKept(c, s, Step(c, s, a), n, m);
    case RunJob(i) => JobRuns(c, s, i, n, m);
    case Deliver(i, waiting) => PushArrives(c, s, i, waiting, n, m);
    case Lose(_) =>
  }

  lemma WayKept(c: Config, s: State, t: State, n: NodeId, m: NodeId)
    requires OnItsWay(c, s, n, m)
    requires (forall j :: j in s.jobs ==> j in t.jobs) && forall p :: p in s.wire ==> p in t.wire
    ensures OnItsWay(c, t, n, m)
  {
  }

  lemma Rest<T>(s: seq<T>, i: nat, x: T)
    requires i < |s| && x in s
    ensures x == s[i] || x in Without(s, i)
  {
    var k :| 0 <= k < |s| && s[k] == x;
    if k != i {
      assert Without(s, i)[if k < i then k else k - 1] == x;
    }
  }

  lemma JobRuns(c: Config, s: State, i: nat, n: NodeId, m: NodeId)
    requires Good(c, s) && i < |s.jobs| && Reaches(c, s, n, m) && OnItsWay(c, s, n, m)
    ensures OnItsWay(c, Step(c, s, RunJob(i)), n, m)
  {
    var t := Step(c, s, RunJob(i));
    assert s.jobs[i] in s.jobs;
    if p :| p in s.wire && IsFor(c, p, n, m) {
      assert p in t.wire;
    } else {
      Rest(s.jobs, i, Job(n, m));
      if s.jobs[i] == Job(n, m) {
        assert t.wire[|t.wire| - 1] == Push(n, m, 0, [n] + s.cache[n].lastNodes);
        assert IsFor(c, t.wire[|t.wire| - 1], n, m);
      }
    }
  }

  lemma PushArrives(c: Config, s: State, i: nat, waiting: bool, n: NodeId, m: NodeId)
    requires Good(c, s) && i < |s.wire| && Reaches(c, s, n, m) && m < c.size && OnItsWay(c, s, n, m)
    ensures var t := Step(c, s, Deliver(i, waiting));
            Found(t.cache[m]) || OnItsWay(c, t, n, m)
  {
    var t := Step(c, s, Deliver(i, waiting));
    assert s.wire[i] in s.wire;
    if Job(n, m) !in s.jobs {
      var p :| p in s.wire && IsFor(c, p, n, m);
      Rest(s.wire, i, p);
      if p in Without(s.wire, i) {
        assert p in t.wire;
      }
    }
  }

  lemma StepKeepsSpreading(c: Config, s: State, a: Action, n: NodeId)
    requires Good(c, s) && Enabled(c, s, a) && InTime(c, s, a, n) && !a.Lose? && Spreading(c, s, n)
    ensures Good(c, Step(c, s, a)) && Spreading(c, Step(c, s, a), n)
  {
    hide Step, Enabled, OnItsWay, InTime;
    StepKeepsGood(c, s, a);
    var t := Step(c, s, a);
    forall m: NodeId | Reaches(c, t, n, m) ensures m < c.size && (Found(t.cache[m]) || OnItsWay(c, t, n, m)) {
      if Found(s.cache[n]) {
        StaysFound(c, s, a, n);
        if Found(s.cache[m]) {
          StaysFound(c, s, a, m);
        } else {
          StaysOnItsWay(c, s, a, n, m);
        }
      } else {
        NewlyFound(c, s, a, n, m);
        if Found(s.cache[m]) {
          StaysFound(c, s, a, m);
        } else {
          JobIsOnItsWay(c, t, n, m);
        }
      }
    }
    forall p | p in t.wire && p.rc == 0 ensures Found(t.cache[p.from]) {
      PushedByFound(c, s, a, p, n);
      StaysFound(c, s, a, p.from);
    }
  }

  lemma JobIsOnItsWay(c: Config, s: State, n: NodeId, m: NodeId)
    requires Job(n, m) in s.jobs
    ensures OnItsWay(c, s, n, m)
  {
  }

  lemma PushedByFound(c: Config, s: State, a: Action, p: Push, n: NodeId)
    requires Good(c, s) && Enabled(c, s, a) && Spreading(c, s, n) && p in Step(c, s, a).wire && p.rc == 0
    ensures p.from < c.size && Found(s.cache[p.from])
  {
    if p in s.wire {
    } else {
      match a
      case RunJob(i) => assert s.jobs[i] in s.jobs;
      case _ =>
    }
  }

  /**
   What the exchange is for.  From a network in which nobody knows anything,
   without losses: when nothing is queued and nothing is on the wire, every
   neighbour of a node that found an answer in time has found it too, unless it
   is on the node's list or the list is as long as a limit of the two.
   */
  lemma GossipSpreads(c: Config, run: seq<Action>, n: NodeId, m: NodeId)
    requires Good(c, Initial(c)) && IsRun(c, Initial(c), run) && AllInTime(c, Initial(c), run, n)
    requires forall a :: a in run ==> !a.Lose?
    ensures var t := Exec(c, Initial(c), run);
            && Good(c, t)
            && (t.jobs == [] && t.wire == [] && n < c.size && m in c.neighbours[n] && t.cache[n].Entry? && t.cache[n].rc < 4
                && m !in t.cache[n].lastNodes
                && |t.cache[n].lastNodes| < c.maxHop(n, m) && |t.cache[n].lastNodes| < c.maxHop(m, n) ==>
                  m < c.size && t.cache[m].Entry? && t.cache[m].rc < 4)
  {
    hide IsRun, Exec, AllInTime;
    RunKeepsSpreading(c, Initial(c), run, n);
    assert Reaches(c, Exec(c, Initial(c), run), n, m) ==> m < c.size;
  }

  lemma {:induction false} RunKeepsSpreading(c: Config, s: State, run: seq<Action>, n: NodeId)
    requires Good(c, s) && IsRun(c, s, run) && AllInTime(c, s, run, n) && Spreading(c, s, n) && forall a :: a in run ==> !a.Lose?
    ensures Good(c, Exec(c, s, run)) && Spreading(c, Exec(c, s, run), n)
    decreases |run|
  {
    hide Step, Enabled, Spreading, InTime;
    if run != [] {
      StepKeepsSpreading(c, s, run[0], n);
      RunKeepsSpreading(c, Step(c, s, run[0]), run[1..], n);
    }
  }

  predicate Silent(s: State, n: NodeId) {
    (forall j :: j in s.jobs ==> j.from != n) && forall p :: p in s.wire ==> p.from != n
  }

  /** At no time of the run is anything queued or on the wire that comes from `n`. */
  predicate SilentRun(c: Config, s: State, run: seq<Action>, n: NodeId)
    requires Good(c, s) && IsRun(c, s, run)
    decreases |run|
  {
    Silent(s, n) &&
    (run == [] || (StepKeepsGood(c, s, run[0]); SilentRun(c, Step(c, s, run[0]), run[1..], n)))
  }

  lemma StepKeepsSilent(c: Config, s: State, a: Action, n: NodeId)
    requires Good(c, s) && Enabled(c, s, a) && Silent(s, n) && n < c.size
    requires Found(s.cache[n]) || !InTime(c, s, a, n) || !Found(Step(c, s, a).cache[n])
    ensures Silent(Step(c, s, a), n)
    ensures !InTime(c, s, a, n) ==> Found(Step(c, s, a).cache[n])
  {
  }

  lemma FoundIsInTime(c: Config, s: State, a: Action, n: NodeId)
    requires Good(c, s) && Enabled(c, s, a) && n < c.size && Found(s.cache[n])
    ensures InTime(c, s, a, n)
  {
  }

  lemma {:induction false} FoundRuns(c: Config, s: State, run: seq<Action>, n: NodeId)
    requires Good(c, s) && IsRun(c, s, run) && n < c.size && Found(s.cache[n])
    ensures AllInTime(c, s, run, n) && (Silent(s, n) ==> SilentRun(c, s, run, n))
    decreases |run|
  {
    hide Step, Enabled, InTime, Silent;
    if run != [] {
      StepKeepsGood(c, s, run[0]);
      FoundIsInTime(c, s, run[0], n);
      StaysFound(c, s, run[0], n);
      if Silent(s, n) {
        StepKeepsSilent(c, s, run[0], n);
      }
      FoundRuns(c, Step(c, s, run[0]), run[1..], n);
    }
  }

  /** The other half: a node that finds its answer too late never hands on anything. */
  lemma {:induction false} LateIsSilent(c: Config, s: State, run: seq<Action>, n: NodeId)
    requires Good(c, s) && IsRun(c, s, run) && n < c.size && Silent(s, n) && !Found(s.cache[n])
    requires !AllInTime(c, s, run, n)
    ensures var t := Exec(c, s, run);
            SilentRun(c, s, run, n) && |t.cache| == c.size && Found(t.cache[n])
    decreases |run|
  {
    hide Step, Enabled, InTime, Silent;
    StepKeepsGood(c, s, run[0]);
    var t := Step(c, s, run[0]);
    if Found(t.cache[n]) {
      FoundRuns(c, t, run[1..], n);
      StepKeepsSilent(c, s, run[0], n);
      RunStaysFound(c, t, run[1..], n);
    } else {
      StepKeepsSilent(c, s, run[0], n);
      LateIsSilent(c, t, run[1..], n);
    }
  }

  lemma {:induction false} RunStaysFound(c: Config, s: State, run: seq<Action>, n: NodeId)
    requires Good(c, s) && IsRun(c, s, run) && n < c.size && Found(s.cache[n])
    ensures |Exec(c, s, run).cache| == c.size && Found(Exec(c, s, run).cache[n])
    decreases |run|
  {
    hide Step, Enabled;
    if run != [] {
      StepKeepsGood(c, s, run[0]);
      StaysFound(c, s, run[0], n);
      RunStaysFound(c, Step(c, s, run[0]), run[1..], n);
    }
  }

  /** The start: nobody knows anything. */
  function Initial(c: Config): State {
    State(seq(c.size, _ => Absent), [], [])
  }

  lemma InitialIsGood(c: Config)
    requires ConfigOk(c)
    ensures Good(c, Initial(c))
  {
  }

  lemma Continued(c: Config, s: State, t: State, run: seq<Action>, rest: seq<Action>)
    requires run != [] && run[1..] == rest && Good(c, s) && Enabled(c, s, run[0]) && Step(c, s, run[0]) == t
    requires Good(c, t) && IsRun(c, t, rest)
    ensures IsRun(c, s, run) && Exec(c, s, run) == Exec(c, t, rest)
  {
    hide Step, Enabled, Good;
  }

  lemma NothingMore(c: Config, s: State)
    requires Good(c, s)
    ensures IsRun(c, s, []) && Exec(c, s, []) == s
  {
  }

  /** The least run: of two neighbours one is asked, finds an answer and pushes it, and the other takes it. */
  lemma OnePush(c: Config, waiting: bool)
    requires c.size == 2 && c.neighbours == [[1], [0]] && c.maxHop(0, 1) > 0 && c.maxHop(1, 0) > 0
    ensures var run := [Ask(0), Answer(0, 0), RunJob(0), Deliver(0, waiting)];
            && Good(c, Initial(c)) && IsRun(c, Initial(c), run)
            && Exec(c, Initial(c), run) == State([Entry(0, []), Entry(3, [0])], [], [])
  {
    hide IsRun, Exec;
    var r0 := [Ask(0), Answer(0, 0), RunJob(0), Deliver(0, waiting)];
    var r1 := [Answer(0, 0), RunJob(0), Deliver(0, waiting)];
    var r2 := [RunJob(0), Deliver(0, waiting)];
    var r3 := [Deliver(0, waiting)];
    assert r0[1..] == r1 && r1[1..] == r2 && r2[1..] == r3 && r3[1..] == [];
    AskedAndAnswered(c);
    SentAndTaken(c, waiting);
    hide Step, Enabled, Good;
    var s1 := State([Entry(100, []), Absent], [], []);
    var s2 := State([Entry(0, []), Absent], [Job(0, 1)], []);
    var s3 := State([Entry(0, []), Absent], [], [Push(0, 1, 0, [0])]);
    var s4 := State([Entry(0, []), Entry(3, [0])], [], []);
    NothingMore(c, s4);
    Continued(c, s3, s4, r3, []);
    Continued(c, s2, s3, r2, r3);
    Continued(c, s1, s2, r1, r2);
    Continued(c, Initial(c), s1, r0, r1);
  }

  lemma AskedAndAnswered(c: Config)
    requires c.size == 2 && c.neighbours == [[1], [0]]
    ensures var s1 := State([Entry(100, []), Absent], [], []);
            var s2 := State([Entry(0, []), Absent], [Job(0, 1)], []);
            && Good(c, Initial(c)) && Enabled(c, Initial(c), Ask(0)) && Step(c, Initial(c), Ask(0)) == s1
            && Good(c, s1) && Enabled(c, s1, Answer(0, 0)) && Step(c, s1, Answer(0, 0)) == s2
            && Good(c, s2)
  {
    assert Initial(c).cache == [Absent, Absent];
    assert JobsFor(0, [1], 0) == [Job(0, 1)] by { assert JobsFor(0, [1][1..], 0) == []; }
  }

  lemma SentAndTaken(c: Config, waiting: bool)
    requires c.size == 2 && c.neighbours == [[1], [0]] && c.maxHop(0, 1) > 0 && c.maxHop(1, 0) > 0
    ensures var s2 := State([Entry(0, []), Absent], [Job(0, 1)], []);
            var s3 := State([Entry(0, []), Absent], [], [Push(0, 1, 0, [0])]);
            var s4 := State([Entry(0, []), Entry(3, [0])], [], []);
            && Good(c, s2) && Enabled(c, s2, RunJob(0)) && Step(c, s2, RunJob(0)) == s3
            && Good(c, s3) && Enabled(c, s3, Deliver(0, waiting)) && Step(c, s3, Deliver(0, waiting)) == s4
            && Good(c, s4)
  {
    assert JobsFor(1, [0], 0) == [] by { assert JobsFor(1, [0][1..], 0) == []; }
    var s2 := State([Entry(0, []), Absent], [Job(0, 1)], []);
    assert [0] + s2.cache[0].lastNodes == [0];
    assert Step(c, s2, RunJob(0)).wire == [Push(0, 1, 0, [0])];
  }

  /** An answer that comes after the request has timed out is kept to the node: its neighbour never hears of it. */
  lemma LateAnswerStays(c: Config)
    requires c.size == 2 && c.neighbours == [[1], [0]]
    ensures var run := [Ask(0), Answer(0, 5), Answer(0, 0)];
            && Good(c, Initial(c)) && IsRun(c, Initial(c), run)
            && Exec(c, Initial(c), run) == State([Entry(0, []), Absent], [], [])
  {
    hide IsRun, Exec;
    var r0, r1, r2 := [Ask(0), Answer(0, 5), Answer(0, 0)], [Answer(0, 5), Answer(0, 0)], [Answer(0, 0)];
    assert r0[1..] == r1 && r1[1..] == r2 && r2[1..] == [];
    var s1 := State([Entry(100, []), Absent], [], []);
    var s2 := State([Entry(5, []), Absent], [], []);
    var s3 := State([Entry(0, []), Absent], [], []);
    assert Initial(c).cache == [Absent, Absent];
    NothingMore(c, s3);
    Continued(c, s2, s3, r2, []);
    Continued(c, s1, s2, r1, r2);
    Continued(c, Initial(c), s1, r0, r1);
  }
}
