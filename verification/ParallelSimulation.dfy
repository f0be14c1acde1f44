/** The simulation scheduler: rounds of launches over a set of checkpoints, a wait loop with timeouts, a straggler
    loop, and resumption from a saved summary. Task readiness, result files and the clock are inputs of each step,
    so every statement below holds for every order of completions and timeouts. */
module ParallelSimulation {
  import opened Basics
  import opened EvenSelection
  import opened StableSort

  type Checkpoint = string

  const TIMEOUT_SECONDS: real := 3600.0

  datatype Status = NotRun | Failed | Successful | TimedOut

  /** Where control is: at a launch, in the wait loop, in the straggler loop, or returned. */
  datatype Phase = Launching | Waiting | Stragglers | Returned

  /** An item of the `tasks` dictionary, which keeps its insertion order. */
  datatype Entry = Entry(task: nat, start: real)

  /** What one poll of a task sees: is it ready, does its result file exist, what does the clock say. */
  datatype Seen = Seen(ready: bool, result: bool, now: real)

  /** The environment of one step: the natural-sort order of the pending keys, and one poll of each task. */
  datatype Input = Input(order: seq<Checkpoint>, poll: nat -> Seen)

  datatype State = State(
    phase: Phase,
    target: int,                       // num_checkpoints
    pending: set<Checkpoint>,          // keys of all_proc_args
    tasks: seq<Entry>,                 // tasks
    results: map<nat, Checkpoint>,     // task_results: whose result file
    owner: map<nat, Checkpoint>,       // task_checkpoint
    status: map<Checkpoint, Status>,   // summary['checkpoints']
    successes: nat,
    failures: nat,
    nextTask: nat,
    // history, for stating properties of whole runs
    considered: set<Checkpoint>,
    launched: seq<Checkpoint>,
    rounds: nat,
    roundTimedOut: bool,
    restored: nat,
    restoredTimeouts: nat)

  function Count(status: map<Checkpoint, Status>, x: Status): nat {
    |set c | c in status && status[c] == x|
  }

  // ----- one launch round -----

  /** The head of the round loop: launch again, or return, or wait for stragglers. */
  function LoopHead(s: State): State {
    if s.successes < s.target && s.pending != {} then s.(phase := Launching)
    else if s.successes >= s.target then s.(phase := Returned)
    else s.(phase := Stragglers)
  }

  /** One `apply_async`. */
  function Launch(s: State, c: Checkpoint, now: real): State {
    s.(tasks := s.tasks + [Entry(s.nextTask, now)],
       results := s.results[s.nextTask := c],
       owner := s.owner[s.nextTask := c],
       nextTask := s.nextTask + 1,
       launched := s.launched + [c])
  }

  function LaunchAll(s: State, chosen: seq<Checkpoint>, poll: nat -> Seen): State {
    if chosen == [] then s
    else
      var before := LaunchAll(s, chosen[..|chosen| - 1], poll);
      Launch(before, chosen[|chosen| - 1], poll(before.nextTask).now)
  }

  /** The evenly spaced choice of as many checkpoints as are still needed. */
  function Chosen(s: State, input: Input): seq<Checkpoint>
    requires s.successes < s.target
  {
    Pick(input.order, s.target - s.successes)
  }

  function BeginRound(s: State, chosen: seq<Checkpoint>): State {
    s.(pending := s.pending - Elements(chosen), rounds := s.rounds + 1, phase := Waiting)
  }

  function LaunchRound(s: State, input: Input): State
    requires s.successes < s.target
  {
    LaunchAll(BeginRound(s, Chosen(s, input)), Chosen(s, input), input.poll)
  }

  // ----- one pass over the outstanding tasks -----

  /** A task leaves the three dictionaries and its checkpoint gets a final status. */
  function Finish(s: State, task: nat, verdict: Status): State
    requires task in s.owner
  {
    s.(results := s.results - {task},
       owner := s.owner - {task},
       status := s.status[s.owner[task] := verdict],
       successes := if verdict == Successful then s.successes + 1 else s.successes,
       failures := if verdict == Successful then s.failures else s.failures + 1)
  }

  /** The variables of a pass: `kept` are the tasks that stay. */
  datatype Pass = Pass(s: State, kept: seq<Entry>, any: bool, quiet: bool, maxTime: real)

  function Verdict(seen: Seen): Status {
    if seen.result then Successful else Failed
  }

  /** The wait loop on one task. `any` is set once a task of this pass was ready; later tasks get a new start time. */
  function WaitOne(p: Pass, e: Entry, seen: Seen): Pass
    requires e.task in p.s.owner
  {
    if seen.ready then p.(s := Finish(p.s, e.task, Verdict(seen)), any := true)
    else if p.any then p.(kept := p.kept + [Entry(e.task, seen.now)], quiet := false)
    else p.(kept := p.kept + [e], quiet := false,
            maxTime := if seen.now - e.start > p.maxTime then seen.now - e.start else p.maxTime)
  }

  /** The straggler loop on one task: overdue tasks are given up. */
  function StragglerOne(p: Pass, e: Entry, seen: Seen): Pass
    requires e.task in p.s.owner
  {
    if seen.ready then p.(s := Finish(p.s, e.task, Verdict(seen)), quiet := false)
    else if seen.now - e.start < TIMEOUT_SECONDS then p.(kept := p.kept + [e], quiet := false)
    else p.(s := Finish(p.s, e.task, TimedOut))
  }

  function One(waiting: bool, p: Pass, e: Entry, seen: Seen): Pass
    requires e.task in p.s.owner
  {
    if waiting then WaitOne(p, e, seen) else StragglerOne(p, e, seen)
  }

  function Ids(entries: seq<Entry>): seq<nat> {
    seq(|entries|, i requires 0 <= i < |entries| => entries[i].task)
  }

  /** Every task to visit is still in the dictionaries, and is visited once. */
  ghost predicate Keyed(s: State, todo: seq<Entry>) {
    (forall e :: e in todo ==> e.task in s.owner) && Distinct(Ids(todo))
  }

  lemma KeyedTail(waiting: bool, p: Pass, todo: seq<Entry>, seen: Seen)
    requires todo != [] && Keyed(p.s, todo)
    ensures Keyed(One(waiting, p, todo[0], seen).s, todo[1..])
  {
    assert Ids(todo[1..]) == Ids(todo)[1..];
    forall e | e in todo[1..]
      ensures e.task in One(waiting, p, todo[0], seen).s.owner
    {
      var i :| 1 <= i < |todo| && todo[i] == e;
      assert Ids(todo)[0] != Ids(todo)[i];
    }
  }

  function Visit(waiting: bool, p: Pass, todo: seq<Entry>, poll: nat -> Seen): Pass
    requires Keyed(p.s, todo)
    decreases |todo|
  {
    if todo == [] then p
    else
      KeyedTail(waiting, p, todo, poll(todo[0].task));
      Visit(waiting, One(waiting, p, todo[0], poll(todo[0].task)), todo[1..], poll)
  }

  function StartPass(s: State): Pass {
    Pass(s, [], false, true, 0.0)
  }

  /** The end of a wait pass: finished tasks are dropped; the wait is over when nothing is left to wait for, when
      the target is met, or when nothing finished and some task has been running for too long. */
  function EndWait(p: Pass): State {
    var overdue := !p.any && p.maxTime > TIMEOUT_SECONDS;
    var t := p.s.(tasks := p.kept, roundTimedOut := p.s.roundTimedOut || overdue);
    if p.quiet || overdue || p.kept == [] || t.successes >= t.target then LoopHead(t) else t
  }

  function EndStragglers(p: Pass): State {
    p.s.(tasks := p.kept, phase := if p.quiet then Returned else Stragglers)
  }

  /** One iteration of the wait loop. */
  function WaitPass(s: State, poll: nat -> Seen): State
    requires Keyed(s, s.tasks)
  {
    EndWait(Visit(true, StartPass(s), s.tasks, poll))
  }

  /** One iteration of the straggler loop. */
  function StragglerPass(s: State, poll: nat -> Seen): State
    requires Keyed(s, s.tasks)
  {
    EndStragglers(Visit(false, StartPass(s), s.tasks, poll))
  }

  // ----- what every step keeps -----

  /** The three dictionaries have the same keys, the tasks listed in `ids`; each task has its own checkpoint. */
  ghost predicate TasksAgree(s: State, ids: seq<nat>) {
    && Distinct(ids)
    && (forall t :: t in ids <==> t in s.owner)
    && s.results == s.owner
    && (forall t :: t in s.owner ==> t < s.nextTask)
    && (forall t, u :: t in s.owner && u in s.owner && t != u ==> s.owner[t] != s.owner[u])
  }

  ghost predicate Outstanding(s: State, c: Checkpoint) {
    exists t :: t in s.owner && s.owner[t] == c
  }

  /** Each considered checkpoint is pending, outstanding or finished, and its status says which. */
  ghost predicate Partitioned(s: State) {
    && s.pending <= s.considered
    && (forall c :: c in s.considered ==> c in s.status)
    && (forall t :: t in s.owner ==> s.owner[t] in s.considered && s.owner[t] !in s.pending)
    && (forall c :: c in s.considered ==> (s.status[c] == NotRun <==> c in s.pending || Outstanding(s, c)))
  }

  /** The counters say what the summary says; a failure counter restored from a summary misses its timeouts. */
  ghost predicate CountersAgree(s: State) {
    && s.successes == Count(s.status, Successful)
    && s.failures + s.restoredTimeouts == Count(s.status, Failed) + Count(s.status, TimedOut)
  }

  /** Nothing is launched twice, and what was launched is what left the pending set. */
  ghost predicate LaunchedOnce(s: State) {
    && Distinct(s.launched)
    && (forall c :: c in s.launched <==> c in s.considered && c !in s.pending)
    && s.rounds + |s.pending| <= |s.considered|
  }

  ghost predicate Core(s: State, ids: seq<nat>) {
    TasksAgree(s, ids) && Partitioned(s) && CountersAgree(s) && LaunchedOnce(s)
  }

  function Max(a: int, b: int): int {
    if a >= b then a else b
  }

  /** What holds at each point of control. */
  ghost predicate AtPhase(s: State) {
    && (s.phase == Launching ==> s.successes < s.target && s.pending != {})
    && (s.phase == Waiting ==> s.successes < s.target)
    && (s.phase == Stragglers ==> s.pending == {})
    && (s.phase == Returned ==> s.successes >= s.target || (s.pending == {} && s.tasks == []))
    && (!s.roundTimedOut ==>
          && s.successes + |s.tasks| <= Max(s.target, s.restored)
          && (s.phase == Launching || s.phase == Stragglers ==> s.tasks == []))
  }

  ghost predicate Inv(s: State) {
    Core(s, Ids(s.tasks)) && AtPhase(s)
  }

  lemma InvKeyed(s: State)
    requires Inv(s)
    ensures Keyed(s, s.tasks)
  {
    forall e | e in s.tasks
      ensures e.task in s.owner
    {
      var i :| 0 <= i < |s.tasks| && s.tasks[i] == e;
      assert Ids(s.tasks)[i] == e.task;
    }
  }

  // ----- counting -----

  lemma CountUpdate(status: map<Checkpoint, Status>, c: Checkpoint, v: Status, x: Status)
    requires c in status && status[c] == NotRun && v != NotRun && x != NotRun
    ensures Count(status[c := v], x) == Count(status, x) + if x == v then 1 else 0
  {
    var before := set d | d in status && status[d] == x;
    var updated := status[c := v];
    var after := set d | d in updated && updated[d] == x;
    if x == v {
      assert after == before + {c};
    } else {
      assert after == before;
    }
  }

  // ----- a task finishes -----

  lemma FinishTasks(s: State, front: seq<nat>, t: nat, back: seq<nat>, verdict: Status)
    requires TasksAgree(s, front + [t] + back)
    ensures t in s.owner
    ensures TasksAgree(Finish(s, t, verdict), front + back)
  {
    var ids := front + [t] + back;
    assert ids[|front|] == t;
    var r := Finish(s, t, verdict);
    assert Distinct(front + back) by {
      forall i, j | 0 <= i < j < |front + back|
        ensures (front + back)[i] != (front + back)[j]
      {
        var i', j' := if i < |front| then i else i + 1, if j < |front| then j else j + 1;
        assert ids[i'] == (front + back)[i] && ids[j'] == (front + back)[j];
      }
    }
    forall u
      ensures u in front + back <==> u in r.owner
    {
      if u in front + back {
        var i :| 0 <= i < |front + back| && (front + back)[i] == u;
        var i' := if i < |front| then i else i + 1;
        assert ids[i'] == u && ids[i'] != ids[|front|];
      }
      if u in r.owner {
        assert u in ids;
      }
    }
  }

  lemma FinishPartition(s: State, t: nat, verdict: Status)
    requires t in s.owner && Partitioned(s) && verdict != NotRun
    requires forall t, u :: t in s.owner && u in s.owner && t != u ==> s.owner[t] != s.owner[u]
    ensures Partitioned(Finish(s, t, verdict))
  {
    var r := Finish(s, t, verdict);
    var done := s.owner[t];
    forall c | c in s.considered
      ensures r.status[c] == NotRun <==> c in r.pending || Outstanding(r, c)
    {
      if c != done && Outstanding(s, c) {
        var u :| u in s.owner && s.owner[u] == c;
        assert u in r.owner && r.owner[u] == c;
      }
    }
  }

  lemma FinishKeeps(s: State, front: seq<nat>, t: nat, back: seq<nat>, verdict: Status)
    requires Core(s, front + [t] + back) && verdict != NotRun
    ensures t in s.owner
    ensures Core(Finish(s, t, verdict), front + back)
  {
    FinishTasks(s, front, t, back, verdict);
    FinishPartition(s, t, verdict);
    var c := s.owner[t];
    assert Outstanding(s, c);
    CountUpdate(s.status, c, verdict, Successful);
    CountUpdate(s.status, c, verdict, Failed);
    CountUpdate(s.status, c, verdict, TimedOut);
  }

  // ----- a whole pass -----

  /** The parts of the state a pass does not touch. */
  ghost predicate SameRun(s: State, r: State) {
    && r.phase == s.phase && r.target == s.target && r.pending == s.pending && r.tasks == s.tasks
    && r.nextTask == s.nextTask && r.considered == s.considered && r.launched == s.launched
    && r.rounds == s.rounds && r.roundTimedOut == s.roundTimedOut
    && r.restored == s.restored && r.restoredTimeouts == s.restoredTimeouts
  }

  /** One task either stays, or finishes and leaves the rest of the pass alone. */
  lemma OneCases(waiting: bool, p: Pass, e: Entry, seen: Seen)
    requires e.task in p.s.owner
    ensures var q := One(waiting, p, e, seen);
            && Visited(p, q, 1)
            && (|| (q.s == p.s && |q.kept| == |p.kept| + 1 && Ids(q.kept) == Ids(p.kept) + [e.task])
                || (q.kept == p.kept && exists v :: v != NotRun && q.s == Finish(p.s, e.task, v)))
  {
    var q := One(waiting, p, e, seen);
    var v := if seen.ready then Verdict(seen) else TimedOut;
    if |q.kept| == |p.kept| {
      assert q.s == Finish(p.s, e.task, v);
    }
  }

  lemma OneKeeps(waiting: bool, p: Pass, e: Entry, rest: seq<Entry>, seen: Seen)
    requires Core(p.s, Ids(p.kept) + [e.task] + Ids(rest))
    ensures e.task in p.s.owner
    ensures var q := One(waiting, p, e, seen);
            Core(q.s, Ids(q.kept) + Ids(rest)) && Visited(p, q, 1)
  {
    var front, back := Ids(p.kept), Ids(rest);
    assert (front + [e.task] + back)[|front|] == e.task;
    OneCases(waiting, p, e, seen);
    var q := One(waiting, p, e, seen);
    if q.kept == p.kept {
      var v :| v != NotRun && q.s == Finish(p.s, e.task, v);
      FinishKeeps(p.s, front, e.task, back, v);
    }
  }

  /** What a visit of `n` tasks may have done to a pass. */
  ghost predicate Visited(p: Pass, q: Pass, n: nat) {
    && SameRun(p.s, q.s)
    && q.s.successes + |q.kept| <= p.s.successes + |p.kept| + n
    && (q.quiet ==> p.quiet && q.kept == p.kept)
  }

  lemma IdsHead(kept: seq<Entry>, todo: seq<Entry>)
    requires todo != []
    ensures Ids(kept) + Ids(todo) == Ids(kept) + [todo[0].task] + Ids(todo[1..])
  {
  }

  lemma {:induction false} VisitKeeps(waiting: bool, p: Pass, todo: seq<Entry>, poll: nat -> Seen)
    requires Core(p.s, Ids(p.kept) + Ids(todo)) && Keyed(p.s, todo)
    ensures var q := Visit(waiting, p, todo, poll); Core(q.s, Ids(q.kept)) && Visited(p, q, |todo|)
    decreases |todo|
  {
    if todo == [] {
      assert Ids(p.kept) + Ids(todo) == Ids(p.kept);
    } else {
      var seen := poll(todo[0].task);
      IdsHead(p.kept, todo);
      OneKeeps(waiting, p, todo[0], todo[1..], seen);
      KeyedTail(waiting, p, todo, seen);
      VisitKeeps(waiting, One(waiting, p, todo[0], seen), todo[1..], poll);
    }
  }

  lemma LoopHeadKeeps(s: State)
    requires Core(s, Ids(s.tasks))
    requires !s.roundTimedOut ==> s.successes + |s.tasks| <= Max(s.target, s.restored)
    requires !s.roundTimedOut && s.successes < s.target ==> s.tasks == []
    ensures Inv(LoopHead(s))
  {
  }

  lemma EndWaitKeeps(p: Pass)
    requires Core(p.s, Ids(p.kept)) && p.s.phase == Waiting
    requires !p.s.roundTimedOut ==> p.s.successes + |p.kept| <= Max(p.s.target, p.s.restored)
    requires p.quiet ==> p.kept == []
    ensures Inv(EndWait(p))
  {
    var overdue := !p.any && p.maxTime > TIMEOUT_SECONDS;
    var t := p.s.(tasks := p.kept, roundTimedOut := p.s.roundTimedOut || overdue);
    if p.quiet || overdue || p.kept == [] || t.successes >= t.target {
      LoopHeadKeeps(t);
    }
  }

  lemma WaitPassKeeps(s: State, poll: nat -> Seen)
    requires Inv(s) && s.phase == Waiting
    ensures Keyed(s, s.tasks)
    ensures Inv(WaitPass(s, poll))
  {
    InvKeyed(s);
    assert Ids([]) + Ids(s.tasks) == Ids(s.tasks);
    VisitKeeps(true, StartPass(s), s.tasks, poll);
    EndWaitKeeps(Visit(true, StartPass(s), s.tasks, poll));
  }

  lemma EndStragglersKeeps(p: Pass)
    requires Core(p.s, Ids(p.kept)) && p.s.phase == Stragglers && p.s.pending == {}
    requires !p.s.roundTimedOut ==> p.kept == [] && p.s.successes <= Max(p.s.target, p.s.restored)
    requires p.quiet ==> p.kept == []
    ensures Inv(EndStragglers(p))
  {
  }

  lemma StragglerPassKeeps(s: State, poll: nat -> Seen)
    requires Inv(s) && s.phase == Stragglers
    ensures Keyed(s, s.tasks)
    ensures Inv(StragglerPass(s, poll))
  {
    InvKeyed(s);
    assert Ids([]) + Ids(s.tasks) == Ids(s.tasks);
    VisitKeeps(false, StartPass(s), s.tasks, poll);
    EndStragglersKeeps(Visit(false, StartPass(s), s.tasks, poll));
  }

  // ----- a launch round -----

  /** The order given to a launch lists the pending checkpoints, each once. */
  ghost predicate Listing(order: seq<Checkpoint>, pending: set<Checkpoint>) {
    Distinct(order) && forall c :: c in order <==> c in pending
  }

  /** The state while `rest` has left the pending set but is not launched yet. */
  ghost predicate MidLaunch(s: State, rest: set<Checkpoint>) {
    && TasksAgree(s, Ids(s.tasks)) && CountersAgree(s) && Distinct(s.launched)
    && rest !! s.pending && rest <= s.considered && s.pending <= s.considered
    && (forall c :: c in s.considered ==> c in s.status)
    && (forall t :: t in s.owner ==> s.owner[t] in s.considered && s.owner[t] !in s.pending && s.owner[t] !in rest)
    && (forall c :: c in s.considered ==> (s.status[c] == NotRun <==> c in s.pending || c in rest || Outstanding(s, c)))
    && (forall c :: c in s.launched <==> c in s.considered && c !in s.pending && c !in rest)
  }

  lemma LaunchKeeps(s: State, rest: set<Checkpoint>, c: Checkpoint, now: real)
    requires MidLaunch(s, rest) && c in rest
    ensures MidLaunch(Launch(s, c, now), rest - {c})
  {
    var r := Launch(s, c, now);
    assert Ids(r.tasks) == Ids(s.tasks) + [s.nextTask];
    assert s.nextTask !in s.owner && s.nextTask !in Ids(s.tasks);
    assert r.owner[s.nextTask] == c;
    forall d | d in s.considered
      ensures r.status[d] == NotRun <==> d in r.pending || d in rest - {c} || Outstanding(r, d)
    {
      if Outstanding(s, d) {
        var t :| t in s.owner && s.owner[t] == d;
        assert r.owner[t] == d;
      }
    }
  }

  lemma {:induction false} LaunchAllKeeps(s: State, chosen: seq<Checkpoint>, poll: nat -> Seen)
    requires Distinct(chosen) && MidLaunch(s, Elements(chosen))
    ensures MidLaunch(LaunchAll(s, chosen, poll), {})
  {
    LaunchPrefixKeeps(s, chosen, |chosen|, poll);
    assert chosen[..|chosen|] == chosen;
    assert Elements(chosen) - Elements(chosen) == {};
  }

  lemma {:induction false} LaunchPrefixKeeps(s: State, chosen: seq<Checkpoint>, k: nat, poll: nat -> Seen)
    requires Distinct(chosen) && k <= |chosen| && MidLaunch(s, Elements(chosen))
    ensures MidLaunch(LaunchAll(s, chosen[..k], poll), Elements(chosen) - Elements(chosen[..k]))
  {
    if k == 0 {
      assert Elements(chosen) - Elements(chosen[..0]) == Elements(chosen);
    } else {
      LaunchPrefixKeeps(s, chosen, k - 1, poll);
      assert chosen[..k][..k - 1] == chosen[..k - 1];
      var before := LaunchAll(s, chosen[..k - 1], poll);
      var rest := Elements(chosen) - Elements(chosen[..k - 1]);
      assert chosen[k - 1] in rest;
      LaunchKeeps(before, rest, chosen[k - 1], poll(before.nextTask).now);
      assert rest - {chosen[k - 1]} == Elements(chosen) - Elements(chosen[..k]);
    }
  }

  /** What launching leaves alone, and how much it adds. */
  lemma {:induction false} LaunchAllSame(s: State, chosen: seq<Checkpoint>, poll: nat -> Seen)
    ensures var r := LaunchAll(s, chosen, poll);
            && r.phase == s.phase && r.target == s.target && r.pending == s.pending && r.successes == s.successes
            && r.considered == s.considered && r.rounds == s.rounds && r.roundTimedOut == s.roundTimedOut
            && r.restored == s.restored && r.restoredTimeouts == s.restoredTimeouts
            && |r.tasks| == |s.tasks| + |chosen|
            && r.launched == s.launched + chosen
  {
    if chosen != [] {
      LaunchAllSame(s, chosen[..|chosen| - 1], poll);
    }
  }

  lemma ChosenExact(s: State, input: Input)
    requires s.successes < s.target && s.pending != {} && Listing(input.order, s.pending)
    ensures var chosen := Chosen(s, input);
            && Distinct(chosen) && Elements(chosen) <= s.pending && |Elements(chosen)| == |chosen|
            && 1 <= |chosen| == (if s.target - s.successes <= |s.pending| then s.target - s.successes else |s.pending|)
  {
    PickExact(input.order, s.target - s.successes);
    DistinctBySize(input.order);
    DistinctBySize(Chosen(s, input));
    assert Elements(input.order) == s.pending;
  }

  /** A round launches exactly as many checkpoints as are needed, or all that are left, always at least one; they
      come out of the pending set. */
  lemma LaunchRoundTakes(s: State, input: Input)
    requires s.successes < s.target && s.pending != {} && Listing(input.order, s.pending)
    ensures var r := LaunchRound(s, input);
            var n := |r.tasks| - |s.tasks|;
            && 1 <= n == (if s.target - s.successes <= |s.pending| then s.target - s.successes else |s.pending|)
            && r.pending <= s.pending && |r.pending| == |s.pending| - n
            && |r.launched| == |s.launched| + n && s.launched <= r.launched
            && Elements(r.launched[|s.launched|..]) == s.pending - r.pending
  {
    var chosen := Chosen(s, input);
    ChosenExact(s, input);
    LaunchAllSame(BeginRound(s, chosen), chosen, input.poll);
    assert (s.launched + chosen)[|s.launched|..] == chosen;
    assert |s.pending - Elements(chosen)| == |s.pending| - |Elements(chosen)|;
  }

  /** They are evenly spaced over the order of the pending checkpoints: the first at half a distance, each next one a
      distance or one more further on; all of them if fewer are left than needed. */
  lemma LaunchedEvenly(s: State, input: Input) returns (chosen: seq<Checkpoint>, pos: seq<nat>, first: nat, gap: nat)
    requires s.successes < s.target && s.pending != {} && Listing(input.order, s.pending)
    ensures LaunchRound(s, input).launched == s.launched + chosen
    ensures |pos| == |chosen| && forall i :: 0 <= i < |pos| ==> pos[i] < |input.order| && chosen[i] == input.order[pos[i]]
    ensures var m, n := s.target - s.successes, |input.order|;
            && (m <= n ==> |pos| == m && first == n / (2 * m) && gap == n / m && pos[0] == first)
            && (m <= n ==> forall i :: 0 < i < |pos| ==> pos[i - 1] + gap <= pos[i] <= pos[i - 1] + gap + 1)
            && (m > n ==> chosen == input.order)
  {
    chosen := Chosen(s, input);
    LaunchAllSame(BeginRound(s, chosen), chosen, input.poll);
    pos, first, gap := SpacedOut(input.order, s.target - s.successes, chosen);
  }

  lemma SpacedOut(order: seq<Checkpoint>, m: nat, chosen: seq<Checkpoint>) returns (pos: seq<nat>, first: nat, gap: nat)
    requires m > 0 && chosen == Pick(order, m)
    ensures |pos| == |chosen| && forall i :: 0 <= i < |pos| ==> pos[i] < |order| && chosen[i] == order[pos[i]]
    ensures m <= |order| ==> |pos| == m && first == |order| / (2 * m) && gap == |order| / m && pos[0] == first
    ensures m <= |order| ==> forall i :: 0 < i < |pos| ==> pos[i - 1] + gap <= pos[i] <= pos[i - 1] + gap + 1
    ensures m > |order| ==> chosen == order
  {
    if m <= |order| {
      pos, first, gap := PickPositions(order, m);
    } else {
      PickAll(order, m);
      pos, first, gap := seq(|order|, i => i), 0, 0;
    }
  }

  lemma BeginRoundKeeps(s: State, chosen: seq<Checkpoint>)
    requires Core(s, Ids(s.tasks)) && Elements(chosen) <= s.pending
    ensures MidLaunch(BeginRound(s, chosen), Elements(chosen))
  {
    var mid := BeginRound(s, chosen);
    forall c | c in s.considered
      ensures mid.status[c] == NotRun <==> c in mid.pending || c in Elements(chosen) || Outstanding(mid, c)
    {
      assert Outstanding(mid, c) <==> Outstanding(s, c);
    }
  }

  lemma MidLaunchDone(s: State)
    requires MidLaunch(s, {}) && s.rounds + |s.pending| <= |s.considered|
    ensures Core(s, Ids(s.tasks))
  {
  }

  lemma LaunchRoundMid(s: State, input: Input)
    requires Core(s, Ids(s.tasks)) && s.successes < s.target && s.pending != {} && Listing(input.order, s.pending)
    ensures MidLaunch(LaunchRound(s, input), {})
  {
    ChosenExact(s, input);
    BeginRoundKeeps(s, Chosen(s, input));
    LaunchAllKeeps(BeginRound(s, Chosen(s, input)), Chosen(s, input), input.poll);
  }

  lemma LaunchRoundSame(s: State, input: Input)
    requires s.successes < s.target
    ensures var r := LaunchRound(s, input);
            && r.phase == Waiting && r.target == s.target && r.successes == s.successes && r.rounds == s.rounds + 1
            && r.considered == s.considered && r.roundTimedOut == s.roundTimedOut && r.restored == s.restored
  {
    LaunchAllSame(BeginRound(s, Chosen(s, input)), Chosen(s, input), input.poll);
  }

  lemma WaitingPhase(s: State)
    requires s.phase == Waiting && s.successes < s.target
    requires !s.roundTimedOut ==> s.successes + |s.tasks| <= Max(s.target, s.restored)
    ensures AtPhase(s)
  {
  }

  lemma LaunchRoundKeepsPhase(s: State, input: Input)
    requires AtPhase(s) && s.phase == Launching && Listing(input.order, s.pending)
    ensures AtPhase(LaunchRound(s, input))
  {
    LaunchRoundSame(s, input);
    LaunchRoundTakes(s, input);
    WaitingPhase(LaunchRound(s, input));
  }

  lemma LaunchRoundKeeps(s: State, input: Input)
    requires Inv(s) && s.phase == Launching && Listing(input.order, s.pending)
    ensures Inv(LaunchRound(s, input))
  {
    LaunchRoundMid(s, input);
    LaunchRoundKeepsPhase(s, input);
    LaunchRoundSame(s, input);
    LaunchRoundTakes(s, input);
    MidLaunchDone(LaunchRound(s, input));
  }

  // ----- whole runs -----

  /** The only demand on the environment: a launch gets a listing of what is pending. */
  ghost predicate Admissible(s: State, input: Input) {
    s.phase == Launching ==> Listing(input.order, s.pending)
  }

  ghost function Step(s: State, input: Input): (r: State)
    requires Inv(s) && s.phase != Returned && Admissible(s, input)
    ensures Inv(r)
  {
    match s.phase
    case Launching => LaunchRoundKeeps(s, input); LaunchRound(s, input)
    case Waiting => WaitPassKeeps(s, input.poll); WaitPass(s, input.poll)
    case Stragglers => StragglerPassKeeps(s, input.poll); StragglerPass(s, input.poll)
  }

  /** `start` under a finite sequence of environments: it stops early when it returns. */
  ghost function RunFrom(s: State, inputs: seq<Input>): (r: State)
    requires Inv(s)
    ensures Inv(r)
    decreases |inputs|
  {
    if inputs == [] || s.phase == Returned || !Admissible(s, inputs[0]) then s
    else RunFrom(Step(s, inputs[0]), inputs[1..])
  }

  /** `now` is where the run from `first` is after `i` inputs. */
  ghost predicate OnRun(first: State, inputs: seq<Input>, i: nat, now: State) {
    i <= |inputs| && Inv(first) && Inv(now) && RunFrom(now, inputs[i..]) == RunFrom(first, inputs)
  }

  lemma RunStep(first: State, inputs: seq<Input>, i: nat, now: State)
    requires OnRun(first, inputs, i, now) && i < |inputs| && now.phase != Returned && Admissible(now, inputs[i])
    ensures OnRun(first, inputs, i + 1, Step(now, inputs[i]))
  {
    assert inputs[i..][0] == inputs[i] && inputs[i..][1..] == inputs[i + 1..];
  }

  lemma RunDone(first: State, inputs: seq<Input>, i: nat, now: State)
    requires OnRun(first, inputs, i, now)
    requires i == |inputs| || now.phase == Returned || !Admissible(now, inputs[i])
    ensures now == RunFrom(first, inputs)
    ensures Pressed(first, inputs) >= Distance(first) ==> now.phase == Returned
  {
    assert i < |inputs| ==> inputs[i..][0] == inputs[i];
    Returns(first, inputs);
  }

  /** The later state belongs to the same run: nothing goes back to the pending set, launches are only appended. */
  ghost predicate Continues(s: State, r: State) {
    && r.considered == s.considered && r.target == s.target
    && r.restored == s.restored && r.restoredTimeouts == s.restoredTimeouts
    && r.pending <= s.pending && s.launched <= r.launched
  }

  lemma LaunchContinues(s: State, input: Input)
    requires s.successes < s.target
    ensures Continues(s, LaunchRound(s, input))
  {
    LaunchAllSame(BeginRound(s, Chosen(s, input)), Chosen(s, input), input.poll);
  }

  lemma PassContinues(waiting: bool, s: State, poll: nat -> Seen)
    requires Inv(s) && Keyed(s, s.tasks)
    ensures SameRun(s, Visit(waiting, StartPass(s), s.tasks, poll).s)
  {
    assert Ids([]) + Ids(s.tasks) == Ids(s.tasks);
    VisitKeeps(waiting, StartPass(s), s.tasks, poll);
  }

  lemma EndContinues(s: State, p: Pass)
    requires SameRun(s, p.s)
    ensures Continues(s, EndWait(p)) && Continues(s, EndStragglers(p))
  {
  }

  lemma StepContinues(s: State, input: Input)
    requires Inv(s) && s.phase != Returned && Admissible(s, input)
    ensures Continues(s, Step(s, input))
  {
    match s.phase
    case Launching =>
      LaunchContinues(s, input);
    case Waiting =>
      InvKeyed(s);
      PassContinues(true, s, input.poll);
      EndContinues(s, Visit(true, StartPass(s), s.tasks, input.poll));
    case Stragglers =>
      InvKeyed(s);
      PassContinues(false, s, input.poll);
      EndContinues(s, Visit(false, StartPass(s), s.tasks, input.poll));
  }

  /** A run considers the same checkpoints throughout, never returns one to the pending set, and only appends
      launches. */
  lemma {:induction false} RunContinues(s: State, inputs: seq<Input>)
    requires Inv(s)
    ensures Continues(s, RunFrom(s, inputs))
    decreases |inputs|
  {
    if !(inputs == [] || s.phase == Returned || !Admissible(s, inputs[0])) {
      StepContinues(s, inputs[0]);
      RunContinues(Step(s, inputs[0]), inputs[1..]);
    }
  }

  /** Exit guarantee: when `start` returns, the target is met, or every considered checkpoint has a final status
      and nothing is outstanding. */
  lemma ExitGuarantee(s: State, inputs: seq<Input>)
    requires Inv(s)
    ensures var r := RunFrom(s, inputs);
            r.phase == Returned ==>
              || r.successes >= s.target
              || (r.pending == {} && r.tasks == [] && r.owner == map[]
                  && forall c :: c in s.considered ==> c in r.status && r.status[c] != NotRun)
  {
    RunContinues(s, inputs);
    var r := RunFrom(s, inputs);
    if r.phase == Returned && r.successes < r.target {
      assert Ids(r.tasks) == [];
      assert r.owner == map[];
    }
  }

  /** Conservation: at every loop boundary each considered checkpoint is in exactly one of the pending set, the
      dictionaries of launched work and the finished statuses; the dictionaries have equal keys; the success counter is
      the number of statuses recorded as successful. */
  lemma Conservation(s: State, inputs: seq<Input>, c: Checkpoint)
    requires Inv(s) && c in s.considered
    ensures var r := RunFrom(s, inputs);
            var pending, outstanding := c in r.pending, exists t :: t in r.owner && r.owner[t] == c;
            && c in r.status
            && !(pending && outstanding)
            && ((pending || outstanding) <==> r.status[c] == NotRun)
            && r.owner.Keys == r.results.Keys == (set e | e in r.tasks :: e.task)
            && |r.tasks| == |r.owner|
            && r.successes == Count(r.status, Successful)
  {
    RunContinues(s, inputs);
    var r := RunFrom(s, inputs);
    assert Outstanding(r, c) <==> exists t :: t in r.owner && r.owner[t] == c;
    TaskKeys(r);
  }

  lemma TaskKeys(s: State)
    requires TasksAgree(s, Ids(s.tasks))
    ensures s.owner.Keys == (set e | e in s.tasks :: e.task)
    ensures |s.tasks| == |s.owner|
  {
    forall t | t in s.owner
      ensures exists e :: e in s.tasks && e.task == t
    {
      var i :| 0 <= i < |Ids(s.tasks)| && Ids(s.tasks)[i] == t;
      assert s.tasks[i].task == t;
    }
    forall e | e in s.tasks
      ensures e.task in s.owner
    {
      var i :| 0 <= i < |s.tasks| && s.tasks[i] == e;
      assert Ids(s.tasks)[i] == e.task;
    }
    KeysCount(s.owner, Ids(s.tasks));
  }

  lemma KeysCount<T>(m: map<nat, T>, ids: seq<nat>)
    requires Distinct(ids) && forall t :: t in ids <==> t in m
    ensures |m| == |ids|
  {
    DistinctBySize(ids);
    assert Elements(ids) == m.Keys;
    assert |m| == |m.Keys|;
  }

  /** No checkpoint is launched twice, and there are at most as many rounds as checkpoints. */
  lemma NoRelaunch(s: State, inputs: seq<Input>)
    requires Inv(s)
    ensures var r := RunFrom(s, inputs);
            && (forall i, j :: 0 <= i < j < |r.launched| ==> r.launched[i] != r.launched[j])
            && (forall c :: c in r.launched <==> c in s.considered && c !in r.pending)
            && r.rounds <= |s.considered|
  {
    RunContinues(s, inputs);
  }

  /** Without a round timeout the successes never pass the target (or what was restored, if that is more). */
  lemma NoOvershoot(s: State, inputs: seq<Input>)
    requires Inv(s)
    ensures var r := RunFrom(s, inputs);
            !r.roundTimedOut ==> r.successes <= Max(s.target, s.restored)
  {
    RunContinues(s, inputs);
  }

  // ----- what one pass does to each task -----

  ghost predicate AnyReady(tasks: seq<Entry>, poll: nat -> Seen) {
    exists i :: 0 <= i < |tasks| && poll(tasks[i].task).ready
  }

  ghost predicate ReadyBefore(tasks: seq<Entry>, poll: nat -> Seen, j: nat)
    requires j <= |tasks|
  {
    exists i :: 0 <= i < j && poll(tasks[i].task).ready
  }

  /** Some task has been running for more than an hour. */
  ghost predicate AnyLate(tasks: seq<Entry>, poll: nat -> Seen) {
    exists i :: 0 <= i < |tasks| && poll(tasks[i].task).now - tasks[i].start > 3600.0
  }

  /** What a pass makes of a poll: a ready task succeeds if it left a result file and fails otherwise; a straggler that is
      not ready times out after an hour; any other task goes on. */
  ghost function Outcome(waiting: bool, e: Entry, seen: Seen): Status {
    if seen.ready then if seen.result then Successful else Failed
    else if !waiting && seen.now - e.start >= 3600.0 then TimedOut
    else NotRun
  }

  function GoesOn(waiting: bool, poll: nat -> Seen): Entry -> bool {
    (e: Entry) => !poll(e.task).ready && (waiting || poll(e.task).now - e.start < 3600.0)
  }

  /** What one visit does to its own entry. */
  lemma OneExact(waiting: bool, p: Pass, e: Entry, seen: Seen)
    requires e.task in p.s.owner
    ensures var q, v := One(waiting, p, e, seen), Outcome(waiting, e, seen);
            && (v != NotRun ==> q.s == Finish(p.s, e.task, v) && q.kept == p.kept)
            && (v == NotRun ==> q.s == p.s
                                && q.kept == p.kept + [Entry(e.task, if waiting && p.any then seen.now else e.start)])
            && q.any == (p.any || (waiting && seen.ready))
            && q.quiet == (p.quiet && v != NotRun && (waiting || !seen.ready))
            && q.maxTime == (if waiting && !seen.ready && !p.any && seen.now - e.start > p.maxTime
                             then seen.now - e.start else p.maxTime)
  {
  }

  ghost predicate OwnersDiffer(s: State) {
    forall t, u :: t in s.owner && u in s.owner && t != u ==> s.owner[t] != s.owner[u]
  }

  /** A visit only drops what it visits, and gives a status only to the checkpoints of what it drops. */
  lemma {:induction false} VisitFrame(waiting: bool, p: Pass, todo: seq<Entry>, poll: nat -> Seen, c: Checkpoint)
    requires Keyed(p.s, todo)
    requires forall e :: e in todo ==> p.s.owner[e.task] != c
    ensures var q := Visit(waiting, p, todo, poll);
            (c in q.s.status <==> c in p.s.status) && (c in p.s.status ==> q.s.status[c] == p.s.status[c])
    decreases |todo|
  {
    if todo != [] {
      var seen := poll(todo[0].task);
      KeyedTail(waiting, p, todo, seen);
      OneExact(waiting, p, todo[0], seen);
      VisitFrame(waiting, One(waiting, p, todo[0], seen), todo[1..], poll, c);
    }
  }

  lemma {:induction false} VisitKeepsOwner(waiting: bool, p: Pass, todo: seq<Entry>, poll: nat -> Seen, t: nat)
    requires Keyed(p.s, todo) && t in p.s.owner && forall e :: e in todo ==> e.task != t
    ensures var q := Visit(waiting, p, todo, poll); t in q.s.owner && q.s.owner[t] == p.s.owner[t]
    decreases |todo|
  {
    if todo != [] {
      var seen := poll(todo[0].task);
      KeyedTail(waiting, p, todo, seen);
      OneExact(waiting, p, todo[0], seen);
      VisitKeepsOwner(waiting, One(waiting, p, todo[0], seen), todo[1..], poll, t);
    }
  }

  lemma {:induction false} VisitOnlyDrops(waiting: bool, p: Pass, todo: seq<Entry>, poll: nat -> Seen)
    requires Keyed(p.s, todo)
    ensures forall t :: t in Visit(waiting, p, todo, poll).s.owner ==> t in p.s.owner
    decreases |todo|
  {
    if todo != [] {
      var seen := poll(todo[0].task);
      KeyedTail(waiting, p, todo, seen);
      OneExact(waiting, p, todo[0], seen);
      VisitOnlyDrops(waiting, One(waiting, p, todo[0], seen), todo[1..], poll);
    }
  }

  lemma KeyedApart(s: State, todo: seq<Entry>, e: Entry)
    requires Keyed(s, todo) && todo != [] && OwnersDiffer(s) && e in todo[1..]
    ensures e.task != todo[0].task && s.owner[e.task] != s.owner[todo[0].task]
  {
    var i :| 1 <= i < |todo| && todo[i] == e;
    assert Ids(todo)[0] != Ids(todo)[i];
  }

  ghost predicate Decided(p: Pass, q: Pass, waiting: bool, e: Entry, seen: Seen)
    requires e.task in p.s.owner
  {
    var c, v := p.s.owner[e.task], Outcome(waiting, e, seen);
    if v != NotRun then e.task !in q.s.owner && c in q.s.status && q.s.status[c] == v
    else e.task in q.s.owner && q.s.owner[e.task] == c
         && (c in q.s.status <==> c in p.s.status) && (c in p.s.status ==> q.s.status[c] == p.s.status[c])
  }

  /** Each visited task meets its outcome, whatever the others do. */
  lemma {:induction false} VisitDecides(waiting: bool, p: Pass, todo: seq<Entry>, poll: nat -> Seen, e: Entry)
    requires Keyed(p.s, todo) && OwnersDiffer(p.s) && e in todo
    ensures Decided(p, Visit(waiting, p, todo, poll), waiting, e, poll(e.task))
    decreases |todo|
  {
    var seen, rest := poll(todo[0].task), todo[1..];
    KeyedTail(waiting, p, todo, seen);
    OneExact(waiting, p, todo[0], seen);
    var next := One(waiting, p, todo[0], seen);
    forall f | f in rest
      ensures f.task != todo[0].task && p.s.owner[f.task] != p.s.owner[todo[0].task]
    {
      KeyedApart(p.s, todo, f);
    }
    if e == todo[0] {
      VisitFrame(waiting, next, rest, poll, p.s.owner[e.task]);
      VisitOnlyDrops(waiting, next, rest, poll);
      if Outcome(waiting, e, seen) == NotRun {
        VisitKeepsOwner(waiting, next, rest, poll, e.task);
      }
    } else {
      VisitDecides(waiting, next, rest, poll, e);
    }
  }

  lemma OneKept(waiting: bool, p: Pass, e: Entry, poll: nat -> Seen)
    requires e.task in p.s.owner
    ensures Ids(One(waiting, p, e, poll(e.task)).kept)
         == Ids(p.kept) + if GoesOn(waiting, poll)(e) then [e.task] else []
  {
    OneExact(waiting, p, e, poll(e.task));
  }

  lemma SelectedIds(p: Entry -> bool, todo: seq<Entry>)
    requires todo != []
    ensures Ids(Select(p, todo)) == (if p(todo[0]) then [todo[0].task] else []) + Ids(Select(p, todo[1..]))
  {
    SelectFirst(p, todo);
  }

  /** Which tasks stay, in their order. */
  lemma {:induction false} VisitKept(waiting: bool, p: Pass, todo: seq<Entry>, poll: nat -> Seen)
    requires Keyed(p.s, todo)
    ensures Ids(Visit(waiting, p, todo, poll).kept) == Ids(p.kept) + Ids(Select(GoesOn(waiting, poll), todo))
    decreases |todo|
  {
    if todo == [] {
      assert Ids(p.kept) + Ids([]) == Ids(p.kept);
    } else {
      var seen := poll(todo[0].task);
      KeyedTail(waiting, p, todo, seen);
      VisitKept(waiting, One(waiting, p, todo[0], seen), todo[1..], poll);
      OneKept(waiting, p, todo[0], poll);
      SelectedIds(GoesOn(waiting, poll), todo);
    }
  }

  lemma {:induction false} VisitKeepsFront(waiting: bool, p: Pass, todo: seq<Entry>, poll: nat -> Seen)
    requires Keyed(p.s, todo)
    ensures p.kept <= Visit(waiting, p, todo, poll).kept
    decreases |todo|
  {
    if todo != [] {
      var seen := poll(todo[0].task);
      KeyedTail(waiting, p, todo, seen);
      VisitKeepsFront(waiting, One(waiting, p, todo[0], seen), todo[1..], poll);
    }
  }

  /** With which start time a task stays: the wait loop sets it anew once an earlier task of the pass was ready. */
  lemma {:induction false} VisitStart(waiting: bool, p: Pass, todo: seq<Entry>, poll: nat -> Seen, j: nat)
    requires Keyed(p.s, todo) && j < |todo| && Outcome(waiting, todo[j], poll(todo[j].task)) == NotRun
    ensures Entry(todo[j].task, if waiting && (p.any || ReadyBefore(todo, poll, j)) then poll(todo[j].task).now else todo[j].start)
            in Visit(waiting, p, todo, poll).kept
    decreases |todo|
  {
    var seen, rest := poll(todo[0].task), todo[1..];
    KeyedTail(waiting, p, todo, seen);
    OneExact(waiting, p, todo[0], seen);
    var next := One(waiting, p, todo[0], seen);
    if j == 0 {
      VisitKeepsFront(waiting, next, rest, poll);
      assert next.kept[|p.kept|] in Visit(waiting, p, todo, poll).kept;
    } else {
      VisitStart(waiting, next, rest, poll, j - 1);
      ReadyBeforeTail(todo, poll, j);
    }
  }

  lemma ReadyBeforeTail(todo: seq<Entry>, poll: nat -> Seen, j: nat)
    requires 0 < j <= |todo|
    ensures ReadyBefore(todo, poll, j) <==> poll(todo[0].task).ready || ReadyBefore(todo[1..], poll, j - 1)
  {
    if ReadyBefore(todo, poll, j) {
      var i :| 0 <= i < j && poll(todo[i].task).ready;
      assert i > 0 ==> todo[1..][i - 1] == todo[i];
    }
    if ReadyBefore(todo[1..], poll, j - 1) {
      var i :| 0 <= i < j - 1 && poll(todo[1..][i].task).ready;
      assert todo[i + 1] == todo[1..][i];
    }
  }

  /** The flags of a pass. */
  lemma {:induction false} VisitFlags(waiting: bool, p: Pass, todo: seq<Entry>, poll: nat -> Seen)
    requires Keyed(p.s, todo)
    ensures var q := Visit(waiting, p, todo, poll);
            && q.any == (p.any || (waiting && ReadyBefore(todo, poll, |todo|)))
            && q.quiet == (p.quiet && |q.kept| == |p.kept| && (waiting || !ReadyBefore(todo, poll, |todo|)))
            && (waiting && !q.any ==> (q.maxTime > 3600.0 <==> p.maxTime > 3600.0 || AnyLate(todo, poll)))
    decreases |todo|
  {
    if todo != [] {
      var seen, rest := poll(todo[0].task), todo[1..];
      KeyedTail(waiting, p, todo, seen);
      OneExact(waiting, p, todo[0], seen);
      var next := One(waiting, p, todo[0], seen);
      VisitFlags(waiting, next, rest, poll);
      VisitKeepsFront(waiting, next, rest, poll);
      ReadyBeforeTail(todo, poll, |todo|);
      AnyLateTail(todo, poll);
    }
  }

  lemma AnyLateTail(todo: seq<Entry>, poll: nat -> Seen)
    requires todo != []
    ensures AnyLate(todo, poll) <==> poll(todo[0].task).now - todo[0].start > 3600.0 || AnyLate(todo[1..], poll)
  {
    if AnyLate(todo, poll) {
      var i :| 0 <= i < |todo| && poll(todo[i].task).now - todo[i].start > 3600.0;
      assert i > 0 ==> todo[1..][i - 1] == todo[i];
    }
    if AnyLate(todo[1..], poll) {
      var i :| 0 <= i < |todo[1..]| && poll(todo[1..][i].task).now - todo[1..][i].start > 3600.0;
      assert todo[i + 1] == todo[1..][i];
    }
  }

  /** What a pass does to task `j`: its outcome, and the start time it goes on with. */
  ghost predicate TaskAfter(waiting: bool, s: State, r: State, poll: nat -> Seen, j: nat)
    requires j < |s.tasks| && s.tasks[j].task in s.owner
  {
    var e := s.tasks[j];
    var seen, c := poll(e.task), s.owner[e.task];
    if seen.ready then
      e.task !in r.owner && c in r.status && r.status[c] == if seen.result then Successful else Failed
    else if !waiting && seen.now - e.start >= 3600.0 then
      e.task !in r.owner && c in r.status && r.status[c] == TimedOut
    else
      && e.task in r.owner && r.owner[e.task] == c && c in r.status && r.status[c] == NotRun
      && Entry(e.task, if waiting && ReadyBefore(s.tasks, poll, j) then seen.now else e.start) in r.tasks
  }

  /** What a pass leaves: each task meets its outcome, those that go on keep their order, and no other checkpoint's status
      is touched. */
  ghost predicate PassDone(waiting: bool, s: State, r: State, poll: nat -> Seen)
    requires Keyed(s, s.tasks)
  {
    && (forall j: nat :: j < |s.tasks| ==> TaskAfter(waiting, s, r, poll, j))
    && Ids(r.tasks) == Ids(Select(GoesOn(waiting, poll), s.tasks))
    && (forall c :: c in s.status && !Outstanding(s, c) ==> c in r.status && r.status[c] == s.status[c])
    && r.pending == s.pending && r.target == s.target
  }

  /** The state after a pass has what the pass left. */
  ghost predicate Carries(q: Pass, r: State) {
    r.tasks == q.kept && r.owner == q.s.owner && r.status == q.s.status && r.pending == q.s.pending && r.target == q.s.target
  }

  lemma EndCarries(q: Pass)
    ensures Carries(q, EndWait(q)) && Carries(q, EndStragglers(q))
  {
  }

  lemma PassExact(waiting: bool, s: State, poll: nat -> Seen, r: State)
    requires Inv(s) && Keyed(s, s.tasks) && Carries(Visit(waiting, StartPass(s), s.tasks, poll), r)
    ensures PassDone(waiting, s, r, poll)
  {
    var p := StartPass(s);
    forall j: nat | j < |s.tasks|
      ensures TaskAfter(waiting, s, r, poll, j)
    {
      TaskDone(waiting, s, poll, r, j);
    }
    VisitKept(waiting, p, s.tasks, poll);
    assert Ids([]) + Ids(Select(GoesOn(waiting, poll), s.tasks)) == Ids(Select(GoesOn(waiting, poll), s.tasks));
    forall c | c in s.status && !Outstanding(s, c)
      ensures c in r.status && r.status[c] == s.status[c]
    {
      VisitFrame(waiting, p, s.tasks, poll, c);
    }
    PassContinues(waiting, s, poll);
  }

  lemma TaskDone(waiting: bool, s: State, poll: nat -> Seen, r: State, j: nat)
    requires Inv(s) && Keyed(s, s.tasks) && Carries(Visit(waiting, StartPass(s), s.tasks, poll), r) && j < |s.tasks|
    ensures s.tasks[j].task in s.owner && TaskAfter(waiting, s, r, poll, j)
  {
    var e := s.tasks[j];
    var c := s.owner[e.task];
    assert Outstanding(s, c) && c in s.status && s.status[c] == NotRun;
    VisitDecides(waiting, StartPass(s), s.tasks, poll, e);
    if Outcome(waiting, e, poll(e.task)) == NotRun {
      VisitStart(waiting, StartPass(s), s.tasks, poll, j);
    }
  }

  lemma EndWaitExact(q: Pass)
    requires q.s.phase == Waiting && (q.quiet ==> q.kept == [])
    ensures EndWait(q).tasks == q.kept && EndWait(q).successes == q.s.successes
    ensures EndWait(q).roundTimedOut == (q.s.roundTimedOut || (!q.any && q.maxTime > 3600.0))
    ensures EndWait(q).phase == if q.s.successes >= q.s.target then Returned
                                else if q.kept != [] && !(!q.any && q.maxTime > 3600.0) then Waiting
                                else if q.s.pending != {} then Launching
                                else Stragglers
  {
  }

  /** No task was ready, and one has been running for more than an hour. */
  ghost predicate Stagnant(tasks: seq<Entry>, poll: nat -> Seen) {
    !AnyReady(tasks, poll) && AnyLate(tasks, poll)
  }

  lemma WaitFlags(s: State, poll: nat -> Seen)
    requires Inv(s) && Keyed(s, s.tasks)
    ensures var q := Visit(true, StartPass(s), s.tasks, poll);
            && SameRun(s, q.s) && (q.quiet ==> q.kept == [])
            && ((!q.any && q.maxTime > 3600.0) <==> Stagnant(s.tasks, poll))
  {
    VisitFlags(true, StartPass(s), s.tasks, poll);
    PassContinues(true, s, poll);
  }

  /** When the wait is over: when nothing is left, when the target is met, or when it is stagnant. */
  lemma WaitPassPhase(s: State, poll: nat -> Seen)
    requires Inv(s) && s.phase == Waiting
    ensures Keyed(s, s.tasks)
    ensures var r := WaitPass(s, poll);
            && r.roundTimedOut == (s.roundTimedOut || Stagnant(s.tasks, poll))
            && r.phase == if r.successes >= s.target then Returned
                          else if r.tasks != [] && !Stagnant(s.tasks, poll) then Waiting
                          else if s.pending != {} then Launching
                          else Stragglers
  {
    InvKeyed(s);
    WaitFlags(s, poll);
    EndWaitExact(Visit(true, StartPass(s), s.tasks, poll));
  }

  /** One pass of the wait loop, task by task. */
  lemma WaitPassExact(s: State, poll: nat -> Seen)
    requires Inv(s) && s.phase == Waiting
    ensures Keyed(s, s.tasks)
    ensures PassDone(true, s, WaitPass(s, poll), poll)
  {
    InvKeyed(s);
    var q := Visit(true, StartPass(s), s.tasks, poll);
    EndCarries(q);
    PassExact(true, s, poll, EndWait(q));
  }

  /** One pass of the straggler loop: it ends the run when no task was ready and none goes on. */
  lemma StragglerPassExact(s: State, poll: nat -> Seen)
    requires Inv(s) && s.phase == Stragglers
    ensures Keyed(s, s.tasks)
    ensures var r := StragglerPass(s, poll);
            && PassDone(false, s, r, poll)
            && r.phase == if !AnyReady(s.tasks, poll) && r.tasks == [] then Returned else Stragglers
  {
    InvKeyed(s);
    var q := Visit(false, StartPass(s), s.tasks, poll);
    EndCarries(q);
    PassExact(false, s, poll, EndStragglers(q));
    VisitFlags(false, StartPass(s), s.tasks, poll);
    assert AnyReady(s.tasks, poll) <==> ReadyBefore(s.tasks, poll, |s.tasks|);
  }

  /** The `i`-th chosen checkpoint has the `i`-th new task, which starts at the time of its launch. */
  ghost predicate Started(s: State, r: State, chosen: seq<Checkpoint>, poll: nat -> Seen, i: nat)
    requires i < |chosen| && |s.tasks| + |chosen| <= |r.tasks|
  {
    var t := s.nextTask + i;
    r.tasks[|s.tasks| + i] == Entry(t, poll(t).now) && t in r.owner && r.owner[t] == chosen[i]
  }

  /** A launch: the chosen checkpoints get the next task numbers in order, and what was running goes on. */
  lemma {:induction false} LaunchAllExact(s: State, chosen: seq<Checkpoint>, poll: nat -> Seen)
    requires forall t :: t in s.owner ==> t < s.nextTask
    ensures var r := LaunchAll(s, chosen, poll);
            && r.nextTask == s.nextTask + |chosen| && r.status == s.status
            && |r.tasks| == |s.tasks| + |chosen| && s.tasks <= r.tasks
            && (forall t :: t in r.owner ==> t < r.nextTask)
            && (forall t :: t in s.owner ==> t in r.owner && r.owner[t] == s.owner[t])
            && (forall i: nat :: i < |chosen| ==> Started(s, r, chosen, poll, i))
  {
    if chosen != [] {
      var front := chosen[..|chosen| - 1];
      LaunchAllExact(s, front, poll);
      var before, r := LaunchAll(s, front, poll), LaunchAll(s, chosen, poll);
      forall i: nat | i < |chosen|
        ensures Started(s, r, chosen, poll, i)
      {
        if i < |front| {
          assert Started(s, before, front, poll, i);
        }
      }
    }
  }

  // ----- how each status comes about -----

  /** The step decides about checkpoint `c`: one of its passes polls the checkpoint's task, and finds it ready with a
      result file, ready without one, or, in the straggler loop, not ready after an hour or more. */
  ghost predicate Decides(p: State, input: Input, c: Checkpoint, v: Status) {
    && (p.phase == Waiting || p.phase == Stragglers)
    && exists j :: 0 <= j < |p.tasks| && p.tasks[j].task in p.owner && p.owner[p.tasks[j].task] == c
                   && PollSays(p.phase, p.tasks[j], input.poll(p.tasks[j].task), v)
  }

  ghost predicate PollSays(phase: Phase, e: Entry, seen: Seen, v: Status) {
    match v
    case Successful => seen.ready && seen.result
    case Failed => seen.ready && !seen.result
    case TimedOut => !seen.ready && phase == Stragglers && seen.now - e.start >= 3600.0
    case NotRun => false
  }

  lemma TaskOf(s: State, c: Checkpoint) returns (j: nat)
    requires Inv(s) && Outstanding(s, c)
    ensures j < |s.tasks| && s.tasks[j].task in s.owner && s.owner[s.tasks[j].task] == c
  {
    var t :| t in s.owner && s.owner[t] == c;
    assert t in Ids(s.tasks);
    j :| 0 <= j < |s.tasks| && Ids(s.tasks)[j] == t;
  }

  /** What a pass means for one checkpoint. */
  lemma PassOnCheckpoint(s: State, r: State, input: Input, c: Checkpoint, v: Status)
    requires Inv(s) && Keyed(s, s.tasks) && (s.phase == Waiting || s.phase == Stragglers)
    requires PassDone(s.phase == Waiting, s, r, input.poll)
    requires c in s.considered && v != NotRun
    ensures c in r.status
    ensures s.status[c] == NotRun ==> (r.status[c] == v <==> Decides(s, input, c, v))
    ensures s.status[c] != NotRun ==> r.status[c] == s.status[c]
  {
    if Outstanding(s, c) {
      var j := TaskOf(s, c);
      assert TaskAfter(s.phase == Waiting, s, r, input.poll, j);
      if Decides(s, input, c, v) {
        var k :| 0 <= k < |s.tasks| && s.tasks[k].task in s.owner && s.owner[s.tasks[k].task] == c
                 && PollSays(s.phase, s.tasks[k], input.poll(s.tasks[k].task), v);
        assert Ids(s.tasks)[k] == Ids(s.tasks)[j];
        assert k == j;
      }
    } else {
      assert r.status[c] == s.status[c];
    }
  }

  lemma LaunchKeepsStatus(s: State, input: Input)
    requires Inv(s) && s.phase == Launching && Admissible(s, input)
    ensures Step(s, input).status == s.status
  {
    LaunchAllExact(BeginRound(s, Chosen(s, input)), Chosen(s, input), input.poll);
  }

  /** One step on one checkpoint: a status that is not final becomes `v` exactly when the step decides so, and a final
      one stays. */
  lemma StepDecides(s: State, input: Input, c: Checkpoint, v: Status)
    requires Inv(s) && s.phase != Returned && Admissible(s, input) && c in s.considered && v != NotRun
    ensures c in Step(s, input).status
    ensures s.status[c] == NotRun ==> (Step(s, input).status[c] == v <==> Decides(s, input, c, v))
    ensures s.status[c] != NotRun ==> Step(s, input).status[c] == s.status[c]
  {
    match s.phase
    case Launching =>
      LaunchKeepsStatus(s, input);
    case Waiting =>
      WaitPassExact(s, input.poll);
      PassOnCheckpoint(s, WaitPass(s, input.poll), input, c, v);
    case Stragglers =>
      StragglerPassExact(s, input.poll);
      PassOnCheckpoint(s, StragglerPass(s, input.poll), input, c, v);
  }

  /** Step `n` of the run decides. */
  ghost predicate DecidedAt(s: State, inputs: seq<Input>, n: nat, c: Checkpoint, v: Status)
    requires Inv(s)
  {
    n < |inputs| && Decides(RunFrom(s, inputs[..n]), inputs[n], c, v)
  }

  lemma DecidedLater(s: State, inputs: seq<Input>, n: nat, c: Checkpoint, v: Status)
    requires Inv(s) && inputs != [] && s.phase != Returned && Admissible(s, inputs[0])
    ensures DecidedAt(s, inputs, n + 1, c, v) <==> DecidedAt(Step(s, inputs[0]), inputs[1..], n, c, v)
  {
    if n + 1 < |inputs| {
      assert inputs[..n + 1][0] == inputs[0] && inputs[..n + 1][1..] == inputs[1..][..n];
      assert inputs[1..][n] == inputs[n + 1];
    }
  }

  /** A final status stays over the whole run. */
  lemma {:induction false} FinalStays(s: State, inputs: seq<Input>, c: Checkpoint)
    requires Inv(s) && c in s.considered && s.status[c] != NotRun
    ensures c in RunFrom(s, inputs).status && RunFrom(s, inputs).status[c] == s.status[c]
    decreases |inputs|
  {
    if !(inputs == [] || s.phase == Returned || !Admissible(s, inputs[0])) {
      StepDecides(s, inputs[0], c, Successful);
      StepContinues(s, inputs[0]);
      FinalStays(Step(s, inputs[0]), inputs[1..], c);
    }
  }

  /** A run that stopped decides nothing more. */
  lemma StoppedDecides(s: State, inputs: seq<Input>, n: nat, c: Checkpoint, v: Status)
    requires Inv(s) && (inputs == [] || s.phase == Returned || !Admissible(s, inputs[0]))
    ensures !DecidedAt(s, inputs, n, c, v)
  {
    if n < |inputs| {
      assert n > 0 ==> inputs[..n][0] == inputs[0];
      assert RunFrom(s, inputs[..n]) == s;
    }
  }

  /** How a status comes about, over whole runs: a checkpoint that is not finished ends up Successful, Failed or TimedOut
      exactly when some step of the run polls its task and finds it ready with a result file, ready without one, or in
      the straggler loop not ready after an hour. So the first ready poll of an outstanding task decides. */
  lemma {:induction false} StatusHistory(s: State, inputs: seq<Input>, c: Checkpoint, v: Status)
    requires Inv(s) && c in s.considered && s.status[c] == NotRun && v != NotRun
    ensures c in RunFrom(s, inputs).status
    ensures RunFrom(s, inputs).status[c] == v <==> exists n: nat :: DecidedAt(s, inputs, n, c, v)
    decreases |inputs|
  {
    if inputs == [] || s.phase == Returned || !Admissible(s, inputs[0]) {
      forall n: nat
        ensures !DecidedAt(s, inputs, n, c, v)
      {
        StoppedDecides(s, inputs, n, c, v);
      }
    } else {
      var next := Step(s, inputs[0]);
      StepDecides(s, inputs[0], c, v);
      StepContinues(s, inputs[0]);
      DecidedFirst(s, inputs, c, v);
      if next.status[c] == NotRun {
        StatusHistory(next, inputs[1..], c, v);
        LaterSteps(s, inputs, c, v);
      } else {
        FinalStays(next, inputs[1..], c);
        DecidedOnce(s, inputs, c, v);
      }
    }
  }

  /** The status recorded for the checkpoint is the one some poll of its task decided on; without such a poll there is
      none. */
  ghost predicate Recorded(s: State, inputs: seq<Input>, r: State, c: Checkpoint)
    requires Inv(s)
  {
    && c in r.status
    && (r.status[c] == Successful <==> exists n: nat :: DecidedAt(s, inputs, n, c, Successful))
    && (r.status[c] == Failed <==> exists n: nat :: DecidedAt(s, inputs, n, c, Failed))
    && (r.status[c] == TimedOut <==> exists n: nat :: DecidedAt(s, inputs, n, c, TimedOut))
  }

  lemma AllRecorded(s: State, inputs: seq<Input>)
    requires Inv(s)
    ensures forall c :: c in s.considered && s.status[c] == NotRun ==> Recorded(s, inputs, RunFrom(s, inputs), c)
  {
    forall c | c in s.considered && s.status[c] == NotRun
      ensures Recorded(s, inputs, RunFrom(s, inputs), c)
    {
      StatusHistory(s, inputs, c, Successful);
      StatusHistory(s, inputs, c, Failed);
      StatusHistory(s, inputs, c, TimedOut);
    }
  }

  lemma DecidedFirst(s: State, inputs: seq<Input>, c: Checkpoint, v: Status)
    requires Inv(s) && inputs != []
    ensures DecidedAt(s, inputs, 0, c, v) <==> Decides(s, inputs[0], c, v)
  {
    assert inputs[..0] == [];
  }

  lemma LaterSteps(s: State, inputs: seq<Input>, c: Checkpoint, v: Status)
    requires Inv(s) && inputs != [] && s.phase != Returned && Admissible(s, inputs[0])
    requires !DecidedAt(s, inputs, 0, c, v)
    ensures (exists n: nat :: DecidedAt(s, inputs, n, c, v)) <==> exists n: nat :: DecidedAt(Step(s, inputs[0]), inputs[1..], n, c, v)
  {
    if n: nat :| DecidedAt(s, inputs, n, c, v) {
      DecidedLater(s, inputs, n - 1, c, v);
    }
    if n: nat :| DecidedAt(Step(s, inputs[0]), inputs[1..], n, c, v) {
      DecidedLater(s, inputs, n, c, v);
      assert DecidedAt(s, inputs, n + 1, c, v);
    }
  }

  /** Once decided, never again. */
  lemma DecidedOnce(s: State, inputs: seq<Input>, c: Checkpoint, v: Status)
    requires Inv(s) && inputs != [] && s.phase != Returned && Admissible(s, inputs[0]) && c in s.considered && v != NotRun
    requires c in Step(s, inputs[0]).status && Step(s, inputs[0]).status[c] != NotRun
    ensures (exists n: nat :: DecidedAt(s, inputs, n, c, v)) <==> DecidedAt(s, inputs, 0, c, v)
  {
    if n: nat :| DecidedAt(s, inputs, n, c, v) {
      if n > 0 {
        NotDecidedAgain(s, inputs, n, c, v);
      }
    }
  }

  lemma NotDecidedAgain(s: State, inputs: seq<Input>, n: nat, c: Checkpoint, v: Status)
    requires Inv(s) && inputs != [] && s.phase != Returned && Admissible(s, inputs[0]) && c in s.considered && v != NotRun
    requires c in Step(s, inputs[0]).status && Step(s, inputs[0]).status[c] != NotRun && n > 0
    ensures !DecidedAt(s, inputs, n, c, v)
  {
    DecidedLater(s, inputs, n - 1, c, v);
    NextUndecided(s, inputs[0], Step(s, inputs[0]), inputs[1..], n - 1, c, v);
  }

  lemma NextUndecided(s: State, input: Input, next: State, rest: seq<Input>, n: nat, c: Checkpoint, v: Status)
    requires Inv(s) && s.phase != Returned && Admissible(s, input) && c in s.considered && next == Step(s, input)
    requires c in next.status && next.status[c] != NotRun
    ensures !DecidedAt(next, rest, n, c, v)
  {
    StepContinues(s, input);
    FinishedUndecided(next, rest, n, c, v);
  }

  lemma FinishedUndecided(s: State, inputs: seq<Input>, n: nat, c: Checkpoint, v: Status)
    requires Inv(s) && c in s.considered && c in s.status && s.status[c] != NotRun
    ensures !DecidedAt(s, inputs, n, c, v)
  {
    if n < |inputs| {
      var p := RunFrom(s, inputs[..n]);
      FinalStays(s, inputs[..n], c);
      RunContinues(s, inputs[..n]);
      assert !Outstanding(p, c);
    }
  }

  // ----- progress -----

  /** What makes a pass do something about an outstanding entry: it is ready, or its time is over. */
  predicate Due(phase: Phase, e: Entry, seen: Seen) {
    || seen.ready
    || seen.now - e.start > TIMEOUT_SECONDS
    || (phase == Stragglers && seen.now - e.start == TIMEOUT_SECONDS)
  }

  /** A step that can move the run on: a launch, a pass over nothing, or a pass that finds something due. */
  ghost predicate Presses(s: State, input: Input) {
    s.phase == Launching || s.tasks == [] || exists e :: e in s.tasks && Due(s.phase, e, input.poll(e.task))
  }

  function Rank(phase: Phase): nat {
    match phase
    case Launching => 1
    case Waiting => 2
    case Stragglers => 1
    case Returned => 0
  }

  /** How many pressing steps are left at most. */
  function Distance(s: State): nat {
    3 * |s.pending| + |s.tasks| + Rank(s.phase)
  }

  function PhaseOf(waiting: bool): Phase {
    if waiting then Waiting else Stragglers
  }

  /** A visit keeps no more than it visits; if it keeps all, none was ready and the longest time did not shrink. */
  lemma {:induction false} VisitShrinks(waiting: bool, p: Pass, todo: seq<Entry>, poll: nat -> Seen)
    requires Keyed(p.s, todo)
    ensures var q := Visit(waiting, p, todo, poll);
            && |q.kept| <= |p.kept| + |todo|
            && (|q.kept| == |p.kept| + |todo| ==> q.any == p.any && q.maxTime >= p.maxTime)
    decreases |todo|
  {
    if todo != [] {
      KeyedTail(waiting, p, todo, poll(todo[0].task));
      VisitShrinks(waiting, One(waiting, p, todo[0], poll(todo[0].task)), todo[1..], poll);
    }
  }

  /** If something is due, a visit drops an entry or, in the wait loop, sees that the time is over. */
  lemma {:induction false} VisitPresses(waiting: bool, p: Pass, todo: seq<Entry>, poll: nat -> Seen, e: Entry)
    requires Keyed(p.s, todo) && e in todo && Due(PhaseOf(waiting), e, poll(e.task))
    ensures var q := Visit(waiting, p, todo, poll);
            |q.kept| == |p.kept| + |todo| ==> waiting && (p.any || q.maxTime > TIMEOUT_SECONDS)
    decreases |todo|
  {
    var seen := poll(todo[0].task);
    KeyedTail(waiting, p, todo, seen);
    var next := One(waiting, p, todo[0], seen);
    VisitShrinks(waiting, next, todo[1..], poll);
    if e != todo[0] {
      VisitPresses(waiting, next, todo[1..], poll, e);
    }
  }

  /** If nothing is due, a visit keeps everything as it is. */
  lemma {:induction false} VisitIdles(waiting: bool, p: Pass, todo: seq<Entry>, poll: nat -> Seen)
    requires Keyed(p.s, todo) && forall e :: e in todo ==> !Due(PhaseOf(waiting), e, poll(e.task))
    requires !p.any && p.maxTime <= TIMEOUT_SECONDS
    ensures var q := Visit(waiting, p, todo, poll);
            && q.s == p.s && q.kept == p.kept + todo && !q.any && q.maxTime <= TIMEOUT_SECONDS
            && q.quiet == (p.quiet && todo == [])
    decreases |todo|
  {
    if todo == [] {
      assert p.kept + todo == p.kept;
    } else {
      KeyedTail(waiting, p, todo, poll(todo[0].task));
      var next := One(waiting, p, todo[0], poll(todo[0].task));
      VisitIdles(waiting, next, todo[1..], poll);
      assert p.kept + todo == (p.kept + [todo[0]]) + todo[1..];
    }
  }

  lemma LaunchProgress(s: State, input: Input)
    requires Inv(s) && s.phase == Launching && Admissible(s, input)
    ensures Distance(Step(s, input)) < Distance(s)
  {
    assert Step(s, input) == LaunchRound(s, input);
    LaunchRoundTakes(s, input);
    LaunchRoundSame(s, input);
  }

  lemma PassSize(waiting: bool, s: State, poll: nat -> Seen)
    requires Inv(s) && Keyed(s, s.tasks)
    ensures var q := Visit(waiting, StartPass(s), s.tasks, poll);
            q.s.pending == s.pending && |q.kept| <= |s.tasks| && (s.tasks == [] ==> q == StartPass(s))
  {
    PassContinues(waiting, s, poll);
    VisitShrinks(waiting, StartPass(s), s.tasks, poll);
  }

  lemma EndWaitSize(q: Pass)
    ensures var r := EndWait(q);
            && r.pending == q.s.pending && r.tasks == q.kept && Rank(r.phase) <= 2
            && (q.kept == [] || (!q.any && q.maxTime > TIMEOUT_SECONDS) ==> Rank(r.phase) <= 1)
  {
  }

  /** A pass with something due leaves fewer entries, or ends the wait. */
  lemma WaitDue(s: State, poll: nat -> Seen, e: Entry)
    requires Inv(s) && Keyed(s, s.tasks) && e in s.tasks && Due(Waiting, e, poll(e.task))
    ensures var q := Visit(true, StartPass(s), s.tasks, poll);
            |q.kept| < |s.tasks| || (!q.any && q.maxTime > TIMEOUT_SECONDS)
  {
    VisitPresses(true, StartPass(s), s.tasks, poll, e);
    VisitShrinks(true, StartPass(s), s.tasks, poll);
  }

  lemma WaitProgress(s: State, input: Input)
    requires Inv(s) && s.phase == Waiting && Presses(s, input)
    ensures Distance(Step(s, input)) < Distance(s)
  {
    InvKeyed(s);
    var q := Visit(true, StartPass(s), s.tasks, input.poll);
    PassSize(true, s, input.poll);
    if s.tasks != [] {
      var e :| e in s.tasks && Due(s.phase, e, input.poll(e.task));
      WaitDue(s, input.poll, e);
    }
    EndWaitSize(q);
    assert Step(s, input) == EndWait(q);
  }

  lemma StragglerProgress(s: State, input: Input)
    requires Inv(s) && s.phase == Stragglers && Presses(s, input)
    ensures Distance(Step(s, input)) < Distance(s)
  {
    InvKeyed(s);
    var q := Visit(false, StartPass(s), s.tasks, input.poll);
    assert Step(s, input) == EndStragglers(q);
    PassSize(false, s, input.poll);
    if s.tasks != [] {
      var e :| e in s.tasks && Due(s.phase, e, input.poll(e.task));
      VisitPresses(false, StartPass(s), s.tasks, input.poll, e);
    }
  }

  lemma PassIdles(s: State, input: Input)
    requires Inv(s) && (s.phase == Waiting || s.phase == Stragglers) && !Presses(s, input)
    ensures Step(s, input) == s
  {
    InvKeyed(s);
    var waiting := s.phase == Waiting;
    VisitIdles(waiting, StartPass(s), s.tasks, input.poll);
    var q := Visit(waiting, StartPass(s), s.tasks, input.poll);
    assert q.kept == s.tasks;
    assert Step(s, input) == if waiting then EndWait(q) else EndStragglers(q);
  }

  /** Every step either brings the run closer to its end or leaves the state alone, and it does the first exactly when
      something is due. */
  lemma StepProgress(s: State, input: Input)
    requires Inv(s) && s.phase != Returned && Admissible(s, input)
    ensures Presses(s, input) ==> Distance(Step(s, input)) < Distance(s)
    ensures !Presses(s, input) ==> Step(s, input) == s
  {
    if !Presses(s, input) {
      PassIdles(s, input);
    } else if s.phase == Launching {
      LaunchProgress(s, input);
    } else if s.phase == Waiting {
      WaitProgress(s, input);
    } else {
      StragglerProgress(s, input);
    }
  }

  /** The number of pressing steps of a run. */
  ghost function Pressed(s: State, inputs: seq<Input>): nat
    requires Inv(s)
    decreases |inputs|
  {
    if inputs == [] || s.phase == Returned || !Admissible(s, inputs[0]) then 0
    else (if Presses(s, inputs[0]) then 1 else 0) + Pressed(Step(s, inputs[0]), inputs[1..])
  }

  lemma {:induction false} RunProgress(s: State, inputs: seq<Input>)
    requires Inv(s)
    ensures Pressed(s, inputs) + Distance(RunFrom(s, inputs)) <= Distance(s)
    decreases |inputs|
  {
    if !(inputs == [] || s.phase == Returned || !Admissible(s, inputs[0])) {
      StepProgress(s, inputs[0]);
      RunProgress(Step(s, inputs[0]), inputs[1..]);
    }
  }

  /** Pending and outstanding checkpoints are different ones. */
  lemma OutstandingBound(s: State)
    requires Inv(s)
    ensures |s.pending| + |s.tasks| <= |s.considered|
  {
    TaskKeys(s);
    OwnersCount(s.owner);
    assert s.owner.Values !! s.pending && s.owner.Values <= s.considered;
    assert |s.pending + s.owner.Values| == |s.pending| + |s.owner.Values|;
    SubsetSize(s.pending + s.owner.Values, s.considered);
  }

  lemma SubsetSize<T>(a: set<T>, b: set<T>)
    requires a <= b
    ensures |a| <= |b|
  {
    assert b == a + (b - a) && a !! (b - a);
  }

  lemma {:induction false} OwnersCount(owner: map<nat, Checkpoint>)
    requires forall t, u :: t in owner && u in owner && t != u ==> owner[t] != owner[u]
    ensures |owner.Values| == |owner|
    decreases |owner|
  {
    if owner != map[] {
      var t :| t in owner;
      OneOwnerLess(owner, t);
      OwnersCount(owner - {t});
    }
  }

  lemma OneOwnerLess(owner: map<nat, Checkpoint>, t: nat)
    requires t in owner && forall u :: u in owner && u != t ==> owner[t] != owner[u]
    ensures var rest := owner - {t};
            |owner| == |rest| + 1 && owner.Values == rest.Values + {owner[t]} && owner[t] !in rest.Values
  {
    var rest := owner - {t};
    assert owner.Keys == rest.Keys + {t};
    forall c | c in owner.Values
      ensures c in rest.Values || c == owner[t]
    {
      var u :| u in owner && owner[u] == c;
      assert u != t ==> rest[u] == c;
    }
  }

  /** `start` returns: whatever the order of completions and timeouts, a run has returned once it made as many steps
      with something due as the distance at its start, which is linear in the number of checkpoints. */
  lemma Returns(s: State, inputs: seq<Input>)
    requires Inv(s)
    ensures Distance(s) <= 3 * |s.considered| + 2
    ensures Pressed(s, inputs) >= Distance(s) ==> RunFrom(s, inputs).phase == Returned
  {
    OutstandingBound(s);
    RunProgress(s, inputs);
  }

  /** A run in which every step finds something due, such as one in which every poll comes after the time limit. */
  ghost predicate Driven(s: State, inputs: seq<Input>)
    requires Inv(s)
    decreases |inputs|
  {
    inputs == [] || s.phase == Returned
    || (Admissible(s, inputs[0]) && Presses(s, inputs[0]) && Driven(Step(s, inputs[0]), inputs[1..]))
  }

  lemma {:induction false} DrivenPressed(s: State, inputs: seq<Input>)
    requires Inv(s) && Driven(s, inputs)
    ensures RunFrom(s, inputs).phase == Returned || Pressed(s, inputs) == |inputs|
    decreases |inputs|
  {
    if inputs != [] && s.phase != Returned {
      DrivenPressed(Step(s, inputs[0]), inputs[1..]);
    }
  }

  lemma DrivenReturns(s: State, inputs: seq<Input>)
    requires Inv(s) && Driven(s, inputs) && |inputs| >= 3 * |s.considered| + 2
    ensures RunFrom(s, inputs).phase == Returned
  {
    Returns(s, inputs);
    DrivenPressed(s, inputs);
  }

  // ----- the successes can pass the target after a timeout -----

  function Silent(now: real): nat -> Seen {
    (t: nat) => Seen(false, false, now)
  }

  function AllDone(): nat -> Seen {
    (t: nat) => Seen(true, true, 0.0)
  }

  lemma LaunchOne(s: State, order: seq<Checkpoint>)
    requires Inv(s) && s.phase == Launching && s.target == s.successes + 1 && Listing(order, s.pending)
    ensures var r := Step(s, Input(order, Silent(0.0)));
            && r.phase == Waiting && r.target == s.target && r.successes == s.successes
            && |r.tasks| == |s.tasks| + 1 && |r.pending| == |s.pending| - 1
  {
    var input := Input(order, Silent(0.0));
    assert Step(s, input) == LaunchRound(s, input);
    LaunchRoundTakes(s, input);
    LaunchAllSame(BeginRound(s, Chosen(s, input)), Chosen(s, input), input.poll);
  }

  lemma RoundTimesOut(s: State)
    requires Inv(s) && s.phase == Waiting && |s.tasks| == 1 && s.successes < s.target && s.pending != {}
    ensures var r := Step(s, Input([], Silent(s.tasks[0].start + 3601.0)));
            r == s.(phase := Launching, roundTimedOut := true)
  {
    InvKeyed(s);
    var poll := Silent(s.tasks[0].start + 3601.0);
    assert Step(s, Input([], poll)) == WaitPass(s, poll);
    KeyedTail(true, StartPass(s), s.tasks, poll(s.tasks[0].task));
    var p := WaitOne(StartPass(s), s.tasks[0], poll(s.tasks[0].task));
    assert Visit(true, StartPass(s), s.tasks, poll) == Visit(true, p, s.tasks[1..], poll) == p;
    assert p.kept == s.tasks;
  }

  lemma BothFinish(s: State)
    requires Inv(s) && s.phase == Waiting && |s.tasks| == 2 && s.target == s.successes + 1
    ensures var r := Step(s, Input([], AllDone()));
            r.phase == Returned && r.successes == s.successes + 2 && r.target == s.target
  {
    InvKeyed(s);
    var poll := AllDone();
    assert Step(s, Input([], poll)) == WaitPass(s, poll);
    VisitTwo(StartPass(s), s.tasks);
  }

  lemma VisitTwo(p: Pass, todo: seq<Entry>)
    requires Keyed(p.s, todo) && |todo| == 2
    ensures var r := Visit(true, p, todo, AllDone());
            r.kept == p.kept && r.s.successes == p.s.successes + 2 && r.s.target == p.s.target && r.s.pending == p.s.pending
  {
    var poll := AllDone();
    KeyedTail(true, p, todo, poll(todo[0].task));
    var q := WaitOne(p, todo[0], poll(todo[0].task));
    KeyedTail(true, q, todo[1..], poll(todo[1].task));
    var r := WaitOne(q, todo[1], poll(todo[1].task));
    assert Visit(true, q, todo[1..], poll) == Visit(true, r, todo[1..][1..], poll) == r;
  }

  /** A round that times out with one task left and a success missing. */
  lemma GiveUp(s: State, first: seq<Checkpoint>) returns (in0: Input, in1: Input, s1: State, s2: State)
    requires Inv(s) && s.phase == Launching && s.target == s.successes + 1 && s.tasks == []
    requires |s.pending| >= 2 && Listing(first, s.pending)
    ensures in0.order == first && s1 == Step(s, in0) && s1.phase == Waiting
    ensures s2 == Step(s1, in1) && s2.phase == Launching
    ensures |s2.tasks| == 1 && s2.target == s.target && s2.successes == s.successes
  {
    in0 := Input(first, Silent(0.0));
    LaunchOne(s, first);
    s1 := Step(s, in0);
    in1 := Input([], Silent(s1.tasks[0].start + 3601.0));
    RoundTimesOut(s1);
    s2 := Step(s1, in1);
  }

  lemma Replace(s: State) returns (in2: Input, in3: Input, s3: State)
    requires Inv(s) && s.phase == Launching && s.target == s.successes + 1 && |s.tasks| == 1
    ensures Listing(in2.order, s.pending) && s3 == Step(s, in2) && s3.phase == Waiting
    ensures Step(s3, in3).phase == Returned && Step(s3, in3).successes == s.target + 1
  {
    var second := SomeListing(s.pending);
    in2 := Input(second, Silent(0.0));
    LaunchOne(s, second);
    s3 := Step(s, in2);
    in3 := Input([], AllDone());
    BothFinish(s3);
  }

  /** The restriction to runs without a round timeout is needed: from every launch with one success missing and two
      checkpoints pending there is a run that passes the target, because what a round gave up on and its
      replacement can both succeed. */
  lemma OvershootAfterTimeout(s: State, first: seq<Checkpoint>)
    returns (inputs: seq<Input>)
    requires Inv(s) && s.phase == Launching && s.target == s.successes + 1 && s.tasks == []
    requires |s.pending| >= 2 && Listing(first, s.pending)
    ensures RunFrom(s, inputs).phase == Returned && RunFrom(s, inputs).successes == s.target + 1
  {
    var in0, in1, s1, s2 := GiveUp(s, first);
    var in2, in3, s3 := Replace(s2);
    var last := Step(s3, in3);
    RunPrepend(s3, in3, []);
    RunPrepend(s2, in2, [in3] + []);
    RunPrepend(s1, in1, [in2] + ([in3] + []));
    RunPrepend(s, in0, [in1] + ([in2] + ([in3] + [])));
    inputs := [in0] + ([in1] + ([in2] + ([in3] + [])));
  }

  lemma RunPrepend(s: State, input: Input, rest: seq<Input>)
    requires Inv(s) && s.phase != Returned && Admissible(s, input)
    ensures RunFrom(s, [input] + rest) == RunFrom(Step(s, input), rest)
  {
    assert ([input] + rest)[0] == input && ([input] + rest)[1..] == rest;
  }

  lemma {:induction false} SomeListing(pending: set<Checkpoint>) returns (order: seq<Checkpoint>)
    ensures Listing(order, pending)
  {
    if pending == {} {
      order := [];
    } else {
      var c :| c in pending;
      var rest := SomeListing(pending - {c});
      order := rest + [c];
    }
  }

  // ----- resumption -----

  /** The checkpoints a saved summary leaves to run. */
  function Remaining(saved: map<Checkpoint, Status>, found: set<Checkpoint>): set<Checkpoint> {
    set c | c in found && (c in saved ==> saved[c] == NotRun)
  }

  function Reset(saved: map<Checkpoint, Status>, todo: set<Checkpoint>): map<Checkpoint, Status> {
    saved + map c | c in todo :: NotRun
  }

  /** How many of the visited entries have status `x`. */
  ghost function CountIn(status: map<Checkpoint, Status>, done: set<Checkpoint>, x: Status): nat
    requires done <= status.Keys
  {
    |set d | d in done && status[d] == x|
  }

  lemma CountAdd(status: map<Checkpoint, Status>, done: set<Checkpoint>, c: Checkpoint, x: Status)
    requires c in status && c !in done && done <= status.Keys
    ensures CountIn(status, done + {c}, x) == CountIn(status, done, x) + if status[c] == x then 1 else 0
  {
    var before := set d | d in done && status[d] == x;
    var after := set d | d in done + {c} && status[d] == x;
    if status[c] == x {
      assert after == before + {c};
    } else {
      assert after == before;
    }
  }

  lemma CountAll(status: map<Checkpoint, Status>, x: Status)
    ensures CountIn(status, status.Keys, x) == Count(status, x)
  {
    assert (set d | d in status.Keys && status[d] == x) == (set d | d in status && status[d] == x);
  }

  /** The checkpoints left after the visited entries took theirs away. */
  ghost function LeftAfter(saved: map<Checkpoint, Status>, found: set<Checkpoint>, done: set<Checkpoint>): set<Checkpoint>
    requires done <= saved.Keys
  {
    set c | c in found && (c in done ==> saved[c] == NotRun)
  }

  /** The walk over the saved summary: every final status is tallied and takes its checkpoint off the list. */
  method Tally(saved: map<Checkpoint, Status>, found: set<Checkpoint>)
    returns (chkpts: set<Checkpoint>, successes: nat, failures: nat)
    ensures chkpts == Remaining(saved, found)
    ensures successes == Count(saved, Successful) && failures == Count(saved, Failed)
  {
    chkpts, successes, failures := found, 0, 0;
    var rest := saved.Keys;
    ghost var done := {};
    while rest != {}
      invariant rest <= saved.Keys && done == saved.Keys - rest
      invariant chkpts == LeftAfter(saved, found, done)
      invariant successes == CountIn(saved, done, Successful) && failures == CountIn(saved, done, Failed)
      decreases |rest|
    {
      var c :| c in rest;
      CountAdd(saved, done, c, Successful);
      CountAdd(saved, done, c, Failed);
      assert LeftAfter(saved, found, done + {c}) == if saved[c] != NotRun then chkpts - {c} else chkpts;
      if saved[c] != NotRun {
        chkpts := chkpts - {c};
        if saved[c] == Failed {
          failures := failures + 1;
        } else if saved[c] == Successful {
          successes := successes + 1;
        }
      }
      rest := rest - {c};
      done := done + {c};
    }
    assert done == saved.Keys;
    CountAll(saved, Successful);
    CountAll(saved, Failed);
  }

  method MarkNotRun(saved: map<Checkpoint, Status>, chkpts: set<Checkpoint>) returns (status: map<Checkpoint, Status>)
    ensures status == Reset(saved, chkpts)
  {
    status := saved;
    var todo := chkpts;
    while todo != {}
      invariant todo <= chkpts
      invariant status == Reset(saved, chkpts - todo)
      decreases |todo|
    {
      var c :| c in todo;
      status := status[c := NotRun];
      todo := todo - {c};
    }
    assert chkpts - {} == chkpts;
  }

  /** The saved summary has a final status for the checkpoint. */
  ghost predicate Finished(saved: map<Checkpoint, Status>, c: Checkpoint) {
    c in saved && saved[c] != NotRun
  }

  /** A start without a saved summary considers everything it finds. */
  lemma FreshStart(found: set<Checkpoint>)
    ensures Remaining(map[], found) == found
  {
  }

  /** `__init__`: tallies from the saved summary, the checkpoints still to run, the target. With nothing to run it
      fails. `found` are the checkpoint directories that have a memory image. */
  method Resume(saved: map<Checkpoint, Status>, found: set<Checkpoint>, requested: Option<int>)
    returns (r: Option<State>)
    ensures r.None? <==> forall c :: c in found ==> Finished(saved, c)
    ensures r.Some? ==>
              var s := r.value;
              && Inv(s) && s.considered == s.pending && s.tasks == [] && s.launched == []
              && (forall c :: c in s.considered <==> c in found && !Finished(saved, c))
              && (forall c :: c in s.status <==> c in saved || c in s.considered)
              && (forall c :: c in s.status ==> s.status[c] == if c in s.considered then NotRun else saved[c])
              && s.successes == s.restored == Count(saved, Successful) && s.failures == Count(saved, Failed)
              && s.restoredTimeouts == Count(saved, TimedOut) && !s.roundTimedOut
              && s.target == (if requested.Some? && requested.value < |s.considered| + s.successes
                              then requested.value else |s.considered| + s.successes)
              && (s.phase == Launching <==> s.successes < s.target)
  {
    var chkpts, successes, failures := Tally(saved, found);
    assert forall c :: c in chkpts <==> c in found && !Finished(saved, c);
    if chkpts == {} {
      return None;
    }
    assert exists c :: c in chkpts;
    var status := MarkNotRun(saved, chkpts);
    var target: int := |chkpts| + successes;
    if requested.Some? && requested.value < target {
      target := requested.value;
    }
    var timeouts := Count(saved, TimedOut);
    var s := LoopHead(State(Launching, target, chkpts, [], map[], map[], status, successes, failures, 0,
                            chkpts, [], 0, false, successes, timeouts));
    FreshInv(saved, chkpts, s);
    return Some(s);
  }

  lemma ResetCount(saved: map<Checkpoint, Status>, todo: set<Checkpoint>, x: Status)
    requires x != NotRun && forall c :: c in todo && c in saved ==> saved[c] == NotRun
    ensures Count(Reset(saved, todo), x) == Count(saved, x)
  {
    var status := Reset(saved, todo);
    assert (set c | c in status && status[c] == x) == (set c | c in saved && saved[c] == x);
  }

  lemma FreshInv(saved: map<Checkpoint, Status>, todo: set<Checkpoint>, s: State)
    requires forall c :: c in todo && c in saved ==> saved[c] == NotRun
    requires s == LoopHead(s.(phase := Launching))
    requires s.pending == s.considered == todo && s.tasks == [] && s.owner == s.results == map[] && s.launched == []
    requires s.rounds == 0 && !s.roundTimedOut && s.status == Reset(saved, todo)
    requires s.successes == s.restored == Count(saved, Successful) && s.failures == Count(saved, Failed)
    requires s.restoredTimeouts == Count(saved, TimedOut)
    ensures Inv(s)
  {
    ResetCount(saved, todo, Successful);
    ResetCount(saved, todo, Failed);
    ResetCount(saved, todo, TimedOut);
    assert Ids(s.tasks) == [];
    assert forall c :: !Outstanding(s, c);
  }

  /** Resuming from the summary a run leaves restores its success counter exactly, considers again exactly what has
      no final status (and what is new), and forgets the timeouts from the failure counter. */
  lemma ResumeAfterRun(s: State, inputs: seq<Input>, found: set<Checkpoint>)
    requires Inv(s)
    ensures var r := RunFrom(s, inputs);
            && Count(r.status, Successful) == r.successes
            && Count(r.status, Failed) == r.failures + s.restoredTimeouts - Count(r.status, TimedOut)
            && (forall c :: c in s.considered && c in found ==>
                  (c in Remaining(r.status, found) <==> c in r.pending || Outstanding(r, c)))
  {
    RunContinues(s, inputs);
  }

  // ----- the object -----

  /** The scheduler object, with the fields of the source and the history as ghost state. */
  class ParallelSim {
    var phase: Phase
    const target: int
    var pending: set<Checkpoint>
    var tasks: seq<Entry>
    var results: map<nat, Checkpoint>
    var owner: map<nat, Checkpoint>
    var status: map<Checkpoint, Status>
    var successes: nat
    var failures: nat
    var nextTask: nat
    ghost var history: State

    ghost function View(): State
      reads this
    {
      history.(phase := phase, target := target, pending := pending, tasks := tasks, results := results, owner := owner,
               status := status, successes := successes, failures := failures, nextTask := nextTask)
    }

    constructor (s: State)
      ensures View() == s
    {
      phase, target, pending, tasks := s.phase, s.target, s.pending, s.tasks;
      results, owner, status := s.results, s.owner, s.status;
      successes, failures, nextTask := s.successes, s.failures, s.nextTask;
      history := s;
    }

    /** A task is popped from the dictionaries and its checkpoint gets its status. */
    method Pop(task: nat, verdict: Status)
      requires task in owner
      modifies this`results, this`owner, this`status, this`successes, this`failures
      ensures View() == Finish(old(View()), task, verdict)
    {
      status := status[owner[task] := verdict];
      results := results - {task};
      owner := owner - {task};
      if verdict == Successful {
        successes := successes + 1;
      } else {
        failures := failures + 1;
      }
    }

    method LaunchTask(c: Checkpoint, now: real)
      modifies this
      ensures View() == Launch(old(View()), c, now)
    {
      tasks := tasks + [Entry(nextTask, now)];
      results := results[nextTask := c];
      owner := owner[nextTask := c];
      history := history.(launched := history.launched + [c]);
      nextTask := nextTask + 1;
    }

    method LaunchEach(chosen: seq<Checkpoint>, poll: nat -> Seen)
      modifies this
      ensures View() == LaunchAll(old(View()), chosen, poll)
    {
      ghost var mid := View();
      assert chosen[..0] == [];
      for i := 0 to |chosen|
        invariant View() == LaunchAll(mid, chosen[..i], poll)
        modifies this
      {
        assert chosen[..i + 1][..i] == chosen[..i];
        LaunchTask(chosen[i], poll(nextTask).now);
      }
      assert chosen[..|chosen|] == chosen;
    }

    method LaunchTasks(order: seq<Checkpoint>, poll: nat -> Seen)
      requires successes < target
      modifies this
      ensures View() == LaunchRound(old(View()), Input(order, poll))
    {
      var chosen := Pick(order, target - successes);
      pending := pending - Elements(chosen);
      phase := Waiting;
      history := history.(rounds := history.rounds + 1);
      assert View() == BeginRound(old(View()), chosen);
      LaunchEach(chosen, poll);
    }

    /** One task of the wait loop. */
    method PollTask(e: Entry, seen: Seen, kept: seq<Entry>, any: bool, quiet: bool, maxTime: real)
      returns (kept': seq<Entry>, any': bool, quiet': bool, maxTime': real)
      requires e.task in owner
      modifies this`results, this`owner, this`status, this`successes, this`failures
      ensures Pass(View(), kept', any', quiet', maxTime') == WaitOne(Pass(old(View()), kept, any, quiet, maxTime), e, seen)
    {
      kept', any', quiet', maxTime' := kept, any, quiet, maxTime;
      if seen.ready {
        any' := true;
        Pop(e.task, if seen.result then Successful else Failed);
      } else if any {
        quiet' := false;
        kept' := kept + [Entry(e.task, seen.now)];
      } else {
        quiet' := false;
        kept' := kept + [e];
        maxTime' := if seen.now - e.start > maxTime then seen.now - e.start else maxTime;
      }
    }

    /** The loop over the tasks in the wait loop. */
    method VisitTasks(poll: nat -> Seen) returns (kept: seq<Entry>, any: bool, quiet: bool, maxTime: real)
      requires Keyed(View(), tasks)
      modifies this`results, this`owner, this`status, this`successes, this`failures
      ensures Pass(View(), kept, any, quiet, maxTime) == Visit(true, StartPass(old(View())), old(tasks), poll)
    {
      ghost var start := StartPass(View());
      kept, any, quiet, maxTime := [], false, true, 0.0;
      assert tasks[0..] == tasks;
      for i := 0 to |tasks|
        invariant Keyed(View(), tasks[i..])
        invariant Visit(true, start, tasks, poll) == Visit(true, Pass(View(), kept, any, quiet, maxTime), tasks[i..], poll)
      {
        ghost var p := Pass(View(), kept, any, quiet, maxTime);
        assert tasks[i..][0] == tasks[i] && tasks[i..][1..] == tasks[i + 1..] && tasks[i] in tasks[i..];
        KeyedTail(true, p, tasks[i..], poll(tasks[i].task));
        kept, any, quiet, maxTime := PollTask(tasks[i], poll(tasks[i].task), kept, any, quiet, maxTime);
      }
    }

    /** One pass of the wait loop. */
    method PollTasks(poll: nat -> Seen)
      requires Keyed(View(), tasks) && phase == Waiting
      modifies this
      ensures View() == WaitPass(old(View()), poll)
    {
      var kept, any, quiet, maxTime := VisitTasks(poll);
      tasks := kept;
      var done := quiet;
      if !any && maxTime > TIMEOUT_SECONDS {
        done := true;
        history := history.(roundTimedOut := true);
      }
      if |tasks| == 0 || successes >= target {
        done := true;
      }
      if done {
        NextRound();
      }
    }

    /** The condition of the round loop, and what follows it. */
    method NextRound()
      modifies this`phase
      ensures View() == LoopHead(old(View()))
    {
      if successes < target && pending != {} {
        phase := Launching;
      } else {
        phase := if successes >= target then Returned else Stragglers;
      }
    }

    /** One task of the straggler loop. */
    method PollStraggler(e: Entry, seen: Seen, kept: seq<Entry>, quiet: bool) returns (kept': seq<Entry>, quiet': bool)
      requires e.task in owner
      modifies this`results, this`owner, this`status, this`successes, this`failures
      ensures Pass(View(), kept', false, quiet', 0.0) == StragglerOne(Pass(old(View()), kept, false, quiet, 0.0), e, seen)
    {
      kept', quiet' := kept, quiet;
      if seen.ready {
        quiet' := false;
        Pop(e.task, if seen.result then Successful else Failed);
      } else if seen.now - e.start < TIMEOUT_SECONDS {
        quiet' := false;
        kept' := kept + [e];
      } else {
        Pop(e.task, TimedOut);
      }
    }

    /** One pass of the straggler loop. */
    method PollStragglers(poll: nat -> Seen)
      requires Keyed(View(), tasks) && phase == Stragglers
      modifies this
      ensures View() == StragglerPass(old(View()), poll)
    {
      ghost var start := StartPass(View());
      var kept, quiet := [], true;
      assert tasks[0..] == tasks;
      for i := 0 to |tasks|
        invariant tasks == old(tasks) && phase == Stragglers && history == old(history)
        invariant Keyed(View(), tasks[i..])
        invariant Visit(false, start, tasks, poll) == Visit(false, Pass(View(), kept, false, quiet, 0.0), tasks[i..], poll)
      {
        ghost var p := Pass(View(), kept, false, quiet, 0.0);
        assert tasks[i..][0] == tasks[i] && tasks[i..][1..] == tasks[i + 1..] && tasks[i] in tasks[i..];
        KeyedTail(false, p, tasks[i..], poll(tasks[i].task));
        kept, quiet := PollStraggler(tasks[i], poll(tasks[i].task), kept, quiet);
      }
      tasks := kept;
      if quiet {
        phase := Returned;
      }
    }

    /** One launch or one pass, by where control is. */
    method Advance(input: Input)
      requires Inv(View()) && phase != Returned && Admissible(View(), input)
      modifies this
      ensures View() == Step(old(View()), input)
    {
      InvKeyed(View());
      match phase {
        case Launching =>
          LaunchTasks(input.order, input.poll);
        case Waiting =>
          PollTasks(input.poll);
        case Stragglers =>
          PollStragglers(input.poll);
      }
    }

    /** `start`, for as long as the environment is given: each element of `inputs` is one launch or one pass. */
    method Start(inputs: seq<Input>)
      requires Inv(View())
      modifies this
      ensures View() == RunFrom(old(View()), inputs)
      ensures Pressed(old(View()), inputs) >= Distance(old(View())) ==> phase == Returned
      ensures forall c :: c in old(View()).considered && old(View()).status[c] == NotRun ==>
                            Recorded(old(View()), inputs, View(), c)
    {
      ghost var first, now := View(), View();
      var i := 0;
      assert inputs[0..] == inputs;
      while i < |inputs| && phase != Returned
        invariant 0 <= i <= |inputs| && View() == now && OnRun(first, inputs, i, now)
      {
        var stop := AdvanceIfListed(inputs[i]);
        if stop {
          break;
        }
        RunStep(first, inputs, i, now);
        now := Step(now, inputs[i]);
        i := i + 1;
      }
      RunDone(first, inputs, i, now);
      AllRecorded(first, inputs);
    }

    method AdvanceIfListed(input: Input) returns (stop: bool)
      requires Inv(View()) && phase != Returned
      modifies this
      ensures stop <==> !Admissible(old(View()), input)
      ensures View() == if stop then old(View()) else Step(old(View()), input)
    {
      var listed := Lists(input.order);
      stop := phase == Launching && !listed;
      if !stop {
        Advance(input);
      }
    }

    /** Whether an order lists the pending checkpoints. */
    method Lists(order: seq<Checkpoint>) returns (r: bool)
      ensures r <==> Listing(order, pending)
    {
      ListingBySize(order, pending);
      r := Elements(order) == pending && |order| == |pending|;
    }
  }

  lemma ListingBySize(order: seq<Checkpoint>, pending: set<Checkpoint>)
    ensures Listing(order, pending) <==> Elements(order) == pending && |order| == |pending|
  {
    if Listing(order, pending) {
      DistinctBySize(order);
      assert Elements(order) == pending;
    }
    if Elements(order) == pending && |order| == |pending| {
      DistinctBySize(order);
    }
  }
}
