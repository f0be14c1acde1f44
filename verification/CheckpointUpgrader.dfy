/** Migration of checkpoints by tags: loading of the upgraders with their dependencies, and the batch loop that applies
    what a checkpoint lacks. The order inside a batch is arbitrary, as it is for a Python set. */
module CheckpointUpgrader {
  import opened Basics

  type Tag = string

  datatype Kind = Up | Down

  /** One file of `cpt_upgraders`. */
  datatype Upgrader = Upgrader(kind: Kind, depends: seq<Tag>, fwdDepends: seq<Tag>, version: Option<int>)

  type Registry = map<Tag, Upgrader>

  // ----- the batch loop -----

  function TagSet(reg: Registry): set<Tag> {
    set t | t in reg && reg[t].kind == Up
  }

  function UntagSet(reg: Registry): set<Tag> {
    set t | t in reg && reg[t].kind == Down
  }

  /** Upgrades the checkpoint lacks and downgrades for tags it has. */
  function ToApply(reg: Registry, tags: set<Tag>): set<Tag> {
    (TagSet(reg) - tags) + (UntagSet(reg) * tags)
  }

  predicate IsReady(u: Upgrader, tags: set<Tag>) {
    forall d :: d in u.depends ==> d in tags
  }

  function Ready(reg: Registry, todo: set<Tag>, tags: set<Tag>): set<Tag> {
    set t | t in todo && t in reg && IsReady(reg[t], tags)
  }

  function AfterBatch(reg: Registry, batch: set<Tag>, tags: set<Tag>): set<Tag> {
    (tags + (batch * TagSet(reg))) - (batch * UntagSet(reg))
  }

  /** A run of the loop: the batches, what is left when it stops, and the tags it leaves. */
  datatype Run = Run(batches: seq<set<Tag>>, stuck: set<Tag>, tags: set<Tag>)

  function Schedule(reg: Registry, todo: set<Tag>, tags: set<Tag>): Run
    decreases |todo|
  {
    var ready := Ready(reg, todo, tags);
    if ready == {} then Run([], todo, tags)
    else
      FewerLeft(todo, ready);
      var rest := Schedule(reg, todo - ready, AfterBatch(reg, ready, tags));
      Run([ready] + rest.batches, rest.stuck, rest.tags)
  }

  lemma FewerLeft(todo: set<Tag>, ready: set<Tag>)
    requires ready <= todo && ready != {}
    ensures |todo - ready| < |todo|
  {
    assert |todo - ready| == |todo| - |ready|;
  }

  /** A sequence of applications that takes the batches one after another, each in some order. */
  ghost predicate Linearizes(applied: seq<Tag>, batches: seq<set<Tag>>) {
    if batches == [] then applied == []
    else
      var n := |batches[0]|;
      n <= |applied| && Elements(applied[..n]) == batches[0] && Linearizes(applied[n..], batches[1..])
  }

  /** `Upgrader.update` without the checkpoint's contents: a downgrade removes its tag, which has to be there. */
  method Update(reg: Registry, tag: Tag, tags: set<Tag>) returns (r: set<Tag>)
    requires tag in reg && (reg[tag].kind == Down ==> tag in tags)
    ensures r == AfterBatch(reg, {tag}, tags)
  {
    if reg[tag].kind == Up {
      r := tags + {tag};
    } else {
      r := tags - {tag};
    }
  }

  /** One batch, in an arbitrary order. */
  method ApplyBatch(reg: Registry, ready: set<Tag>, tags: set<Tag>) returns (r: set<Tag>, applied: seq<Tag>)
    requires forall t :: t in ready ==> t in reg && (reg[t].kind == Down ==> t in tags)
    ensures r == AfterBatch(reg, ready, tags)
    ensures Elements(applied) == ready && |applied| == |ready|
  {
    r, applied := tags, [];
    var rest := ready;
    while rest != {}
      invariant rest <= ready && Elements(applied) == ready - rest && |applied| == |ready| - |rest|
      invariant r == AfterBatch(reg, ready - rest, tags)
      decreases |rest|
    {
      var t :| t in rest;
      r := Update(reg, t, r);
      assert Elements(applied + [t]) == Elements(applied) + {t};
      applied := applied + [t];
      assert ready - (rest - {t}) == (ready - rest) + {t};
      rest := rest - {t};
    }
    assert ready - {} == ready;
  }

  /** Pending tags are known, and a pending downgrade has its tag. */
  ghost predicate Pending(reg: Registry, todo: set<Tag>, tags: set<Tag>) {
    forall t :: t in todo ==> t in reg && (reg[t].kind == Down ==> t in tags) && (reg[t].kind == Up ==> t !in tags)
  }

  lemma PendingNext(reg: Registry, todo: set<Tag>, batch: set<Tag>, tags: set<Tag>)
    requires Pending(reg, todo, tags)
    ensures Pending(reg, todo - batch, AfterBatch(reg, batch, tags))
  {
  }

  /** What has been done so far, followed by the schedule of the rest, is the whole schedule. */
  ghost predicate OnSchedule(run: Run, done: seq<set<Tag>>, rest: Run) {
    run.batches == done + rest.batches && run.stuck == rest.stuck && run.tags == rest.tags
  }

  lemma ScheduleStep(reg: Registry, todo: set<Tag>, tags: set<Tag>, run: Run, done: seq<set<Tag>>)
    requires OnSchedule(run, done, Schedule(reg, todo, tags)) && Ready(reg, todo, tags) != {}
    ensures var ready := Ready(reg, todo, tags);
            OnSchedule(run, done + [ready], Schedule(reg, todo - ready, AfterBatch(reg, ready, tags)))
  {
    var ready := Ready(reg, todo, tags);
    var rest := Schedule(reg, todo - ready, AfterBatch(reg, ready, tags));
    assert done + ([ready] + rest.batches) == (done + [ready]) + rest.batches;
  }

  /** One turn of the loop. */
  lemma BatchStep(reg: Registry, todo: set<Tag>, tags: set<Tag>, run: Run, done: seq<set<Tag>>)
    requires Pending(reg, todo, tags) && OnSchedule(run, done, Schedule(reg, todo, tags)) && Ready(reg, todo, tags) != {}
    ensures var ready := Ready(reg, todo, tags);
            var tags' := AfterBatch(reg, ready, tags);
            && |todo - ready| < |todo| && Pending(reg, todo - ready, tags')
            && OnSchedule(run, done + [ready], Schedule(reg, todo - ready, tags'))
  {
    FewerLeft(todo, Ready(reg, todo, tags));
    ScheduleStep(reg, todo, tags, run, done);
    PendingNext(reg, todo, Ready(reg, todo, tags), tags);
  }

  lemma ScheduleEnd(reg: Registry, todo: set<Tag>, tags: set<Tag>, run: Run, done: seq<set<Tag>>)
    requires OnSchedule(run, done, Schedule(reg, todo, tags)) && Ready(reg, todo, tags) == {}
    ensures run.batches == done && run.stuck == todo && run.tags == tags
  {
    assert done + [] == done;
  }

  /** What holds at the head of the loop: what is left, the tags, the applications, and the batches done. */
  ghost predicate Progress(reg: Registry, run: Run, todo: set<Tag>, tags: set<Tag>, applied: seq<Tag>, done: seq<set<Tag>>) {
    Pending(reg, todo, tags) && OnSchedule(run, done, Schedule(reg, todo, tags)) && Linearizes(applied, done)
  }

  lemma ProgressStart(reg: Registry, tags: set<Tag>)
    ensures Progress(reg, Schedule(reg, ToApply(reg, tags), tags), ToApply(reg, tags), tags, [], [])
  {
    var run := Schedule(reg, ToApply(reg, tags), tags);
    assert [] + run.batches == run.batches;
  }

  lemma ProgressStep(
    reg: Registry, run: Run, todo: set<Tag>, tags: set<Tag>, applied: seq<Tag>, done: seq<set<Tag>>, batch: seq<Tag>)
    requires Progress(reg, run, todo, tags, applied, done)
    requires Elements(batch) == Ready(reg, todo, tags) && |batch| == |Ready(reg, todo, tags)| && batch != []
    ensures var ready := Ready(reg, todo, tags);
            && |todo - ready| < |todo|
            && Progress(reg, run, todo - ready, AfterBatch(reg, ready, tags), applied + batch, done + [ready])
  {
    BatchStep(reg, todo, tags, run, done);
    LinearizesAppend(applied, done, batch, Ready(reg, todo, tags));
  }

  lemma ProgressEnd(reg: Registry, run: Run, todo: set<Tag>, tags: set<Tag>, applied: seq<Tag>, done: seq<set<Tag>>)
    requires Progress(reg, run, todo, tags, applied, done) && Ready(reg, todo, tags) == {}
    ensures run.stuck == todo && run.tags == tags && Linearizes(applied, run.batches)
  {
    ScheduleEnd(reg, todo, tags, run, done);
  }

  lemma {:induction false} LinearizesAppend(applied: seq<Tag>, done: seq<set<Tag>>, batch: seq<Tag>, ready: set<Tag>)
    requires Linearizes(applied, done) && Elements(batch) == ready && |batch| == |ready|
    ensures Linearizes(applied + batch, done + [ready])
  {
    if done == [] {
      assert applied + batch == batch && batch[..|ready|] == batch && batch[|ready|..] == [];
      assert (done + [ready])[1..] == [];
    } else {
      var n := |done[0]|;
      LinearizesAppend(applied[n..], done[1..], batch, ready);
      assert (applied + batch)[..n] == applied[..n] && (applied + batch)[n..] == applied[n..] + batch;
      assert (done + [ready])[1..] == done[1..] + [ready];
    }
  }

  // ----- what a run achieves -----

  function All(batches: seq<set<Tag>>): set<Tag> {
    if batches == [] then {} else batches[0] + All(batches[1..])
  }

  function TotalSize(batches: seq<set<Tag>>): nat {
    if batches == [] then 0 else |batches[0]| + TotalSize(batches[1..])
  }

  /** The batches and what is stuck make up what was pending, each tag once; the tags are those of the batches taken
      together; nothing that is stuck is ready. */
  lemma {:induction false} ScheduleResult(reg: Registry, todo: set<Tag>, tags: set<Tag>)
    ensures var run := Schedule(reg, todo, tags);
            && run.stuck <= todo && All(run.batches) == todo - run.stuck
            && TotalSize(run.batches) + |run.stuck| == |todo|
            && run.tags == AfterBatch(reg, todo - run.stuck, tags)
            && Ready(reg, run.stuck, run.tags) == {}
    decreases |todo|
  {
    var ready := Ready(reg, todo, tags);
    var run := Schedule(reg, todo, tags);
    if ready == {} {
      assert todo - run.stuck == {};
      assert AfterBatch(reg, {}, tags) == tags;
    } else {
      FewerLeft(todo, ready);
      var tags' := AfterBatch(reg, ready, tags);
      ScheduleResult(reg, todo - ready, tags');
      var rest := Schedule(reg, todo - ready, tags');
      BatchesCompose(reg, ready, todo - ready - rest.stuck, tags);
      assert ready + (todo - ready - rest.stuck) == todo - rest.stuck;
      assert ([ready] + rest.batches)[1..] == rest.batches;
      assert |todo - ready| == |todo| - |ready|;
    }
  }

  lemma BatchesCompose(reg: Registry, a: set<Tag>, b: set<Tag>, tags: set<Tag>)
    requires a !! b
    ensures AfterBatch(reg, b, AfterBatch(reg, a, tags)) == AfterBatch(reg, a + b, tags)
  {
  }

  /** A completed run leaves the checkpoint with every upgrade and no downgraded tag. */
  lemma CompletedTags(reg: Registry, tags: set<Tag>)
    requires Schedule(reg, ToApply(reg, tags), tags).stuck == {}
    ensures Schedule(reg, ToApply(reg, tags), tags).tags == (tags + TagSet(reg)) - UntagSet(reg)
  {
    ScheduleResult(reg, ToApply(reg, tags), tags);
    assert ToApply(reg, tags) - {} == ToApply(reg, tags);
  }

  /** A second run on the result has nothing to apply. */
  lemma SecondRunIdle(reg: Registry, tags: set<Tag>)
    requires Schedule(reg, ToApply(reg, tags), tags).stuck == {}
    ensures ToApply(reg, Schedule(reg, ToApply(reg, tags), tags).tags) == {}
  {
    CompletedTags(reg, tags);
  }

  lemma {:induction false} LinearizesElements(applied: seq<Tag>, batches: seq<set<Tag>>)
    requires Linearizes(applied, batches)
    ensures Elements(applied) == All(batches) && |applied| == TotalSize(batches)
  {
    if batches != [] {
      var n := |batches[0]|;
      LinearizesElements(applied[n..], batches[1..]);
      assert applied == applied[..n] + applied[n..];
      assert Elements(applied) == Elements(applied[..n]) + Elements(applied[n..]);
    }
  }

  /** Each pending migration is applied exactly once by a completed run. */
  lemma AppliedOnce(reg: Registry, tags: set<Tag>, applied: seq<Tag>)
    requires Schedule(reg, ToApply(reg, tags), tags).stuck == {}
    requires Linearizes(applied, Schedule(reg, ToApply(reg, tags), tags).batches)
    ensures Elements(applied) == ToApply(reg, tags)
    ensures Distinct(applied)
  {
    CompletedRun(reg, ToApply(reg, tags), tags, applied);
  }

  lemma CompletedRun(reg: Registry, todo: set<Tag>, tags: set<Tag>, applied: seq<Tag>)
    requires Schedule(reg, todo, tags).stuck == {} && Linearizes(applied, Schedule(reg, todo, tags).batches)
    ensures Elements(applied) == todo && Distinct(applied)
  {
    var batches := Schedule(reg, todo, tags).batches;
    assert All(batches) == todo && TotalSize(batches) == |todo| by {
      ScheduleResult(reg, todo, tags);
    }
    LinearizesElements(applied, batches);
    DistinctBySize(applied);
  }

  // ----- a run in the source's terms -----

  /** An upgrade the checkpoint lacks, or a downgrade for a tag it has. */
  ghost predicate Waiting(reg: Registry, tags: set<Tag>, t: Tag) {
    t in reg && if reg[t].kind == Up then t !in tags else t in tags
  }

  ghost predicate Among(batches: seq<set<Tag>>, k: nat, t: Tag)
    requires k <= |batches|
  {
    exists j :: 0 <= j < k && t in batches[j]
  }

  /** The checkpoint has the tag after the first `k` batches. */
  ghost predicate Has(reg: Registry, tags: set<Tag>, batches: seq<set<Tag>>, k: nat, t: Tag)
    requires k <= |batches|
  {
    if Among(batches, k, t) then t in reg && reg[t].kind == Up else t in tags
  }

  /** The migration is still to be applied after the first `k` batches, and the checkpoint has all it depends on. */
  ghost predicate Due(reg: Registry, tags: set<Tag>, todo: set<Tag>, batches: seq<set<Tag>>, k: nat, t: Tag)
    requires k <= |batches|
  {
    && t in todo && t in reg && !Among(batches, k, t)
    && forall d :: d in reg[t].depends ==> Has(reg, tags, batches, k, d)
  }

  /** Each batch is all that is due, and not empty; in the end nothing is due. */
  ghost predicate AllDue(reg: Registry, tags: set<Tag>, todo: set<Tag>, batches: seq<set<Tag>>) {
    && (forall k: nat, t :: k < |batches| ==> (t in batches[k] <==> Due(reg, tags, todo, batches, k, t)))
    && (forall k: nat :: k < |batches| ==> batches[k] != {})
    && (forall t :: !Due(reg, tags, todo, batches, |batches|, t))
  }

  /** The migrations of the batches, each once, batch after batch. */
  ghost predicate OneByOne(applied: seq<Tag>, batches: seq<set<Tag>>) {
    && Distinct(applied) && (forall t :: t in applied <==> Among(batches, |batches|, t))
    && forall i, j, k, l | 0 <= i < j < |applied| && 0 <= k < |batches| && 0 <= l < |batches| ::
         applied[i] in batches[k] && applied[j] in batches[l] ==> k <= l
  }

  ghost predicate Leaves(reg: Registry, tags: set<Tag>, batches: seq<set<Tag>>, final: set<Tag>) {
    forall t :: t in final <==> Has(reg, tags, batches, |batches|, t)
  }

  /** A run from a checkpoint with these tags: it is complete if all that waits was applied. */
  ghost predicate Migrates(reg: Registry, tags: set<Tag>, completed: bool, final: set<Tag>, applied: seq<Tag>) {
    var todo := set t | t in reg && Waiting(reg, tags, t);
    && (completed <==> forall t :: t in todo ==> t in applied)
    && exists batches: seq<set<Tag>> ::
         AllDue(reg, tags, todo, batches) && OneByOne(applied, batches) && Leaves(reg, tags, batches, final)
  }

  lemma AmongCons(first: set<Tag>, batches: seq<set<Tag>>, k: nat, t: Tag)
    requires k <= |batches|
    ensures Among([first] + batches, k + 1, t) <==> t in first || Among(batches, k, t)
  {
    var all := [first] + batches;
    assert all[0] == first;
    if j :| 0 <= j < k && t in batches[j] {
      assert t in all[j + 1];
    }
    if j :| 0 <= j < k + 1 && t in all[j] {
      assert j > 0 ==> t in batches[j - 1];
    }
  }

  lemma HasCons(reg: Registry, tags: set<Tag>, first: set<Tag>, batches: seq<set<Tag>>, k: nat, t: Tag)
    requires k <= |batches| && first <= reg.Keys
    ensures Has(reg, tags, [first] + batches, k + 1, t) <==> Has(reg, AfterBatch(reg, first, tags), batches, k, t)
  {
    AmongCons(first, batches, k, t);
  }

  lemma DueCons(
    reg: Registry, tags: set<Tag>, todo: set<Tag>, first: set<Tag>, batches: seq<set<Tag>>, k: nat, t: Tag)
    requires k <= |batches| && first <= reg.Keys
    ensures Due(reg, tags, todo, [first] + batches, k + 1, t)
       <==> Due(reg, AfterBatch(reg, first, tags), todo - first, batches, k, t)
  {
    AmongCons(first, batches, k, t);
    forall d
      ensures Has(reg, tags, [first] + batches, k + 1, d) <==> Has(reg, AfterBatch(reg, first, tags), batches, k, d)
    {
      HasCons(reg, tags, first, batches, k, d);
    }
  }

  lemma DueFirst(reg: Registry, tags: set<Tag>, todo: set<Tag>, batches: seq<set<Tag>>, t: Tag)
    ensures Due(reg, tags, todo, batches, 0, t) <==> t in Ready(reg, todo, tags)
  {
    assert forall d :: Has(reg, tags, batches, 0, d) <==> d in tags;
  }

  lemma AllDueCons(reg: Registry, tags: set<Tag>, todo: set<Tag>, first: set<Tag>, batches: seq<set<Tag>>)
    requires first == Ready(reg, todo, tags) && first != {}
    requires AllDue(reg, AfterBatch(reg, first, tags), todo - first, batches)
    ensures AllDue(reg, tags, todo, [first] + batches)
  {
    var all, next := [first] + batches, AfterBatch(reg, first, tags);
    forall k: nat, t | k < |all|
      ensures t in all[k] <==> Due(reg, tags, todo, all, k, t)
    {
      if k == 0 {
        DueFirst(reg, tags, todo, all, t);
      } else {
        DueCons(reg, tags, todo, first, batches, k - 1, t);
        assert all[k] == batches[k - 1];
      }
    }
    forall k: nat | k < |all|
      ensures all[k] != {}
    {
      assert k > 0 ==> all[k] == batches[k - 1];
    }
    forall t
      ensures !Due(reg, tags, todo, all, |all|, t)
    {
      DueCons(reg, tags, todo, first, batches, |batches|, t);
    }
  }

  /** The schedule is the run in the source's terms. */
  lemma {:induction false} ScheduleDue(reg: Registry, todo: set<Tag>, tags: set<Tag>)
    ensures AllDue(reg, tags, todo, Schedule(reg, todo, tags).batches)
    decreases |todo|
  {
    var ready := Ready(reg, todo, tags);
    if ready == {} {
      forall t
        ensures !Due(reg, tags, todo, [], 0, t)
      {
        DueFirst(reg, tags, todo, [], t);
      }
    } else {
      FewerLeft(todo, ready);
      var tags' := AfterBatch(reg, ready, tags);
      ScheduleDue(reg, todo - ready, tags');
      AllDueCons(reg, tags, todo, ready, Schedule(reg, todo - ready, tags').batches);
    }
  }

  lemma {:induction false} ScheduleHas(reg: Registry, todo: set<Tag>, tags: set<Tag>, t: Tag)
    ensures var run := Schedule(reg, todo, tags); t in run.tags <==> Has(reg, tags, run.batches, |run.batches|, t)
    decreases |todo|
  {
    var ready := Ready(reg, todo, tags);
    if ready != {} {
      FewerLeft(todo, ready);
      var tags' := AfterBatch(reg, ready, tags);
      ScheduleHas(reg, todo - ready, tags', t);
      var rest := Schedule(reg, todo - ready, tags').batches;
      HasCons(reg, tags, ready, rest, |rest|, t);
    }
  }

  lemma {:induction false} AmongAll(batches: seq<set<Tag>>, t: Tag)
    ensures Among(batches, |batches|, t) <==> t in All(batches)
  {
    if batches != [] {
      AmongAll(batches[1..], t);
      AmongCons(batches[0], batches[1..], |batches| - 1, t);
      assert [batches[0]] + batches[1..] == batches;
    }
  }

  lemma LinearOneByOne(reg: Registry, tags: set<Tag>, todo: set<Tag>, applied: seq<Tag>)
    requires Linearizes(applied, Schedule(reg, todo, tags).batches)
    ensures OneByOne(applied, Schedule(reg, todo, tags).batches) && Elements(applied) == todo - Schedule(reg, todo, tags).stuck
  {
    var run := Schedule(reg, todo, tags);
    ScheduleResult(reg, todo, tags);
    BatchesApart(reg, todo, tags);
    LinearizesElements(applied, run.batches);
    assert |todo - run.stuck| == |todo| - |run.stuck|;
    DistinctBySize(applied);
    forall t
      ensures t in applied <==> Among(run.batches, |run.batches|, t)
    {
      AmongAll(run.batches, t);
      assert t in applied <==> t in Elements(applied);
    }
    forall i, j, k, l | 0 <= i < j < |applied| && 0 <= k < |run.batches| && 0 <= l < |run.batches|
                        && applied[i] in run.batches[k] && applied[j] in run.batches[l]
      ensures k <= l
    {
      if l < k {
        EarlierBatchFirst(applied, run.batches, applied[j], applied[i], l, k, j, i);
      }
    }
  }

  lemma ScheduleLeaves(reg: Registry, todo: set<Tag>, tags: set<Tag>)
    ensures Leaves(reg, tags, Schedule(reg, todo, tags).batches, Schedule(reg, todo, tags).tags)
  {
    var run := Schedule(reg, todo, tags);
    forall t
      ensures t in run.tags <==> Has(reg, tags, run.batches, |run.batches|, t)
    {
      ScheduleHas(reg, todo, tags, t);
    }
  }

  lemma WaitingIsToApply(reg: Registry, tags: set<Tag>)
    ensures ToApply(reg, tags) == set t | t in reg && Waiting(reg, tags, t)
  {
  }

  lemma RunMigrates(reg: Registry, tags: set<Tag>, applied: seq<Tag>)
    requires Linearizes(applied, Schedule(reg, ToApply(reg, tags), tags).batches)
    ensures var run := Schedule(reg, ToApply(reg, tags), tags); Migrates(reg, tags, run.stuck == {}, run.tags, applied)
  {
    var todo := ToApply(reg, tags);
    ScheduleDue(reg, todo, tags);
    LinearOneByOne(reg, tags, todo, applied);
    ScheduleLeaves(reg, todo, tags);
    ScheduleResult(reg, todo, tags);
    RunEnds(reg, tags, todo, Schedule(reg, todo, tags), applied);
  }

  lemma RunEnds(reg: Registry, tags: set<Tag>, todo: set<Tag>, run: Run, applied: seq<Tag>)
    requires todo == ToApply(reg, tags) && run.stuck <= todo && Elements(applied) == todo - run.stuck
    requires AllDue(reg, tags, todo, run.batches) && OneByOne(applied, run.batches)
    requires Leaves(reg, tags, run.batches, run.tags)
    ensures Migrates(reg, tags, run.stuck == {}, run.tags, applied)
  {
    WaitingIsToApply(reg, tags);
    NothingStuck(todo, run.stuck);
    assert forall t :: t in applied <==> t in todo - run.stuck by {
      assert forall t :: t in applied <==> t in Elements(applied);
    }
  }

  lemma NothingStuck(todo: set<Tag>, stuck: set<Tag>)
    requires stuck <= todo
    ensures stuck == {} <==> forall t :: t in todo ==> t in todo - stuck
  {
    if stuck != {} {
      var t :| t in stuck;
      assert t !in todo - stuck;
    }
  }

  /** The loop of `process_file`: whatever the order inside the batches, it completes or aborts as `Schedule` says,
      leaves those tags, and applies the batches one after another. */
  method ApplyAll(reg: Registry, tags: set<Tag>) returns (completed: bool, final: set<Tag>, applied: seq<Tag>)
    ensures Migrates(reg, tags, completed, final, applied)
    ensures var run := Schedule(reg, ToApply(reg, tags), tags);
            && (completed <==> run.stuck == {})
            && final == run.tags
            && Linearizes(applied, run.batches)
  {
    final, applied := tags, [];
    var todo := ToApply(reg, tags);
    ghost var run, done: seq<set<Tag>> := Schedule(reg, todo, tags), [];
    ProgressStart(reg, tags);
    while todo != {}
      invariant Progress(reg, run, todo, final, applied, done)
      decreases |todo|
    {
      var ready := Ready(reg, todo, final);
      if ready == {} {
        ProgressEnd(reg, run, todo, final, applied, done);
        RunMigrates(reg, tags, applied);
        return false, final, applied;
      }
      var next, batch := ApplyBatch(reg, ready, final);
      ProgressStep(reg, run, todo, final, applied, done, batch);
      done := done + [ready];
      applied := applied + batch;
      todo := todo - ready;
      final := next;
    }
    ProgressEnd(reg, run, todo, final, applied, done);
    RunMigrates(reg, tags, applied);
    completed := true;
  }

  /** An order in which every migration finds its dependencies among the tags and the earlier migrations. */
  ghost predicate Respects(reg: Registry, tags: set<Tag>, order: seq<Tag>) {
    forall i, d :: 0 <= i < |order| && order[i] in reg && d in reg[order[i]].depends ==> d in tags || d in order[..i]
  }

  ghost predicate NoDowngrades(reg: Registry, todo: set<Tag>) {
    forall t :: t in todo ==> t in reg && reg[t].kind == Up
  }

  /** With no downgrade pending, every application finds its dependencies present. */
  lemma {:induction false} AppliedRespects(reg: Registry, todo: set<Tag>, tags: set<Tag>, applied: seq<Tag>)
    requires NoDowngrades(reg, todo)
    requires Linearizes(applied, Schedule(reg, todo, tags).batches)
    ensures Respects(reg, tags, applied)
    decreases |todo|
  {
    if applied != [] {
      FirstBatch(reg, todo, tags, applied);
      var ready := Ready(reg, todo, tags);
      AppliedRespects(reg, todo - ready, AfterBatch(reg, ready, tags), applied[|ready|..]);
      forall i, d | 0 <= i < |applied| && applied[i] in reg && d in reg[applied[i]].depends
        ensures d in tags || d in applied[..i]
      {
        RespectsStep(reg, todo, tags, applied, i, d);
      }
    }
  }

  lemma RespectsStep(reg: Registry, todo: set<Tag>, tags: set<Tag>, applied: seq<Tag>, i: nat, d: Tag)
    requires NoDowngrades(reg, todo)
    requires var n := |Ready(reg, todo, tags)|; n <= |applied| && Elements(applied[..n]) == Ready(reg, todo, tags)
    requires Respects(reg, AfterBatch(reg, Ready(reg, todo, tags), tags), applied[|Ready(reg, todo, tags)|..])
    requires i < |applied| && applied[i] in reg && d in reg[applied[i]].depends
    ensures d in tags || d in applied[..i]
  {
    var ready := Ready(reg, todo, tags);
    var n := |ready|;
    if i < n {
      assert applied[..n][i] in Elements(applied[..n]);
    } else if d !in tags {
      assert applied[n..][i - n] == applied[i];
      assert d in AfterBatch(reg, ready, tags) || d in applied[n..][..i - n];
      assert d in AfterBatch(reg, ready, tags) ==> d in Elements(applied[..n]);
      InPrefix(applied, n, i, d);
    }
  }

  /** With no downgrade pending, an aborted run had no chance: no order of the pending upgrades respects the
      dependencies. */
  lemma AbortMeansImpossible(reg: Registry, todo: set<Tag>, tags: set<Tag>, order: seq<Tag>)
    requires NoDowngrades(reg, todo) && Elements(order) == todo
    requires Schedule(reg, todo, tags).stuck != {}
    ensures !Respects(reg, tags, order)
  {
    ScheduleResult(reg, todo, tags);
    var run := Schedule(reg, todo, tags);
    var t :| t in run.stuck;
    assert t in Elements(order);
    var i := FirstStuck(order, run.stuck);
    assert order[i] in Elements(order) && order[i] !in Ready(reg, run.stuck, run.tags);
    var d :| d in reg[order[i]].depends && d !in run.tags;
    assert d in order[..i] ==> d in Elements(order);
  }

  lemma FirstStuck(order: seq<Tag>, stuck: set<Tag>) returns (i: nat)
    requires exists t :: t in order && t in stuck
    ensures i < |order| && order[i] in stuck && forall t :: t in order[..i] ==> t !in stuck
  {
    i := 0;
    while order[i] !in stuck
      invariant i < |order| && forall t :: t in order[..i] ==> t !in stuck
      invariant exists k :: i <= k < |order| && order[k] in stuck
      decreases |order| - i
    {
      i := i + 1;
    }
  }

  lemma SomeOrder(s: set<Tag>) returns (order: seq<Tag>)
    ensures Elements(order) == s && |order| == |s|
  {
    order := [];
    var rest := s;
    while rest != {}
      invariant rest <= s && Elements(order) == s - rest && |order| == |s| - |rest|
      decreases |rest|
    {
      var t :| t in rest;
      assert Elements(order + [t]) == Elements(order) + {t};
      order := order + [t];
      rest := rest - {t};
    }
  }

  lemma {:induction false} SomeLinearization(batches: seq<set<Tag>>) returns (applied: seq<Tag>)
    ensures Linearizes(applied, batches)
  {
    if batches == [] {
      applied := [];
    } else {
      var first := SomeOrder(batches[0]);
      var rest := SomeLinearization(batches[1..]);
      applied := first + rest;
      LinearizesFront(first, batches[0], rest, batches[1..]);
      assert batches == [batches[0]] + batches[1..];
    }
  }

  /** Scheduling is complete: with no downgrade pending, the loop completes exactly when some order of the pending
      upgrades respects the dependencies. */
  lemma CompletesIffPossible(reg: Registry, tags: set<Tag>)
    requires UntagSet(reg) * tags == {}
    ensures Schedule(reg, ToApply(reg, tags), tags).stuck == {}
       <==> exists order: seq<Tag> :: Elements(order) == ToApply(reg, tags) && Respects(reg, tags, order)
  {
    var todo := ToApply(reg, tags);
    if Schedule(reg, todo, tags).stuck == {} {
      var applied := SomeLinearization(Schedule(reg, todo, tags).batches);
      AppliedOnce(reg, tags, applied);
      AppliedRespects(reg, todo, tags, applied);
    } else {
      forall order: seq<Tag> | Elements(order) == todo
        ensures !Respects(reg, tags, order)
      {
        AbortMeansImpossible(reg, todo, tags, order);
      }
    }
  }

  lemma NotInFront(applied: seq<Tag>, n: nat, j: nat)
    requires n <= |applied| && j < |applied| && applied[j] !in Elements(applied[..n])
    ensures n <= j
  {
    assert forall k :: 0 <= k < n ==> applied[..n][k] == applied[k] && applied[k] in Elements(applied[..n]);
  }

  lemma InPrefix(applied: seq<Tag>, n: nat, j: nat, d: Tag)
    requires n <= j <= |applied| && (d in applied[..n] || d in applied[n..][..j - n])
    ensures d in applied[..j]
  {
    assert applied[..j] == applied[..n] + applied[n..][..j - n];
  }

  lemma FirstBatch(reg: Registry, todo: set<Tag>, tags: set<Tag>, applied: seq<Tag>)
    requires Linearizes(applied, Schedule(reg, todo, tags).batches) && applied != []
    ensures var ready := Ready(reg, todo, tags);
            && ready != {} && |todo - ready| < |todo| && |ready| <= |applied| && Elements(applied[..|ready|]) == ready
            && Linearizes(applied[|ready|..], Schedule(reg, todo - ready, AfterBatch(reg, ready, tags)).batches)
  {
    var ready := Ready(reg, todo, tags);
    FewerLeft(todo, ready);
    var rest := Schedule(reg, todo - ready, AfterBatch(reg, ready, tags));
    assert ([ready] + rest.batches)[1..] == rest.batches;
  }

  /** In any run, with downgrades or without, an upgrade that has to be applied itself comes before whatever depends
      on it. */
  lemma {:induction false} DependencyFirst(
    reg: Registry, todo: set<Tag>, tags: set<Tag>, applied: seq<Tag>, j: nat, d: Tag)
    requires Linearizes(applied, Schedule(reg, todo, tags).batches)
    requires j < |applied| && applied[j] in reg && d in reg[applied[j]].depends
    requires d in reg && reg[d].kind == Up && d !in tags
    ensures d in applied[..j]
    decreases |todo|
  {
    FirstBatch(reg, todo, tags, applied);
    var ready := Ready(reg, todo, tags);
    var n := |ready|;
    NotInFront(applied, n, j);
    if d in ready {
      assert d in Elements(applied[..n]);
    } else {
      DependencyFirst(reg, todo - ready, AfterBatch(reg, ready, tags), applied[n..], j - n, d);
    }
    InPrefix(applied, n, j, d);
  }

  /** The comment at the head of the script says that a tag depending on a downgraded tag waits for the downgrade. The
      loop does the opposite: such a migration is applied only if the tag is there at the start, and never in a later
      batch than the downgrade. */
  lemma {:induction false} DowngradeNeverAwaited(
    reg: Registry, todo: set<Tag>, tags: set<Tag>, t: Tag, d: Tag, i: nat)
    requires t in reg && d in reg[t].depends && d in reg && reg[d].kind == Down
    requires var run := Schedule(reg, todo, tags); i < |run.batches| && t in run.batches[i]
    ensures d in tags
    ensures forall k :: 0 <= k < i ==> d !in Schedule(reg, todo, tags).batches[k]
    decreases |todo|
  {
    var ready := Ready(reg, todo, tags);
    FewerLeft(todo, ready);
    var tags' := AfterBatch(reg, ready, tags);
    var rest := Schedule(reg, todo - ready, tags');
    assert Schedule(reg, todo, tags).batches == [ready] + rest.batches;
    if i > 0 {
      assert t in rest.batches[i - 1];
      DowngradeNeverAwaited(reg, todo - ready, tags', t, d, i - 1);
      forall k | 0 <= k < i
        ensures d !in Schedule(reg, todo, tags).batches[k]
      {
        if k > 0 {
          assert d !in rest.batches[k - 1];
        }
      }
    }
  }

  lemma {:induction false} InSomeBatch(batches: seq<set<Tag>>, t: Tag) returns (i: nat)
    requires t in All(batches)
    ensures i < |batches| && t in batches[i]
  {
    if t in batches[0] {
      i := 0;
    } else {
      var k := InSomeBatch(batches[1..], t);
      i := k + 1;
    }
  }

  /** So a pending migration that depends on a downgraded tag the checkpoint no longer has blocks every run. */
  lemma AwaitingDowngradeAborts(reg: Registry, tags: set<Tag>, t: Tag, d: Tag)
    requires t in ToApply(reg, tags) && d in reg[t].depends && d in reg && reg[d].kind == Down && d !in tags
    ensures t in Schedule(reg, ToApply(reg, tags), tags).stuck
  {
    var todo := ToApply(reg, tags);
    ScheduleResult(reg, todo, tags);
    if t !in Schedule(reg, todo, tags).stuck {
      var i := InSomeBatch(Schedule(reg, todo, tags).batches, t);
      DowngradeNeverAwaited(reg, todo, tags, t, d, i);
    }
  }

  // ----- which orders are forced -----

  /** The first, if applied, comes before the second. */
  ghost predicate Before(applied: seq<Tag>, t: Tag, u: Tag) {
    forall p, q :: 0 <= p < |applied| && 0 <= q < |applied| && applied[p] == t && applied[q] == u ==> p < q
  }

  /** The migration has to wait for one that the checkpoint lacks. */
  ghost predicate Waits(reg: Registry, tags: set<Tag>, t: Tag, d: Tag) {
    t in reg && d in reg[t].depends && d !in tags
  }

  /** Each member of the chain waits for the one before. */
  ghost predicate Chain(reg: Registry, tags: set<Tag>, chain: seq<Tag>, t: Tag) {
    && chain != [] && chain[|chain| - 1] == t
    && forall i {:trigger chain[i]} :: 0 < i < |chain| ==> Waits(reg, tags, chain[i], chain[i - 1])
  }

  lemma ScheduleUnfold(reg: Registry, todo: set<Tag>, tags: set<Tag>)
    requires Schedule(reg, todo, tags).batches != []
    ensures var ready := Ready(reg, todo, tags);
            && ready != {} && |todo - ready| < |todo|
            && Schedule(reg, todo, tags).batches
            == [ready] + Schedule(reg, todo - ready, AfterBatch(reg, ready, tags)).batches
  {
    FewerLeft(todo, Ready(reg, todo, tags));
  }

  lemma {:induction false} BatchesWithin(reg: Registry, todo: set<Tag>, tags: set<Tag>, t: Tag, b: nat)
    requires b < |Schedule(reg, todo, tags).batches| && t in Schedule(reg, todo, tags).batches[b]
    ensures t in todo
    decreases |todo|
  {
    ScheduleUnfold(reg, todo, tags);
    if b > 0 {
      var ready := Ready(reg, todo, tags);
      BatchesWithin(reg, todo - ready, AfterBatch(reg, ready, tags), t, b - 1);
    }
  }

  /** What a migration waits for is in an earlier batch. */
  lemma {:induction false} WaitsForEarlier(reg: Registry, todo: set<Tag>, tags: set<Tag>, t: Tag, d: Tag, b: nat)
    returns (a: nat)
    requires b < |Schedule(reg, todo, tags).batches| && t in Schedule(reg, todo, tags).batches[b]
    requires Waits(reg, tags, t, d)
    ensures a < b && d in Schedule(reg, todo, tags).batches[a]
    decreases |todo|
  {
    ScheduleUnfold(reg, todo, tags);
    var ready := Ready(reg, todo, tags);
    assert t !in ready;
    if d in ready {
      a := 0;
    } else {
      var before := WaitsForEarlier(reg, todo - ready, AfterBatch(reg, ready, tags), t, d, b - 1);
      a := before + 1;
    }
  }

  /** Nothing is put off: a migration waits for some member of the batch before its own. */
  lemma {:induction false} WaitsForPrevious(reg: Registry, todo: set<Tag>, tags: set<Tag>, t: Tag, b: nat)
    returns (d: Tag)
    requires 0 < b < |Schedule(reg, todo, tags).batches| && t in Schedule(reg, todo, tags).batches[b]
    ensures Waits(reg, tags, t, d) && d in Schedule(reg, todo, tags).batches[b - 1]
    decreases |todo|
  {
    ScheduleUnfold(reg, todo, tags);
    var ready := Ready(reg, todo, tags);
    var rest, after := todo - ready, AfterBatch(reg, ready, tags);
    if b == 1 {
      ScheduleUnfold(reg, rest, after);
      assert t in Ready(reg, rest, after) && t !in ready;
      d :| d in reg[t].depends && d !in tags;
    } else {
      d := WaitsForPrevious(reg, rest, after, t, b - 1);
      BatchesWithin(reg, rest, after, d, b - 2);
    }
  }

  lemma {:induction false} LongChain(reg: Registry, todo: set<Tag>, tags: set<Tag>, t: Tag, b: nat)
    returns (chain: seq<Tag>)
    requires b < |Schedule(reg, todo, tags).batches| && t in Schedule(reg, todo, tags).batches[b]
    ensures |chain| == b + 1 && Chain(reg, tags, chain, t)
    decreases b
  {
    if b == 0 {
      chain := [t];
    } else {
      var d := WaitsForPrevious(reg, todo, tags, t, b);
      var front := LongChain(reg, todo, tags, d, b - 1);
      chain := front + [t];
    }
  }

  lemma {:induction false} NoLongerChain(reg: Registry, todo: set<Tag>, tags: set<Tag>, t: Tag, b: nat, chain: seq<Tag>)
    requires b < |Schedule(reg, todo, tags).batches| && t in Schedule(reg, todo, tags).batches[b]
    requires Chain(reg, tags, chain, t)
    ensures |chain| <= b + 1
    decreases |chain|
  {
    if |chain| > 1 {
      var front, d := chain[..|chain| - 1], chain[|chain| - 2];
      assert Waits(reg, tags, chain[|chain| - 1], d);
      var a := WaitsForEarlier(reg, todo, tags, t, d, b);
      assert Chain(reg, tags, front, d);
      NoLongerChain(reg, todo, tags, d, a, front);
    }
  }

  ghost predicate Apart(batches: seq<set<Tag>>) {
    forall i, j :: 0 <= i < j < |batches| ==> batches[i] !! batches[j]
  }

  lemma {:induction false} BatchesApart(reg: Registry, todo: set<Tag>, tags: set<Tag>)
    ensures Apart(Schedule(reg, todo, tags).batches)
    decreases |todo|
  {
    var batches := Schedule(reg, todo, tags).batches;
    if batches != [] {
      ScheduleUnfold(reg, todo, tags);
      var ready := Ready(reg, todo, tags);
      var rest, after := todo - ready, AfterBatch(reg, ready, tags);
      BatchesApart(reg, rest, after);
      forall i, t | 0 <= i < |batches| - 1 && t in Schedule(reg, rest, after).batches[i]
        ensures t !in ready
      {
        BatchesWithin(reg, rest, after, t, i);
      }
    }
  }

  lemma LinearizesTail(applied: seq<Tag>, batches: seq<set<Tag>>)
    requires Linearizes(applied, batches) && batches != []
    ensures var n := |batches[0]|;
            n <= |applied| && Elements(applied[..n]) == batches[0] && Linearizes(applied[n..], batches[1..])
  {
  }

  lemma ApartTail(batches: seq<set<Tag>>)
    requires Apart(batches) && batches != []
    ensures Apart(batches[1..]) && forall t :: t in All(batches[1..]) ==> t !in batches[0]
  {
    forall t | t in All(batches[1..])
      ensures t !in batches[0]
    {
      var i := InSomeBatch(batches[1..], t);
      assert batches[0] !! batches[i + 1];
    }
  }

  /** Which members of the applied list belong to the first batch. */
  lemma InFirstBatch(applied: seq<Tag>, batches: seq<set<Tag>>, p: nat)
    requires Linearizes(applied, batches) && Apart(batches) && batches != [] && p < |applied|
    ensures applied[p] in batches[0] <==> p < |batches[0]|
  {
    LinearizesTail(applied, batches);
    var n := |batches[0]|;
    if p < n {
      assert applied[..n][p] in Elements(applied[..n]);
    } else {
      LinearizesElements(applied[n..], batches[1..]);
      assert applied[n..][p - n] in Elements(applied[n..]);
      ApartTail(batches);
    }
  }

  /** In any order of the batches' members, earlier batches come first. */
  lemma {:induction false} EarlierBatchFirst(
    applied: seq<Tag>, batches: seq<set<Tag>>, t: Tag, u: Tag, a: nat, b: nat, p: nat, q: nat)
    requires Linearizes(applied, batches) && Apart(batches)
    requires a < b < |batches| && t in batches[a] && u in batches[b]
    requires p < |applied| && q < |applied| && applied[p] == t && applied[q] == u
    ensures p < q
  {
    InFirstBatch(applied, batches, p);
    InFirstBatch(applied, batches, q);
    assert batches[0] !! batches[b];
    if a > 0 {
      assert batches[0] !! batches[a];
      LinearizesTail(applied, batches);
      ApartTail(batches);
      var n := |batches[0]|;
      EarlierBatchFirst(applied[n..], batches[1..], t, u, a - 1, b - 1, p - n, q - n);
    }
  }

  /** An order of a batch that begins with a given member. */
  lemma OrderFrom(batch: set<Tag>, t: Tag, u: Tag) returns (order: seq<Tag>, q: nat)
    requires t in batch && u in batch && t != u
    ensures Elements(order) == batch && |order| == |batch|
    ensures 0 < q < |order| && order[0] == t && order[q] == u
  {
    var others := SomeOrder(batch - {t});
    assert u in Elements(others);
    var i :| 0 <= i < |others| && others[i] == u;
    order, q := [t] + others, i + 1;
    assert Elements(order) == {t} + Elements(others);
  }

  /** Of two members of one batch either can be applied first. */
  lemma {:induction false} EitherFirst(batches: seq<set<Tag>>, b: nat, t: Tag, u: Tag)
    returns (applied: seq<Tag>, p: nat, q: nat)
    requires b < |batches| && t in batches[b] && u in batches[b] && t != u
    ensures Linearizes(applied, batches) && p < q < |applied| && applied[p] == t && applied[q] == u
  {
    var front, tail;
    if b == 0 {
      front, q := OrderFrom(batches[0], t, u);
      tail := SomeLinearization(batches[1..]);
      p := 0;
    } else {
      front := SomeOrder(batches[0]);
      tail, p, q := EitherFirst(batches[1..], b - 1, t, u);
      p, q := |front| + p, |front| + q;
    }
    applied := front + tail;
    assert batches == [batches[0]] + batches[1..];
    LinearizesFront(front, batches[0], tail, batches[1..]);
  }

  lemma InSomeRun(reg: Registry, todo: set<Tag>, tags: set<Tag>, t: Tag, b: nat, applied: seq<Tag>) returns (p: nat)
    requires b < |Schedule(reg, todo, tags).batches| && t in Schedule(reg, todo, tags).batches[b]
    requires Linearizes(applied, Schedule(reg, todo, tags).batches)
    ensures p < |applied| && applied[p] == t
  {
    LinearizesElements(applied, Schedule(reg, todo, tags).batches);
    InAll(Schedule(reg, todo, tags).batches, b, t);
    assert t in Elements(applied);
    p :| 0 <= p < |applied| && applied[p] == t;
  }

  lemma {:induction false} InAll(batches: seq<set<Tag>>, b: nat, t: Tag)
    requires b < |batches| && t in batches[b]
    ensures t in All(batches)
  {
    if b > 0 {
      InAll(batches[1..], b - 1, t);
    }
  }

  /** One migration comes before another in every run exactly when its batch is an earlier one. */
  lemma ForcedByBatch(reg: Registry, todo: set<Tag>, tags: set<Tag>, t: Tag, u: Tag, a: nat, b: nat)
    requires var batches := Schedule(reg, todo, tags).batches;
             a < |batches| && b < |batches| && t in batches[a] && u in batches[b] && t != u
    ensures (forall applied: seq<Tag> :: Linearizes(applied, Schedule(reg, todo, tags).batches) ==> Before(applied, t, u))
       <==> a < b
  {
    var batches := Schedule(reg, todo, tags).batches;
    if a < b {
      BatchesApart(reg, todo, tags);
      forall applied: seq<Tag> | Linearizes(applied, batches)
        ensures Before(applied, t, u)
      {
        forall p, q | 0 <= p < |applied| && 0 <= q < |applied| && applied[p] == t && applied[q] == u
          ensures p < q
        {
          EarlierBatchFirst(applied, batches, t, u, a, b, p, q);
        }
      }
    } else {
      var applied := Misordered(reg, todo, tags, t, u, a, b);
    }
  }

  lemma Misordered(reg: Registry, todo: set<Tag>, tags: set<Tag>, t: Tag, u: Tag, a: nat, b: nat)
    returns (applied: seq<Tag>)
    requires var batches := Schedule(reg, todo, tags).batches;
             b <= a < |batches| && t in batches[a] && u in batches[b] && t != u
    ensures Linearizes(applied, Schedule(reg, todo, tags).batches) && !Before(applied, t, u)
  {
    var batches, p, q := Schedule(reg, todo, tags).batches, 0, 0;
    if a == b {
      applied, q, p := EitherFirst(batches, a, u, t);
    } else {
      applied := SomeLinearization(batches);
      p := InSomeRun(reg, todo, tags, t, a, applied);
      q := InSomeRun(reg, todo, tags, u, b, applied);
      BatchesApart(reg, todo, tags);
      EarlierBatchFirst(applied, batches, u, t, b, a, q, p);
    }
    assert q < p && applied[p] == t && applied[q] == u;
  }

  /** Some chain of missing migrations that `u` waits for is longer than every one that `t` waits for. */
  ghost predicate Outlasts(reg: Registry, tags: set<Tag>, u: Tag, t: Tag) {
    exists chain: seq<Tag> :: Chain(reg, tags, chain, u) && Longest(reg, tags, t, |chain|)
  }

  ghost predicate Longest(reg: Registry, tags: set<Tag>, t: Tag, n: nat) {
    forall other: seq<Tag> :: Chain(reg, tags, other, t) ==> |other| < n
  }

  /** The exact order: of two migrations that a run applies, the first comes before the second in every run exactly when
      the second waits for a longer chain of missing migrations. */
  lemma ForcedOrder(reg: Registry, todo: set<Tag>, tags: set<Tag>, t: Tag, u: Tag)
    requires var applicable := All(Schedule(reg, todo, tags).batches); t in applicable && u in applicable && t != u
    ensures (forall applied: seq<Tag> :: Linearizes(applied, Schedule(reg, todo, tags).batches) ==> Before(applied, t, u))
       <==> Outlasts(reg, tags, u, t)
  {
    var a := InSomeBatch(Schedule(reg, todo, tags).batches, t);
    var b := InSomeBatch(Schedule(reg, todo, tags).batches, u);
    ForcedByBatch(reg, todo, tags, t, u, a, b);
    OutlastsByBatch(reg, todo, tags, t, u, a, b);
  }

  lemma OutlastsByBatch(reg: Registry, todo: set<Tag>, tags: set<Tag>, t: Tag, u: Tag, a: nat, b: nat)
    requires var batches := Schedule(reg, todo, tags).batches;
             a < |batches| && b < |batches| && t in batches[a] && u in batches[b]
    ensures Outlasts(reg, tags, u, t) <==> a < b
  {
    var mine := LongChain(reg, todo, tags, u, b);
    var others := LongChain(reg, todo, tags, t, a);
    if a < b {
      forall other: seq<Tag> | Chain(reg, tags, other, t)
        ensures |other| < |mine|
      {
        NoLongerChain(reg, todo, tags, t, a, other);
      }
      assert Longest(reg, tags, t, |mine|);
    } else if Outlasts(reg, tags, u, t) {
      var chain :| Chain(reg, tags, chain, u) && Longest(reg, tags, t, |chain|);
      NoLongerChain(reg, todo, tags, u, b, chain);
    }
  }

  // ----- legacy versions -----

  /** Version `k` depends on the one before. */
  ghost predicate Linked(reg: Registry, legacy: map<int, Tag>, k: int) {
    k in legacy && k - 1 in legacy && legacy[k] in reg && legacy[k - 1] in reg[legacy[k]].depends
  }

  ghost predicate Chained(reg: Registry, legacy: map<int, Tag>, lo: int, hi: int) {
    forall k :: lo < k <= hi ==> Linked(reg, legacy, k)
  }

  /** Legacy versions are applied in increasing order, when all the versions between two of them are missing too. */
  lemma {:induction false} LegacyInOrder(
    reg: Registry, legacy: map<int, Tag>, lo: int, hi: int, todo: set<Tag>, tags: set<Tag>, applied: seq<Tag>, p: nat)
    requires lo < hi && Chained(reg, legacy, lo, hi)
    requires forall k :: lo <= k <= hi ==> k in legacy && legacy[k] in reg && reg[legacy[k]].kind == Up && legacy[k] !in tags
    requires Linearizes(applied, Schedule(reg, todo, tags).batches)
    requires p < |applied| && applied[p] == legacy[hi]
    ensures legacy[lo] in applied[..p]
    decreases hi - lo
  {
    assert Linked(reg, legacy, hi);
    DependencyFirst(reg, todo, tags, applied, p, legacy[hi - 1]);
    if lo < hi - 1 {
      var q :| 0 <= q < p && applied[q] == legacy[hi - 1];
      LegacyInOrder(reg, legacy, lo, hi - 1, todo, tags, applied, q);
      assert legacy[lo] in applied[..q];
      assert forall x :: x in applied[..q] ==> x in applied[..p];
    }
  }

  function FourVersions(): Registry {
    map["v2" := Upgrader(Up, [], [], Some(2)), "v3" := Upgrader(Up, ["v2"], [], Some(3)),
        "v4" := Upgrader(Up, ["v3"], [], Some(4)), "v5" := Upgrader(Up, ["v4"], [], Some(5))]
  }

  /** The condition is needed: a checkpoint whose tag list has version 4 but not 2, 3 and 5 gets version 5 in the
      first batch and version 3 in the second. */
  lemma LegacyOutOfOrder()
    ensures var run := Schedule(FourVersions(), ToApply(FourVersions(), {"v4"}), {"v4"});
            run.stuck == {} && |run.batches| == 2 && "v5" in run.batches[0] && "v3" in run.batches[1]
  {
    var reg := FourVersions();
    var todo := ToApply(reg, {"v4"});
    assert "v2" != "v3" && "v2" != "v4" && "v2" != "v5" && "v3" != "v4" && "v3" != "v5" && "v4" != "v5" by {
      assert "v2"[1] == '2' && "v3"[1] == '3' && "v4"[1] == '4' && "v5"[1] == '5';
    }
    assert todo == {"v2", "v3", "v5"};
    var first := Ready(reg, todo, {"v4"});
    assert reg["v2"].depends == [] && reg["v3"].depends == ["v2"] && reg["v5"].depends == ["v4"];
    assert first == {"v2", "v5"};
    var tags' := AfterBatch(reg, first, {"v4"});
    assert todo - first == {"v3"};
    var second := Ready(reg, {"v3"}, tags');
    assert "v2" in tags';
    assert second == {"v3"};
    assert {"v3"} - second == {};
    var done := Schedule(reg, {}, AfterBatch(reg, second, tags'));
    assert Schedule(reg, {"v3"}, tags').batches == [second] + done.batches;
  }

  ghost predicate OnlyLinked(reg: Registry, legacy: map<int, Tag>, k: int) {
    Linked(reg, legacy, k) && Elements(reg[legacy[k]].depends) == {legacy[k - 1]}
  }

  /** Versions 2 up to `top`, exclusive, are upgrades, and from 3 on each depends on the one before and nothing else. */
  ghost predicate ChainOnly(reg: Registry, legacy: map<int, Tag>, top: int) {
    && LoadedFiles(reg, legacy)
    && (forall k :: 2 <= k < top ==> k in legacy && reg[legacy[k]].kind == Up)
    && (forall k :: 3 <= k < top ==> OnlyLinked(reg, legacy, k))
  }

  ghost predicate VersionsAscend(legacy: map<int, Tag>, top: int, applied: seq<Tag>) {
    forall i, j :: 2 <= i < j < top && i in legacy && j in legacy ==> Before(applied, legacy[i], legacy[j])
  }

  ghost predicate Lacks(legacy: map<int, Tag>, tags: set<Tag>, k: int) {
    k in legacy && legacy[k] !in tags
  }

  /** A version the checkpoint has lies between two that it lacks. */
  ghost predicate Gap(legacy: map<int, Tag>, tags: set<Tag>, top: int, k: int) {
    && 2 <= k < top && !Lacks(legacy, tags, k)
    && (exists i :: 2 <= i < k && Lacks(legacy, tags, i))
    && (exists j :: k < j < top && Lacks(legacy, tags, j))
  }

  lemma ChainOnlyChained(reg: Registry, legacy: map<int, Tag>, top: int, i: int, j: int)
    requires ChainOnly(reg, legacy, top) && 2 <= i < j < top
    ensures Chained(reg, legacy, i, j)
  {
    forall k | i < k <= j
      ensures Linked(reg, legacy, k)
    {
      assert OnlyLinked(reg, legacy, k);
    }
  }

  /** Without a gap, all that lies between two missing versions is missing. */
  lemma AllBetweenLack(legacy: map<int, Tag>, tags: set<Tag>, top: int, i: int, j: int, k: int)
    requires forall k :: 2 <= k < top ==> !Gap(legacy, tags, top, k)
    requires 2 <= i <= k <= j < top && Lacks(legacy, tags, i) && Lacks(legacy, tags, j)
    ensures Lacks(legacy, tags, k)
  {
    assert !Gap(legacy, tags, top, k);
  }

  lemma EarlierPosition(applied: seq<Tag>, t: Tag, p: nat, q: nat)
    requires Distinct(applied)
    requires p < |applied| && q < |applied| && applied[p] == t && t in applied[..q]
    ensures p < q
  {
    var r :| 0 <= r < q && applied[r] == t;
  }

  /** Without a gap the earlier of two versions comes first. */
  lemma NoGapAscends(reg: Registry, legacy: map<int, Tag>, top: int, tags: set<Tag>, applied: seq<Tag>, i: int, j: int)
    requires ChainOnly(reg, legacy, top) && 2 <= i < j < top
    requires Schedule(reg, ToApply(reg, tags), tags).stuck == {}
    requires Linearizes(applied, Schedule(reg, ToApply(reg, tags), tags).batches)
    requires forall k :: 2 <= k < top ==> !Gap(legacy, tags, top, k)
    ensures Before(applied, legacy[i], legacy[j])
  {
    AppliedOnce(reg, tags, applied);
    ChainOnlyChained(reg, legacy, top, i, j);
    forall p, q | 0 <= p < |applied| && 0 <= q < |applied| && applied[p] == legacy[i] && applied[q] == legacy[j]
      ensures p < q
    {
      assert legacy[i] in Elements(applied) && legacy[j] in Elements(applied);
      forall k | i <= k <= j
        ensures legacy[k] !in tags
      {
        AllBetweenLack(legacy, tags, top, i, j, k);
      }
      LegacyInOrder(reg, legacy, i, j, ToApply(reg, tags), tags, applied, q);
      EarlierPosition(applied, legacy[i], p, q);
    }
  }

  /** The first missing version behind one the checkpoint has. */
  lemma NextLacking(legacy: map<int, Tag>, tags: set<Tag>, k: int, j: int) returns (h: int)
    requires k < j && !Lacks(legacy, tags, k) && Lacks(legacy, tags, j)
    ensures k < h <= j && Lacks(legacy, tags, h) && !Lacks(legacy, tags, h - 1)
  {
    h := k + 1;
    while !Lacks(legacy, tags, h)
      invariant k < h <= j && !Lacks(legacy, tags, h - 1)
      decreases j - h
    {
      h := h + 1;
    }
  }

  lemma LinearizesFront(batch: seq<Tag>, ready: set<Tag>, tail: seq<Tag>, rest: seq<set<Tag>>)
    requires Elements(batch) == ready && |batch| == |ready| && Linearizes(tail, rest)
    ensures Linearizes(batch + tail, [ready] + rest)
  {
    assert (batch + tail)[..|batch|] == batch && (batch + tail)[|batch|..] == tail && ([ready] + rest)[1..] == rest;
  }

  /** A gap lets some run apply a later version first of all. */
  lemma GapMisorders(reg: Registry, legacy: map<int, Tag>, top: int, tags: set<Tag>, k: int) returns (applied: seq<Tag>)
    requires ChainOnly(reg, legacy, top) && Gap(legacy, tags, top, k)
    requires Schedule(reg, ToApply(reg, tags), tags).stuck == {}
    ensures Linearizes(applied, Schedule(reg, ToApply(reg, tags), tags).batches)
    ensures !VersionsAscend(legacy, top, applied)
  {
    var i :| 2 <= i < k && Lacks(legacy, tags, i);
    var j :| k < j < top && Lacks(legacy, tags, j);
    var h := NextLacking(legacy, tags, k, j);
    assert OnlyLinked(reg, legacy, h) && legacy[h - 1] in tags;
    assert forall d :: d in reg[legacy[h]].depends ==> d in Elements(reg[legacy[h]].depends);
    var todo := ToApply(reg, tags);
    assert legacy[h] in Ready(reg, todo, tags) && legacy[i] in todo;
    ScheduleResult(reg, todo, tags);
    var a := InSomeBatch(Schedule(reg, todo, tags).batches, legacy[i]);
    assert Schedule(reg, todo, tags).batches[0] == Ready(reg, todo, tags) by { ScheduleUnfold(reg, todo, tags); }
    applied := Misordered(reg, todo, tags, legacy[i], legacy[h], a, 0);
    assert !Before(applied, legacy[i], legacy[h]);
  }

  /** When legacy versions are applied in increasing order whatever order the sets are walked in: exactly when the
      checkpoint has no version between two that it lacks. */
  lemma LegacyOrderExact(reg: Registry, legacy: map<int, Tag>, top: int, tags: set<Tag>)
    requires ChainOnly(reg, legacy, top)
    requires Schedule(reg, ToApply(reg, tags), tags).stuck == {}
    ensures (forall applied: seq<Tag> :: Linearizes(applied, Schedule(reg, ToApply(reg, tags), tags).batches) ==>
                                           VersionsAscend(legacy, top, applied))
       <==> forall k :: 2 <= k < top ==> !Gap(legacy, tags, top, k)
  {
    if k :| 2 <= k < top && Gap(legacy, tags, top, k) {
      var applied := GapMisorders(reg, legacy, top, tags, k);
    } else {
      forall applied: seq<Tag> | Linearizes(applied, Schedule(reg, ToApply(reg, tags), tags).batches)
        ensures VersionsAscend(legacy, top, applied)
      {
        forall i, j | 2 <= i < j < top && i in legacy && j in legacy
          ensures Before(applied, legacy[i], legacy[j])
        {
          NoGapAscends(reg, legacy, top, tags, applied, i, j);
        }
      }
    }
  }

  lemma ForcedPair(reg: Registry, legacy: map<int, Tag>, tags: set<Tag>, i: int, j: int)
    requires LoadedFiles(reg, legacy) && forall k :: k in legacy ==> reg[legacy[k]].kind == Up
    requires Schedule(reg, ToApply(reg, tags), tags).stuck == {}
    requires i < j && Lacks(legacy, tags, i) && Lacks(legacy, tags, j)
    ensures Outlasts(reg, tags, legacy[j], legacy[i])
       <==> forall applied: seq<Tag> :: Linearizes(applied, Schedule(reg, ToApply(reg, tags), tags).batches) ==>
                                          Before(applied, legacy[i], legacy[j])
  {
    ScheduleResult(reg, ToApply(reg, tags), tags);
    ForcedOrder(reg, ToApply(reg, tags), tags, legacy[i], legacy[j]);
  }

  /** Only missing versions are applied. */
  lemma AppliedLacks(reg: Registry, legacy: map<int, Tag>, tags: set<Tag>, applied: seq<Tag>, k: int, p: nat)
    requires LoadedFiles(reg, legacy) && k in legacy && reg[legacy[k]].kind == Up
    requires Schedule(reg, ToApply(reg, tags), tags).stuck == {}
    requires Linearizes(applied, Schedule(reg, ToApply(reg, tags), tags).batches)
    requires p < |applied| && applied[p] == legacy[k]
    ensures Lacks(legacy, tags, k)
  {
    AppliedOnce(reg, tags, applied);
    assert legacy[k] in Elements(applied);
  }

  /** With further dependencies between the versions: they are applied in increasing order in every run exactly when of
      two missing ones the later waits for the longer chain of missing migrations. */
  lemma LegacyOrderForced(reg: Registry, legacy: map<int, Tag>, top: int, tags: set<Tag>)
    requires LoadedFiles(reg, legacy) && forall k :: k in legacy ==> reg[legacy[k]].kind == Up
    requires Schedule(reg, ToApply(reg, tags), tags).stuck == {}
    ensures (forall applied: seq<Tag> :: Linearizes(applied, Schedule(reg, ToApply(reg, tags), tags).batches) ==>
                                           VersionsAscend(legacy, top, applied))
       <==> forall i, j :: 2 <= i < j < top && Lacks(legacy, tags, i) && Lacks(legacy, tags, j) ==>
                             Outlasts(reg, tags, legacy[j], legacy[i])
  {
    var batches := Schedule(reg, ToApply(reg, tags), tags).batches;
    if forall applied: seq<Tag> :: Linearizes(applied, batches) ==> VersionsAscend(legacy, top, applied) {
      forall i, j | 2 <= i < j < top && Lacks(legacy, tags, i) && Lacks(legacy, tags, j)
        ensures Outlasts(reg, tags, legacy[j], legacy[i])
      {
        ForcedPair(reg, legacy, tags, i, j);
      }
    } else {
      var applied: seq<Tag> :| Linearizes(applied, batches) && !VersionsAscend(legacy, top, applied);
      var i, j :| 2 <= i < j < top && i in legacy && j in legacy && !Before(applied, legacy[i], legacy[j]);
      var p, q :| 0 <= p < |applied| && 0 <= q < |applied| && applied[p] == legacy[i] && applied[q] == legacy[j];
      AppliedLacks(reg, legacy, tags, applied, i, p);
      AppliedLacks(reg, legacy, tags, applied, j, q);
      ForcedPair(reg, legacy, tags, i, j);
    }
  }

  /** Tags of a checkpoint that only has a linear version number; fails on a version no upgrader claims. */
  method LegacyTags(legacy: map<int, Tag>, version: int) returns (ok: bool, tags: set<Tag>)
    ensures ok <==> forall k :: 2 <= k <= version ==> k in legacy
    ensures ok ==> tags == set k | 2 <= k <= version && k in legacy :: legacy[k]
  {
    tags := {};
    var i := 2;
    while i <= version
      invariant 2 <= i && (i <= version + 1 || i == 2)
      invariant forall k :: 2 <= k < i ==> k in legacy
      invariant tags == set k | 2 <= k < i && k in legacy :: legacy[k]
    {
      if i !in legacy {
        return false, tags;
      }
      tags := tags + {legacy[i]};
      i := i + 1;
    }
    ok := true;
  }

  // ----- loading -----

  /** The class dictionaries after all files were executed: `legacy` finds an upgrader of each version, the last one
      that claims it. */
  ghost predicate LoadedFiles(reg: Registry, legacy: map<int, Tag>) {
    forall k :: k in legacy ==> legacy[k] in reg && reg[legacy[k]].version == Some(k)
  }

  /** The tag is found under a version that is on the chain up to `top`, exclusive. */
  predicate OnChain(t: Tag, version: Option<int>, legacy: map<int, Tag>, top: int) {
    version.Some? && 3 <= version.value < top && version.value in legacy && legacy[version.value] == t
  }

  /** An entry after the chain was made: a version on the chain depends on the one before, alone, whatever its file
      says. */
  function LinkedEntry(t: Tag, u: Upgrader, legacy: map<int, Tag>, top: int): Upgrader {
    if OnChain(t, u.version, legacy, top) && u.version.value - 1 in legacy
    then u.(depends := [legacy[u.version.value - 1]])
    else u
  }

  /** The first version of 3, 4, ... that no upgrader claims. */
  ghost predicate ChainTop(legacy: map<int, Tag>, top: int) {
    3 <= top && top !in legacy && forall k :: 3 <= k < top ==> k in legacy
  }

  ghost function Top(legacy: map<int, Tag>): int
    ensures ChainTop(legacy, Top(legacy))
  {
    TopFrom(legacy, 3)
  }

  ghost function TopFrom(legacy: map<int, Tag>, i: int): (top: int)
    ensures i <= top && top !in legacy && forall k :: i <= k < top ==> k in legacy
    decreases |From(legacy, i)|
  {
    if i !in legacy then i
    else
      FromNext(legacy, i);
      TopFrom(legacy, i + 1)
  }

  function LinkedReg(reg: Registry, legacy: map<int, Tag>, top: int): Registry {
    map t | t in reg :: LinkedEntry(t, reg[t], legacy, top)
  }

  ghost function From(legacy: map<int, Tag>, i: int): set<int> {
    set k | k in legacy && k >= i
  }

  lemma FromNext(legacy: map<int, Tag>, i: int)
    requires i in legacy
    ensures |From(legacy, i + 1)| < |From(legacy, i)|
  {
    assert From(legacy, i) == From(legacy, i + 1) + {i};
  }

  lemma LinkNext(reg: Registry, legacy: map<int, Tag>, i: int)
    requires LoadedFiles(reg, legacy) && 3 <= i && i in legacy && i - 1 in legacy
    ensures legacy[i] in reg
    ensures LinkedReg(reg, legacy, i + 1)
         == LinkedReg(reg, legacy, i)[legacy[i] := LinkedReg(reg, legacy, i)[legacy[i]].(depends := [legacy[i - 1]])]
  {
    var r := LinkedReg(reg, legacy, i);
    var r' := r[legacy[i] := r[legacy[i]].(depends := [legacy[i - 1]])];
    assert r'.Keys == LinkedReg(reg, legacy, i + 1).Keys;
    forall t | t in reg
      ensures LinkedReg(reg, legacy, i + 1)[t] == r'[t]
    {
      assert OnChain(t, reg[t].version, legacy, i + 1) <==> OnChain(t, reg[t].version, legacy, i) || t == legacy[i];
    }
  }

  lemma LinkedNothing(reg: Registry, legacy: map<int, Tag>)
    ensures LinkedReg(reg, legacy, 3) == reg
  {
    assert forall t :: t in reg ==> !OnChain(t, reg[t].version, legacy, 3);
  }

  /** One version of the loop over legacy versions. */
  method LinkOne(ghost reg: Registry, legacy: map<int, Tag>, i: int, r: Registry) returns (next: Registry)
    requires LoadedFiles(reg, legacy) && 3 <= i && i in legacy && i - 1 in legacy && r == LinkedReg(reg, legacy, i)
    ensures next == LinkedReg(reg, legacy, i + 1)
  {
    LinkNext(reg, legacy, i);
    next := r[legacy[i] := r[legacy[i]].(depends := [legacy[i - 1]])];
  }

  /** The loop over legacy versions; it fails on a version 3 without a version 2. */
  method LinkLegacy(reg: Registry, legacy: map<int, Tag>) returns (ok: bool, r: Registry)
    requires LoadedFiles(reg, legacy)
    ensures ok <==> (3 in legacy ==> 2 in legacy)
    ensures ok ==> r == LinkedReg(reg, legacy, Top(legacy))
  {
    r := reg;
    var i := 3;
    LinkedNothing(reg, legacy);
    while i in legacy
      invariant 3 <= i && (i > 3 ==> 3 in legacy && 2 in legacy && i - 1 in legacy) && TopFrom(legacy, i) == Top(legacy)
      invariant r == LinkedReg(reg, legacy, i)
      decreases |From(legacy, i)|
    {
      if i - 1 !in legacy {
        return false, r;
      }
      FromNext(legacy, i);
      r := LinkOne(reg, legacy, i, r);
      i := i + 1;
    }
    return true, r;
  }

  /** The resolved dependencies of a tag: its own, and the tags that declare they come before it. */
  ghost predicate Resolved(reg: Registry, done: set<Tag>, t: Tag, u: Upgrader)
    requires t in reg && done <= reg.Keys
  {
    && u == reg[t].(depends := u.depends)
    && (forall d :: d in u.depends <==> d in reg[t].depends || (d in done && t in reg[d].fwdDepends))
  }

  /** All names a tag mentions are known. */
  ghost predicate Audited(reg: Registry, t: Tag)
    requires t in reg
  {
    (forall f :: f in reg[t].fwdDepends ==> f in reg) && (forall d :: d in reg[t].depends ==> d in reg)
  }

  /** An entry after the forward dependencies of `tag` (or the first few of them, `fwd`) were turned round. */
  ghost predicate Forwarded(u: Upgrader, tag: Tag, fwd: seq<Tag>, t: Tag, v: Upgrader) {
    v == u.(depends := v.depends) && forall d :: d in v.depends <==> d in u.depends || (d == tag && t in fwd)
  }

  /** The forward dependencies of one tag are appended to the tags they name; an unknown name stops the load. */
  method AddForward(reg: Registry, tag: Tag) returns (ok: bool, r: Registry)
    requires tag in reg
    ensures ok <==> forall f :: f in reg[tag].fwdDepends ==> f in reg
    ensures ok ==> r.Keys == reg.Keys && forall t :: t in reg ==> Forwarded(reg[t], tag, reg[tag].fwdDepends, t, r[t])
  {
    r := reg;
    var fwd := reg[tag].fwdDepends;
    for i := 0 to |fwd|
      invariant r.Keys == reg.Keys && forall f :: f in fwd[..i] ==> f in reg
      invariant forall t :: t in reg ==> Forwarded(reg[t], tag, fwd[..i], t, r[t])
    {
      if fwd[i] !in r {
        return false, r;
      }
      r := r[fwd[i] := r[fwd[i]].(depends := r[fwd[i]].depends + [tag])];
      assert fwd[..i + 1] == fwd[..i] + [fwd[i]];
    }
    assert fwd[..|fwd|] == fwd;
    ok := true;
  }

  lemma ResolvedNext(reg: Registry, done: set<Tag>, tag: Tag, t: Tag, u: Upgrader, v: Upgrader)
    requires t in reg && tag in reg && done <= reg.Keys
    requires Resolved(reg, done, t, u) && Forwarded(u, tag, reg[tag].fwdDepends, t, v)
    ensures Resolved(reg, done + {tag}, t, v)
  {
  }

  lemma AuditSeen(reg: Registry, done: set<Tag>, tag: Tag, u: Upgrader)
    requires tag in reg && done <= reg.Keys && Resolved(reg, done, tag, u)
    ensures Audited(reg, tag) <==> (forall f :: f in u.fwdDepends ==> f in reg) && (forall d :: d in u.depends ==> d in reg)
  {
  }

  ghost predicate AllResolved(reg: Registry, done: set<Tag>, r: Registry) {
    done <= reg.Keys && r.Keys == reg.Keys && forall t {:trigger r[t]} :: t in reg ==> Resolved(reg, done, t, r[t])
  }

  ghost predicate AllAudited(reg: Registry, done: set<Tag>) {
    done <= reg.Keys && forall t {:trigger Audited(reg, t)} :: t in done ==> Audited(reg, t)
  }

  lemma AuditedNext(reg: Registry, done: set<Tag>, tag: Tag)
    requires AllAudited(reg, done) && tag in reg && Audited(reg, tag)
    ensures AllAudited(reg, done + {tag})
  {
  }

  lemma NotAudited(reg: Registry, tag: Tag)
    requires tag in reg && !Audited(reg, tag)
    ensures !AllAudited(reg, reg.Keys)
  {
  }

  /** The second half of `load_all`: forward dependencies are turned round, all names are audited. In whatever order
      the tags are visited, it succeeds exactly when every name is known, and then each tag depends on what it
      declared and on whoever declared it as a follower. */
  method ResolveDepends(reg: Registry) returns (ok: bool, r: Registry)
    ensures ok <==> AllAudited(reg, reg.Keys)
    ensures ok ==> AllResolved(reg, reg.Keys, r)
  {
    r := reg;
    var rest := reg.Keys;
    ghost var done: set<Tag> := {};
    while rest != {}
      invariant rest <= reg.Keys && done == reg.Keys - rest
      invariant AllResolved(reg, done, r) && AllAudited(reg, done)
      decreases |rest|
    {
      var tag :| tag in rest;
      var good, next := ResolveOne(reg, done, r, tag);
      if !good {
        NotAudited(reg, tag);
        return false, r;
      }
      AuditedNext(reg, done, tag);
      done := done + {tag};
      r, rest := next, rest - {tag};
    }
    assert done == reg.Keys;
    ok := true;
  }

  /** One tag of that loop. */
  method ResolveOne(ghost reg: Registry, ghost done: set<Tag>, r: Registry, tag: Tag) returns (ok: bool, next: Registry)
    requires AllResolved(reg, done, r) && tag in r
    ensures ok <==> Audited(reg, tag)
    ensures ok ==> AllResolved(reg, done + {tag}, next)
  {
    assert Resolved(reg, done, tag, r[tag]);
    AuditSeen(reg, done, tag, r[tag]);
    ok, next := AddForward(r, tag);
    if ok {
      forall t | t in reg
        ensures Resolved(reg, done + {tag}, t, next[t])
      {
        ResolvedNext(reg, done, tag, t, r[t], next[t]);
      }
      AuditSeen(reg, done + {tag}, tag, next[tag]);
      ok := forall d :: d in next[tag].depends ==> d in next;
    }
  }

  lemma LoadedEntry(linked: Registry, r: Registry, t: Tag)
    requires AllAudited(linked, linked.Keys) && AllResolved(linked, linked.Keys, r) && t in linked
    ensures r[t].version == linked[t].version
    ensures forall d :: d in r[t].depends ==> d in linked
    ensures forall d :: d in linked[t].depends ==> d in r[t].depends
  {
    assert Resolved(linked, linked.Keys, t, r[t]) && Audited(linked, t);
  }

  /** A version on the chain depends on the one before. */
  lemma LoadedLink(reg: Registry, legacy: map<int, Tag>, k: int)
    requires LoadedFiles(reg, legacy) && (3 in legacy ==> 2 in legacy) && 3 <= k < Top(legacy)
    ensures k in legacy && k - 1 in legacy && legacy[k] in reg
    ensures LinkedReg(reg, legacy, Top(legacy))[legacy[k]].depends == [legacy[k - 1]]
  {
  }

  /** What loading promises of the result: every dependency is known, and the chain is linked. */
  lemma LoadedResult(reg: Registry, legacy: map<int, Tag>, linked: Registry, r: Registry)
    requires LoadedFiles(reg, legacy) && linked == LinkedReg(reg, legacy, Top(legacy)) && (3 in legacy ==> 2 in legacy)
    requires AllAudited(linked, linked.Keys) && AllResolved(linked, linked.Keys, r)
    ensures r.Keys == reg.Keys && forall t, d :: t in reg && d in r[t].depends ==> d in reg
    ensures LoadedFiles(r, legacy) && forall k :: 3 <= k < Top(legacy) ==> Linked(r, legacy, k)
  {
    forall t | t in reg
      ensures r[t].version == reg[t].version && forall d :: d in r[t].depends ==> d in reg
    {
      LoadedEntry(linked, r, t);
    }
    forall k | 3 <= k < Top(legacy)
      ensures Linked(r, legacy, k)
    {
      LoadedLink(reg, legacy, k);
      LoadedEntry(linked, r, legacy[k]);
    }
  }

  // ----- loading in the source's terms -----

  /** All versions from 3 to `k` are there. */
  ghost predicate Unbroken(legacy: map<int, Tag>, k: int) {
    3 <= k && forall j :: 3 <= j <= k ==> j in legacy
  }

  /** What the tag depends on before forward dependencies: a chained version on the one before it alone, any other tag on
      what its file says. */
  ghost predicate Declares(reg: Registry, legacy: map<int, Tag>, t: Tag, d: Tag)
    requires t in reg
  {
    if exists k :: Unbroken(legacy, k) && legacy[k] == t
    then exists k :: Unbroken(legacy, k) && legacy[k] == t && k - 1 in legacy && d == legacy[k - 1]
    else d in reg[t].depends
  }

  /** Every name that is mentioned is known, and a version 3 has a version 2 to depend on. */
  ghost predicate Loadable(reg: Registry, legacy: map<int, Tag>) {
    && (3 in legacy ==> 2 in legacy)
    && (forall t, d :: t in reg && Declares(reg, legacy, t, d) ==> d in reg)
    && (forall t, f :: t in reg && f in reg[t].fwdDepends ==> f in reg)
  }

  /** A tag depends on what it declares and on every tag that names it as a follower. */
  ghost predicate LoadsTo(reg: Registry, legacy: map<int, Tag>, r: Registry) {
    && r.Keys == reg.Keys
    && (forall t :: t in reg ==> r[t] == reg[t].(depends := r[t].depends))
    && (forall t, d :: t in reg ==> (d in r[t].depends <==> Declares(reg, legacy, t, d) || (d in reg && t in reg[d].fwdDepends)))
  }

  lemma UnbrokenMeans(legacy: map<int, Tag>, k: int)
    ensures Unbroken(legacy, k) <==> 3 <= k < Top(legacy)
  {
  }

  lemma DeclaresMeans(reg: Registry, legacy: map<int, Tag>, t: Tag, d: Tag)
    requires LoadedFiles(reg, legacy) && (3 in legacy ==> 2 in legacy) && t in reg
    ensures Declares(reg, legacy, t, d) <==> d in LinkedReg(reg, legacy, Top(legacy))[t].depends
  {
    var top := Top(legacy);
    forall k
      ensures Unbroken(legacy, k) <==> 3 <= k < top
    {
      UnbrokenMeans(legacy, k);
    }
    if k :| Unbroken(legacy, k) && legacy[k] == t {
      LoadedLink(reg, legacy, k);
      assert forall m :: Unbroken(legacy, m) && legacy[m] == t ==> m == k;
    }
  }

  lemma LoadableMeans(reg: Registry, legacy: map<int, Tag>)
    requires LoadedFiles(reg, legacy)
    ensures Loadable(reg, legacy)
       <==> (3 in legacy ==> 2 in legacy) && AllAudited(LinkedReg(reg, legacy, Top(legacy)), reg.Keys)
  {
    if 3 in legacy ==> 2 in legacy {
      var linked := LinkedReg(reg, legacy, Top(legacy));
      forall t, d | t in reg
        ensures Declares(reg, legacy, t, d) <==> d in linked[t].depends
      {
        DeclaresMeans(reg, legacy, t, d);
      }
      assert forall t :: t in reg ==> linked[t].fwdDepends == reg[t].fwdDepends;
      if AllAudited(linked, reg.Keys) {
        assert forall t :: t in reg ==> Audited(linked, t);
      }
    }
  }

  lemma ResolvedMeans(reg: Registry, legacy: map<int, Tag>, r: Registry)
    requires LoadedFiles(reg, legacy) && (3 in legacy ==> 2 in legacy)
    requires AllResolved(LinkedReg(reg, legacy, Top(legacy)), reg.Keys, r)
    ensures LoadsTo(reg, legacy, r)
  {
    var linked := LinkedReg(reg, legacy, Top(legacy));
    forall t | t in reg
      ensures r[t] == reg[t].(depends := r[t].depends)
    {
      assert Resolved(linked, reg.Keys, t, r[t]);
    }
    forall t, d | t in reg
      ensures d in r[t].depends <==> Declares(reg, legacy, t, d) || (d in reg && t in reg[d].fwdDepends)
    {
      LoadedDepends(reg, legacy, r, t, d);
      DeclaresMeans(reg, legacy, t, d);
    }
  }

  /** `load_all`. */
  method LoadAll(reg: Registry, legacy: map<int, Tag>) returns (ok: bool, r: Registry)
    requires LoadedFiles(reg, legacy)
    ensures ok <==> Loadable(reg, legacy)
    ensures ok ==> LoadsTo(reg, legacy, r)
    ensures ok <==> (3 in legacy ==> 2 in legacy) && AllAudited(LinkedReg(reg, legacy, Top(legacy)), reg.Keys)
    ensures ok ==> r.Keys == reg.Keys && forall t, d :: t in reg && d in r[t].depends ==> d in reg
    ensures ok ==> LoadedFiles(r, legacy) && forall k :: 3 <= k < Top(legacy) ==> Linked(r, legacy, k)
    ensures ok ==> AllResolved(LinkedReg(reg, legacy, Top(legacy)), reg.Keys, r)
  {
    LoadableMeans(reg, legacy);
    var linked;
    ok, linked := LinkLegacy(reg, legacy);
    r := linked;
    if ok {
      assert linked.Keys == reg.Keys;
      ok, r := ResolveDepends(linked);
      if ok {
        LoadedResult(reg, legacy, linked, r);
        ResolvedMeans(reg, legacy, r);
      }
    }
  }

  /** No forward dependency names a version on the chain. */
  ghost predicate NoneForced(reg: Registry, legacy: map<int, Tag>) {
    forall t, k :: t in reg && 3 <= k < Top(legacy) && k in legacy ==> legacy[k] !in reg[t].fwdDepends
  }

  lemma LoadedDepends(reg: Registry, legacy: map<int, Tag>, r: Registry, t: Tag, d: Tag)
    requires AllResolved(LinkedReg(reg, legacy, Top(legacy)), reg.Keys, r) && t in reg
    ensures t in r
    ensures d in r[t].depends <==>
            d in LinkedReg(reg, legacy, Top(legacy))[t].depends || (d in reg && t in reg[d].fwdDepends)
  {
    var linked := LinkedReg(reg, legacy, Top(legacy));
    assert Resolved(linked, reg.Keys, t, r[t]);
    assert d in reg ==> linked[d].fwdDepends == reg[d].fwdDepends;
  }

  lemma LoadedOnlyLinked(reg: Registry, legacy: map<int, Tag>, r: Registry, k: int)
    requires LoadedFiles(reg, legacy) && (3 in legacy ==> 2 in legacy) && NoneForced(reg, legacy)
    requires AllResolved(LinkedReg(reg, legacy, Top(legacy)), reg.Keys, r)
    requires 3 <= k < Top(legacy)
    ensures OnlyLinked(r, legacy, k)
  {
    LoadedLink(reg, legacy, k);
    forall d
      ensures d in r[legacy[k]].depends <==> d == legacy[k - 1]
    {
      LoadedDepends(reg, legacy, r, legacy[k], d);
    }
  }

  /** A loaded registry has nothing but the chain between its versions if no forward dependency names one. */
  lemma LoadedChainOnly(reg: Registry, legacy: map<int, Tag>, r: Registry)
    requires LoadedFiles(reg, legacy) && (3 in legacy ==> 2 in legacy) && NoneForced(reg, legacy)
    requires AllResolved(LinkedReg(reg, legacy, Top(legacy)), reg.Keys, r)
    requires 2 in legacy && forall k :: k in legacy ==> reg[legacy[k]].kind == Up
    ensures ChainOnly(r, legacy, Top(legacy))
  {
    forall k | k in legacy
      ensures legacy[k] in r && r[legacy[k]].version == Some(k) && r[legacy[k]].kind == Up
    {
      assert Resolved(LinkedReg(reg, legacy, Top(legacy)), reg.Keys, legacy[k], r[legacy[k]]);
    }
    forall k | 3 <= k < Top(legacy)
      ensures OnlyLinked(r, legacy, k)
    {
      LoadedOnlyLinked(reg, legacy, r, k);
    }
  }

  /** The order theorem for what `load_all` leaves: loaded legacy versions are applied in increasing order in every
      completed run exactly when the checkpoint has no version between two that it lacks. */
  lemma LoadedLegacyOrder(reg: Registry, legacy: map<int, Tag>, r: Registry, tags: set<Tag>)
    requires LoadedFiles(reg, legacy) && (3 in legacy ==> 2 in legacy) && NoneForced(reg, legacy)
    requires AllResolved(LinkedReg(reg, legacy, Top(legacy)), reg.Keys, r)
    requires 2 in legacy && forall k :: k in legacy ==> reg[legacy[k]].kind == Up
    requires Schedule(r, ToApply(r, tags), tags).stuck == {}
    ensures (forall applied: seq<Tag> :: Linearizes(applied, Schedule(r, ToApply(r, tags), tags).batches) ==>
                                           VersionsAscend(legacy, Top(legacy), applied))
       <==> forall k :: 2 <= k < Top(legacy) ==> !Gap(legacy, tags, Top(legacy), k)
  {
    LoadedChainOnly(reg, legacy, r);
    LegacyOrderExact(r, legacy, Top(legacy), tags);
  }

  /** A checkpoint that carries a version number has exactly the legacy versions up to it; the later ones are applied
      to it in increasing order. */
  lemma LegacyCheckpointInOrder(
    reg: Registry, legacy: map<int, Tag>, version: int, tags: set<Tag>, applied: seq<Tag>, i: int, j: int, p: nat)
    requires LoadedFiles(reg, legacy) && (forall k :: 3 <= k < Top(legacy) ==> Linked(reg, legacy, k))
    requires forall k :: k in legacy ==> reg[legacy[k]].kind == Up
    requires 2 <= version && tags == set k | 2 <= k <= version && k in legacy :: legacy[k]
    requires Linearizes(applied, Schedule(reg, ToApply(reg, tags), tags).batches)
    requires version < i < j < Top(legacy) && p < |applied| && applied[p] == legacy[j]
    ensures legacy[i] in applied[..p]
  {
    forall k | i <= k <= j
      ensures k in legacy && legacy[k] in reg && reg[legacy[k]].kind == Up && legacy[k] !in tags
    {
    }
    LegacyInOrder(reg, legacy, i, j, ToApply(reg, tags), tags, applied, p);
  }
}
