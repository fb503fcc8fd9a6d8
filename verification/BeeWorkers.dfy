/** The threads that look for a bee below the target, one bin each, as interleaved steps on shared variables. */
module BeeWorkers {
  import opened Collections

  /** A worker: the bees of its bin in order, how far it is, and whether it still runs. */
  datatype Phase = Checking | Hashing | Done
  datatype Worker<Bee> = Worker(bees: seq<Bee>, pos: nat, phase: Phase)

  /** The shared variables: the solution flag with the recorded bee, and the abort flag. */
  datatype State<Bee> = State(workers: seq<Worker<Bee>>, solution: Option<Bee>, abort: bool)
  datatype Step = Look(w: nat) | Try(w: nat) | Finish(w: nat) | Abort

  // ---- the steps ----

  /** Every thousandth bee a worker looks whether it should stop. */
  predicate Enabled<Bee>(s: State<Bee>, step: Step) {
    match step
    case Look(w) => w < |s.workers| && s.workers[w].phase == Checking && s.workers[w].pos < |s.workers[w].bees|
    case Try(w) => w < |s.workers| && s.workers[w].phase == Hashing && s.workers[w].pos < |s.workers[w].bees|
    case Finish(w) => w < |s.workers| && s.workers[w].phase == Checking && s.workers[w].pos == |s.workers[w].bees|
    case Abort => true
  }

  function Apply<Bee>(wins: Bee -> bool, s: State<Bee>, step: Step): State<Bee>
    requires Enabled(s, step)
  {
    match step
    case Look(w) =>
      var x := s.workers[w];
      if x.pos % 1000 == 0 && (s.solution.Some? || s.abort) then s.(workers := s.workers[w := x.(phase := Done)])
      else s.(workers := s.workers[w := x.(phase := Hashing)])
    case Try(w) =>
      var x := s.workers[w];
      if wins(x.bees[x.pos]) then s.(workers := s.workers[w := x.(phase := Done)], solution := Some(x.bees[x.pos]))
      else s.(workers := s.workers[w := x.(phase := Checking, pos := x.pos + 1)])
    case Finish(w) => s.(workers := s.workers[w := s.workers[w].(phase := Done)])
    case Abort => s.(abort := true)
  }

  function Started<Bee>(bins: seq<seq<Bee>>): State<Bee> {
    State(seq(|bins|, i requires 0 <= i < |bins| => Worker(bins[i], 0, Checking)), None, false)
  }

  predicate Allowed<Bee>(wins: Bee -> bool, s: State<Bee>, steps: seq<Step>)
    decreases |steps|
  {
    steps == [] || (Enabled(s, steps[0]) && Allowed(wins, Apply(wins, s, steps[0]), steps[1..]))
  }

  function Run<Bee>(wins: Bee -> bool, s: State<Bee>, steps: seq<Step>): State<Bee>
    requires Allowed(wins, s, steps)
    decreases |steps|
  {
    if steps == [] then s else Run(wins, Apply(wins, s, steps[0]), steps[1..])
  }

  // ---- what every step keeps ----

  ghost predicate WorkerOk<Bee>(wins: Bee -> bool, s: State<Bee>, bins: seq<seq<Bee>>, i: nat)
    requires i < |s.workers| == |bins|
  {
    var x := s.workers[i];
    && x.bees == bins[i] && x.pos <= |x.bees|
    && (forall k | 0 <= k < x.pos :: !wins(x.bees[k]))
    && (x.phase == Hashing ==> x.pos < |x.bees|)
    && (x.phase == Done ==> x.pos == |x.bees| || s.solution.Some? || s.abort)
  }

  /** A recorded bee is in one of the bins and meets the target; a worker has passed over no winner. */
  ghost predicate Inv<Bee>(wins: Bee -> bool, s: State<Bee>, bins: seq<seq<Bee>>) {
    && |s.workers| == |bins|
    && (forall i: nat | i < |bins| :: WorkerOk(wins, s, bins, i))
    && (s.solution.Some? ==> wins(s.solution.value) && InSome(bins, s.solution.value))
  }

  ghost predicate InSome<Bee>(bins: seq<seq<Bee>>, bee: Bee) {
    exists i: nat :: i < |bins| && bee in bins[i]
  }

  lemma StartsWell<Bee>(wins: Bee -> bool, bins: seq<seq<Bee>>)
    ensures Inv(wins, Started(bins), bins)
  {
  }

  lemma ApplyKeeps<Bee>(wins: Bee -> bool, s: State<Bee>, bins: seq<seq<Bee>>, step: Step)
    requires Inv(wins, s, bins) && Enabled(s, step)
    ensures Inv(wins, Apply(wins, s, step), bins)
  {
    var t := Apply(wins, s, step);
    forall i: nat | i < |bins| ensures WorkerOk(wins, t, bins, i)
    {
      assert WorkerOk(wins, s, bins, i);
    }
    if step.Try? {
      var x := s.workers[step.w];
      assert WorkerOk(wins, s, bins, step.w);
      assert x.bees[x.pos] in bins[step.w];
    }
  }

  lemma {:induction false} RunKeeps<Bee>(wins: Bee -> bool, s: State<Bee>, bins: seq<seq<Bee>>, steps: seq<Step>)
    requires Inv(wins, s, bins) && Allowed(wins, s, steps)
    ensures Inv(wins, Run(wins, s, steps), bins)
    decreases |steps|
  {
    hide Inv, Apply, Enabled;
    if steps != [] {
      ApplyKeeps(wins, s, bins, steps[0]);
      RunKeeps(wins, Apply(wins, s, steps[0]), bins, steps[1..]);
    }
  }

  // ---- when all workers have been joined ----

  predicate Joined<Bee>(s: State<Bee>) {
    forall i: nat | i < |s.workers| :: s.workers[i].phase == Done
  }

  ghost predicate SomeWins<Bee>(wins: Bee -> bool, bins: seq<seq<Bee>>) {
    exists i: nat, k: nat :: i < |bins| && k < |bins[i]| && wins(bins[i][k])
  }

  /**
   * However the workers are interleaved: a recorded bee is one of the bees and meets the target, and when nothing asked
   * for an abort, a bee is recorded exactly when some bee meets the target.
   */
  lemma FoundExactlyWhenThere<Bee>(wins: Bee -> bool, bins: seq<seq<Bee>>, steps: seq<Step>)
    requires Allowed(wins, Started(bins), steps) && Joined(Run(wins, Started(bins), steps))
    ensures var s := Run(wins, Started(bins), steps);
            && (s.solution.Some? ==> wins(s.solution.value) && InSome(bins, s.solution.value))
            && (!s.abort ==> (s.solution.Some? <==> SomeWins(wins, bins)))
  {
    hide Run;
    StartsWell(wins, bins);
    RunKeeps(wins, Started(bins), bins, steps);
    var s := Run(wins, Started(bins), steps);
    if s.solution.Some? {
      var i: nat :| i < |bins| && s.solution.value in bins[i];
      var k: nat :| k < |bins[i]| && bins[i][k] == s.solution.value;
      assert wins(bins[i][k]);
    } else if !s.abort {
      forall i: nat, k: nat | i < |bins| && k < |bins[i]| ensures !wins(bins[i][k])
      {
        assert WorkerOk(wins, s, bins, i);
      }
    }
  }

  // ---- the workers finish ----

  /** The steps a worker may still take. */
  function Left<Bee>(x: Worker<Bee>): int {
    if x.phase == Done then 0 else 2 * (|x.bees| - x.pos) + if x.phase == Checking then 2 else 1
  }

  function LeftAll<Bee>(workers: seq<Worker<Bee>>): int {
    if workers == [] then 0 else LeftAll(workers[..|workers| - 1]) + Left(workers[|workers| - 1])
  }

  /** Every step of a worker uses up some of its steps and leaves the others alone. */
  lemma StepsRunOut<Bee>(wins: Bee -> bool, s: State<Bee>, bins: seq<seq<Bee>>, step: Step)
    requires Inv(wins, s, bins) && Enabled(s, step) && !step.Abort?
    ensures var t := Apply(wins, s, step);
            && |t.workers| == |s.workers| && 0 <= Left(t.workers[step.w]) < Left(s.workers[step.w])
            && t.workers == s.workers[step.w := t.workers[step.w]]
  {
    assert WorkerOk(wins, s, bins, step.w);
  }

  /** A worker that has not finished can always take a step. */
  lemma NeverStuck<Bee>(wins: Bee -> bool, s: State<Bee>, bins: seq<seq<Bee>>, i: nat)
    requires Inv(wins, s, bins) && i < |s.workers| && s.workers[i].phase != Done
    ensures Enabled(s, Look(i)) || Enabled(s, Try(i)) || Enabled(s, Finish(i))
  {
    assert WorkerOk(wins, s, bins, i);
  }

  lemma {:induction false} LeftUpdate<Bee>(workers: seq<Worker<Bee>>, w: nat, x: Worker<Bee>)
    requires w < |workers|
    ensures LeftAll(workers[w := x]) == LeftAll(workers) + Left(x) - Left(workers[w])
    decreases |workers|
  {
    var n, after := |workers| - 1, workers[w := x];
    if w < n {
      LeftUpdate(workers[..n], w, x);
      assert after[..n] == workers[..n][w := x];
    } else {
      assert after[..n] == workers[..n];
    }
  }

  lemma {:induction false} LeftNonNegative<Bee>(workers: seq<Worker<Bee>>)
    requires forall i | 0 <= i < |workers| :: Left(workers[i]) >= 0
    ensures LeftAll(workers) >= 0
  {
    if workers != [] {
      LeftNonNegative(workers[..|workers| - 1]);
    }
  }

  /** The steps of a run that workers take. */
  function WorkSteps(steps: seq<Step>): nat {
    if steps == [] then 0 else (if steps[0].Abort? then 0 else 1) + WorkSteps(steps[1..])
  }

  lemma {:induction false} RunUsesUp<Bee>(wins: Bee -> bool, s: State<Bee>, bins: seq<seq<Bee>>, steps: seq<Step>)
    requires Inv(wins, s, bins) && Allowed(wins, s, steps)
    ensures WorkSteps(steps) + LeftAll(Run(wins, s, steps).workers) <= LeftAll(s.workers)
    decreases |steps|
  {
    hide Inv, LeftAll;
    if steps != [] {
      var step := steps[0];
      var t := Apply(wins, s, step);
      ApplyKeeps(wins, s, bins, step);
      if !step.Abort? {
        StepsRunOut(wins, s, bins, step);
        LeftUpdate(s.workers, step.w, t.workers[step.w]);
      }
      hide Apply, Enabled;
      RunUsesUp(wins, t, bins, steps[1..]);
    }
  }

  /** Two steps for each bee and one more to finish, for each bin. */
  function Budget<Bee>(bins: seq<seq<Bee>>): nat {
    if bins == [] then 0 else Budget(bins[..|bins| - 1]) + 2 * |bins[|bins| - 1]| + 2
  }

  lemma {:induction false} StartBudget<Bee>(bins: seq<seq<Bee>>)
    ensures LeftAll(Started(bins).workers) == Budget(bins)
  {
    if bins != [] {
      var n := |bins| - 1;
      StartBudget(bins[..n]);
      assert Started(bins).workers[..n] == Started(bins[..n]).workers;
    }
  }

  /** However they are interleaved, the workers take a bounded number of steps, and until all are done one can be
      taken. */
  lemma WorkersFinish<Bee>(wins: Bee -> bool, bins: seq<seq<Bee>>, steps: seq<Step>)
    requires Allowed(wins, Started(bins), steps)
    ensures WorkSteps(steps) <= Budget(bins)
    ensures Joined(Run(wins, Started(bins), steps)) || exists step: Step ::
              !step.Abort? && Enabled(Run(wins, Started(bins), steps), step)
  {
    hide Run, LeftAll, Enabled;
    var s := Run(wins, Started(bins), steps);
    StartsWell(wins, bins);
    RunKeeps(wins, Started(bins), bins, steps);
    RunUsesUp(wins, Started(bins), bins, steps);
    StartBudget(bins);
    forall i | 0 <= i < |s.workers| ensures Left(s.workers[i]) >= 0
    {
      assert WorkerOk(wins, s, bins, i);
    }
    LeftNonNegative(s.workers);
    if !Joined(s) {
      var i: nat :| i < |s.workers| && s.workers[i].phase != Done;
      NeverStuck(wins, s, bins, i);
    }
  }
}
