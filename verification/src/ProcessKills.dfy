/** Ending the threads of a process: they are listed first and killed one by one later, and other
    threads may run in between. */
module ProcessKills {
  import opened Scheduling

  /** What others do while a thread is between two calls of the scheduler: each step if it is allowed. */
  function Others(s: State, steps: seq<Step>): State
    decreases |steps|
  {
    if steps == [] then s
    else Others(if Allowed(s, steps[0]) then Apply(s, steps[0]) else s, steps[1..])
  }

  lemma {:induction false} OthersInv(s: State, steps: seq<Step>)
    requires Inv(s)
    ensures Inv(Others(s, steps))
    decreases |steps|
  {
    hide Inv, Enabled, WithinReach, Apply;
    if steps != [] {
      if Allowed(s, steps[0]) {
        StepInv(s, steps[0]);
        OthersInv(Apply(s, steps[0]), steps[1..]);
      } else {
        OthersInv(s, steps[1..]);
      }
    }
  }

  // ------------------------------------------------------- every interleaving

  /** In the run, the steps at the places `at` kill the threads `ids`, one after the other. */
  ghost predicate Session(ss: seq<State>, steps: seq<Step>, at: seq<nat>, ids: seq<Id>)
  {
    && Run(ss, steps) && |at| == |ids|
    && (forall j | 0 <= j < |at| :: at[j] < |steps| && steps[at[j]] == Kill(ids[j]))
    && (forall j, k | 0 <= j < k < |at| :: at[j] < at[k])
  }

  ghost predicate AllInReach(ss: seq<State>, at: seq<nat>, ids: seq<Id>)
    requires |at| == |ids| && forall j | 0 <= j < |at| :: at[j] < |ss|
  {
    forall j | 0 <= j < |at| :: WithinReach(ss[at[j]], ids[j])
  }

  /** Whatever others do before, between and after the kills: all threads stay in one place throughout if
      and only if every victim is within reach when its turn comes. */
  lemma KillsCleanExactly(ss: seq<State>, steps: seq<Step>, at: seq<nat>, ids: seq<Id>)
    requires Session(ss, steps, at, ids) && Inv(ss[0])
    requires forall i | 0 <= i < |steps| && i !in at :: Allowed(ss[i], steps[i])
    ensures (forall i | 0 <= i < |ss| :: Inv(ss[i])) <==> AllInReach(ss, at, ids)
  {
    hide Inv, Apply, Enabled, WithinReach;
    if AllInReach(ss, at, ids) {
      for k := 0 to |steps|
        invariant forall i | 0 <= i <= k :: Inv(ss[i])
      {
        if k in at {
          var j :| 0 <= j < |at| && at[j] == k;
          assert WithinReach(ss[at[j]], ids[j]);
        }
        StepInv(ss[k], steps[k]);
      }
    }
    if forall i | 0 <= i < |ss| :: Inv(ss[i]) {
      forall j | 0 <= j < |at| ensures WithinReach(ss[at[j]], ids[j]) {
        KillExactly(ss[at[j]], ids[j]);
        assert Inv(ss[at[j] + 1]);
      }
    }
  }

  /** A ready thread stays ready, and the running thread runs on, as long as no thread is dequeued. */
  lemma StepStays(s: State, step: Step, x: Id)
    requires Enabled(s, step) && x in s.ready && !Dequeues(s, step) && step != Kill(x)
    ensures x in Apply(s, step).ready && Apply(s, step).cpu == s.cpu
  {
    hide Reverse, Due, NotDue, Without;
    var b := |s.ready| - 1;
    var i :| 0 <= i < |s.ready| && s.ready[i] == x;
    var b' := StepAhead(s, step, x, b - i);
    if step.Poll? || step.Exit? {
      QueueMoves(s, step);
    }
  }

  lemma QueueMoves(s: State, step: Step)
    requires Enabled(s, step) && s.ready != [] && (step.Poll? || step.Exit?)
    ensures Dequeues(s, step)
  {
    hide Reverse, Due, NotDue;
    if step.Poll? {
      PushedAhead(s.ready, Due(s.sleeping, step.now), 0);
    } else {
      PushedAhead(s.ready, s.joins[s.cpu.id], 0);
    }
  }

  lemma {:induction false} StaysQueued(ss: seq<State>, steps: seq<Step>, found: nat, turn: nat, x: Id)
    requires Run(ss, steps) && found <= turn < |ss| && x in ss[found].ready
    requires forall i | found <= i < turn :: !Dequeues(ss[i], steps[i]) && steps[i] != Kill(x)
    ensures x in ss[turn].ready && ss[turn].cpu == ss[found].cpu
    decreases turn
  {
    hide Apply, Enabled, Dequeues;
    if found < turn {
      StaysQueued(ss, steps, found, turn - 1, x);
      StepStays(ss[turn - 1], steps[turn - 1], x);
    }
  }

  /** Nothing is dequeued between the moment a victim is found in the queue and its turn, and nobody else
      kills it. */
  ghost predicate Undisturbed(ss: seq<State>, steps: seq<Step>, found: nat, turn: nat, x: Id)
    requires Run(ss, steps)
  {
    && found <= turn < |steps| && x in ss[found].ready
    && forall i | found <= i < turn :: !Dequeues(ss[i], steps[i]) && steps[i] != Kill(x)
  }

  /** If no victim is disturbed, every one of them is within reach at its turn, so the kills are clean. */
  lemma UndisturbedClean(ss: seq<State>, steps: seq<Step>, at: seq<nat>, ids: seq<Id>, found: seq<nat>)
    requires Session(ss, steps, at, ids) && Inv(ss[0]) && |found| == |ids|
    requires forall i | 0 <= i < |steps| && i !in at :: Allowed(ss[i], steps[i])
    requires forall j | 0 <= j < |at| :: Undisturbed(ss, steps, found[j], at[j], ids[j])
    ensures AllInReach(ss, at, ids) && forall i | 0 <= i < |ss| :: Inv(ss[i])
  {
    hide Inv, Apply, Enabled, Dequeues, Allowed;
    forall j | 0 <= j < |at| ensures WithinReach(ss[at[j]], ids[j]) {
      assert Undisturbed(ss, steps, found[j], at[j], ids[j]);
      StaysQueued(ss, steps, found[j], at[j], ids[j]);
    }
    KillsCleanExactly(ss, steps, at, ids);
  }

  /** Nor does such a kill panic: the victim is alive and not the thread that kills. */
  lemma UndisturbedPossible(ss: seq<State>, steps: seq<Step>, found: nat, turn: nat, x: Id)
    requires Run(ss, steps) && Undisturbed(ss, steps, found, turn, x) && Inv(ss[turn]) && ss[found].cpu.Runs?
    ensures Enabled(ss[turn], Kill(x)) && ss[turn].cpu == ss[found].cpu
  {
    hide Apply, Dequeues;
    StaysQueued(ss, steps, found, turn, x);
    assert x in multiset(ss[turn].ready);
    assert x in Active(ss[turn]) && Active(ss[turn])[x] <= 1;
  }

  // ------------------------------------------------------------ disturbed

  predicate CanRun(s: State, steps: seq<Step>)
    decreases |steps|
  {
    steps == [] || (Allowed(s, steps[0]) && CanRun(Apply(s, steps[0]), steps[1..]))
  }

  function After(s: State, steps: seq<Step>): State
    requires CanRun(s, steps)
    decreases |steps|
  {
    if steps == [] then s else After(Apply(s, steps[0]), steps[1..])
  }

  lemma {:induction false} RunOn(s: State, steps: seq<Step>, more: seq<Step>)
    requires CanRun(s, steps) && CanRun(After(s, steps), more)
    ensures CanRun(s, steps + more) && After(s, steps + more) == After(After(s, steps), more)
    decreases |steps|
  {
    hide Enabled, WithinReach, Apply;
    if steps == [] {
      assert steps + more == more;
    } else {
      RunOn(Apply(s, steps[0]), steps[1..], more);
      assert (steps + more)[1..] == steps[1..] + more;
    }
  }

  /** Two threads are created and made ready, and the first one runs. */
  const BOOT := [Create, Create, Ready(1), Ready(2), SetInit, Start]

  function FirstRuns(): State
  {
    State(true, Runs(1), [2], [], map[1 := [], 2 := []], {}, 3)
  }

  lemma RunOne(s: State, step: Step, s': State)
    requires Allowed(s, step) && Apply(s, step) == s'
    ensures CanRun(s, [step]) && After(s, [step]) == s'
  {
    assert [step][1..] == [];
  }

  lemma BootRuns()
    ensures CanRun(Initial(), BOOT) && After(Initial(), BOOT) == FirstRuns()
  {
    var none: map<Id, seq<Id>> := map[];
    var s1 := State(false, Off, [], [], none, {1, 2}, 3);
    assert CanRun(Initial(), BOOT[..2]) && After(Initial(), BOOT[..2]) == s1 by {
      RunOne(Initial(), Create, State(false, Off, [], [], none, {1}, 2));
      RunOne(State(false, Off, [], [], none, {1}, 2), Create, s1);
      RunOn(Initial(), [Create], [Create]);
      assert BOOT[..2] == [Create] + [Create];
    }
    var s2 := State(false, Off, [2, 1], [], none[1 := []][2 := []], {}, 3);
    assert CanRun(s1, BOOT[2..4]) && After(s1, BOOT[2..4]) == s2 by {
      var half := State(false, Off, [1], [], none[1 := []], {2}, 3);
      RunOne(s1, Ready(1), half);
      RunOne(half, Ready(2), s2);
      RunOn(s1, [Ready(1)], [Ready(2)]);
      assert BOOT[2..4] == [Ready(1)] + [Ready(2)];
    }
    assert CanRun(s2, BOOT[4..]) && After(s2, BOOT[4..]) == FirstRuns() by {
      var known := s2.(initialized := true);
      RunOne(s2, SetInit, known);
      assert known.ready[..1] == [2];
      RunOne(known, Start, FirstRuns());
      RunOn(s2, [SetInit], [Start]);
      assert BOOT[4..] == [SetInit] + [Start];
    }
    hide CanRun, After;
    RunOn(Initial(), BOOT[..2], BOOT[2..4]);
    RunOn(Initial(), BOOT[..2] + BOOT[2..4], BOOT[4..]);
    assert BOOT == BOOT[..2] + BOOT[2..4] + BOOT[4..];
  }

  /** Thread 2 is in the queue, where it would be listed; then it runs and goes to sleep. */
  const ASLEEP := [Switch(false, 0, false), Sleep(0, 10)]

  lemma SleepsMeanwhile()
    ensures CanRun(FirstRuns(), ASLEEP) && After(FirstRuns(), ASLEEP) == SleepingVictim()
  {
    var s, two := FirstRuns(), State(true, Runs(2), [1], [], map[1 := [], 2 := []], {}, 3);
    assert s.ready[..0] == [] && two.ready[..0] == [];
    RunOne(s, ASLEEP[0], two);
    RunOne(two, ASLEEP[1], SleepingVictim());
    RunOn(s, [ASLEEP[0]], [ASLEEP[1]]);
    assert ASLEEP == [ASLEEP[0]] + [ASLEEP[1]];
  }

  /** Thread 2 exits instead. */
  const EXITED := [Switch(false, 0, false), Exit]

  lemma ExitsMeanwhile()
    ensures CanRun(FirstRuns(), EXITED)
            && After(FirstRuns(), EXITED) == State(true, Runs(1), [], [], map[1 := []], {}, 3)
  {
    var s, two := FirstRuns(), State(true, Runs(2), [1], [], map[1 := [], 2 := []], {}, 3);
    var gone := State(true, Runs(1), [], [], map[1 := []], {}, 3);
    assert s.ready[..0] == [] && two.ready[..0] == [];
    assert two.joins - {2} == gone.joins;
    assert Pushed(two.ready, []) == two.ready;
    RunOne(s, EXITED[0], two);
    RunOne(two, EXITED[1], gone);
    RunOn(s, [EXITED[0]], [EXITED[1]]);
    assert EXITED == [EXITED[0]] + [EXITED[1]];
  }

  /** From boot, a thread that is listed while it is ready can be out of reach at its turn, so that killing
      it leaves it behind, or gone, so that killing it panics. */
  lemma ListedTooEarly()
    ensures CanRun(Initial(), BOOT) && 2 in After(Initial(), BOOT).ready
    ensures CanRun(Initial(), BOOT + ASLEEP) && CanRun(Initial(), BOOT + EXITED)
    ensures var s := After(Initial(), BOOT + ASLEEP);
            Enabled(s, Kill(2)) && !WithinReach(s, 2) && Inv(s) && !Inv(Apply(s, Kill(2)))
    ensures var s := After(Initial(), BOOT + EXITED);
            s.cpu == Runs(1) && !Enabled(s, Kill(2))
  {
    BootRuns();
    SleepsMeanwhile();
    ExitsMeanwhile();
    hide CanRun, After, Inv, Apply;
    RunOn(Initial(), BOOT, ASLEEP);
    RunOn(Initial(), BOOT, EXITED);
    KillOutOfReach();
    KillExactly(SleepingVictim(), 2);
  }
}
