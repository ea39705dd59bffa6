/** What the scheduler's steps mean for the threads: whom a joining thread waits for, until when a thread
    sleeps, and that threads leave the ready queue in the order in which they entered it. */
module ThreadRuns {
  import opened Sequences
  import opened Scheduling

  // ------------------------------------------------------- the order in the queue

  /** In the queue `q` thread `x` is before `y`: it is nearer to the back. */
  ghost predicate Leads(q: seq<Id>, x: Id, y: Id)
  {
    exists a, b :: 0 <= a < b < |q| && q[a] == y && q[b] == x
  }

  /** Thread `x` runs before `y` does: it runs, or it is before `y` in the queue. */
  ghost predicate GoesFirst(s: State, x: Id, y: Id)
  {
    s.cpu == Runs(x) || Leads(s.ready, x, y)
  }

  lemma {:induction false} ReverseAt(s: seq<Id>, i: nat)
    requires i < |s|
    ensures Reverse(s)[|s| - 1 - i] == s[i]
    decreases |s|
  {
    var n := |s| - 1;
    if i < n {
      ReverseAt(s[..n], i);
    }
  }

  /** Threads pushed one by one are before those pushed later, and behind all that were there. */
  lemma PushedOrder(ready: seq<Id>, xs: seq<Id>)
    ensures forall a, b | 0 <= a < b < |xs| :: Leads(Pushed(ready, xs), xs[a], xs[b])
    ensures forall x, y | x in ready && y in xs :: Leads(Pushed(ready, xs), x, y)
    ensures forall x, y | Leads(ready, x, y) :: Leads(Pushed(ready, xs), x, y)
  {
    var all, n := Pushed(ready, xs), |xs|;
    forall i | 0 <= i < n ensures all[n - 1 - i] == xs[i] {
      ReverseAt(xs, i);
    }
    forall a, b | 0 <= a < b < n ensures Leads(all, xs[a], xs[b]) {
      assert all[n - 1 - a] == xs[a] && all[n - 1 - b] == xs[b];
    }
    forall x, y | x in ready && y in xs ensures Leads(all, x, y) {
      var i :| 0 <= i < n && xs[i] == y;
      var j :| 0 <= j < |ready| && ready[j] == x;
      assert all[n - 1 - i] == y && all[n + j] == x;
    }
    forall x, y | Leads(ready, x, y) ensures Leads(all, x, y) {
      var a, b :| 0 <= a < b < |ready| && ready[a] == y && ready[b] == x;
      assert all[n + a] == y && all[n + b] == x;
    }
  }

  lemma DispatchOrder(s: State, x: Id, y: Id)
    requires Leads(s.ready, x, y)
    ensures GoesFirst(Dispatch(s), x, y)
  {
    var a, b :| 0 <= a < b < |s.ready| && s.ready[a] == y && s.ready[b] == x;
    var rest := s.ready[..|s.ready| - 1];
    if b < |rest| {
      assert rest[a] == y && rest[b] == x;
    }
  }

  lemma FrontOrder(q: seq<Id>, z: Id, x: Id, y: Id)
    ensures Leads(q, x, y) ==> Leads([z] + q, x, y)
    ensures x in q ==> Leads([z] + q, x, z)
  {
    var q' := [z] + q;
    if Leads(q, x, y) {
      var a, b :| 0 <= a < b < |q| && q[a] == y && q[b] == x;
      assert q'[a + 1] == y && q'[b + 1] == x;
    }
    if x in q {
      var b :| 0 <= b < |q| && q[b] == x;
      assert q'[0] == z && q'[b + 1] == x;
    }
  }

  lemma {:induction false} WithoutOrder(q: seq<Id>, k: Id, x: Id, y: Id)
    requires Leads(q, x, y) && x != k && y != k
    ensures Leads(Without(q, k), x, y)
    decreases |q|
  {
    var n := |q| - 1;
    var a, b :| 0 <= a < b < |q| && q[a] == y && q[b] == x;
    var rest := Without(q[..n], k);
    if b < n {
      assert q[..n][a] == y && q[..n][b] == x;
      WithoutOrder(q[..n], k, x, y);
      var c, d :| 0 <= c < d < |rest| && rest[c] == y && rest[d] == x;
      assert Without(q, k)[c] == y && Without(q, k)[d] == x;
    } else {
      assert y in q[..n] by { assert q[..n][a] == y; }
      WithoutStays(q[..n], k, y);
      var c :| 0 <= c < |rest| && rest[c] == y;
      assert Without(q, k)[c] == y && Without(q, k)[|rest|] == x;
    }
  }

  lemma {:induction false} WithoutStays(q: seq<Id>, k: Id, y: Id)
    requires y in q && y != k
    ensures y in Without(q, k)
    decreases |q|
  {
    var n := |q| - 1;
    if q[n] != y {
      assert y in q[..n] by {
        var i :| 0 <= i < |q| && q[i] == y;
        assert q[..n][i] == y;
      }
      WithoutStays(q[..n], k, y);
    }
  }

  /** Sleepers that are due together become ready in list order. */
  lemma {:induction false} DueOrder(sleeping: seq<Sleeper>, time: nat, i: nat, j: nat) returns (a: nat, b: nat)
    requires i < j < |sleeping| && sleeping[i].wake <= time && sleeping[j].wake <= time
    ensures a < b < |Due(sleeping, time)|
    ensures Due(sleeping, time)[a] == sleeping[i].id && Due(sleeping, time)[b] == sleeping[j].id
    decreases |sleeping|
  {
    var n := |sleeping| - 1;
    if j < n {
      a, b := DueOrder(sleeping[..n], time, i, j);
    } else {
      a := DueIn(sleeping[..n], time, i);
      b := |Due(sleeping[..n], time)|;
    }
  }

  lemma {:induction false} DueIn(sleeping: seq<Sleeper>, time: nat, i: nat) returns (a: nat)
    requires i < |sleeping| && sleeping[i].wake <= time
    ensures a < |Due(sleeping, time)| && Due(sleeping, time)[a] == sleeping[i].id
    decreases |sleeping|
  {
    var n := |sleeping| - 1;
    if i < n {
      a := DueIn(sleeping[..n], time, i);
    } else {
      a := |Due(sleeping[..n], time)|;
    }
  }

  lemma SwitchedOrder(s: State, checked: bool, time: nat, locked: bool, x: Id, y: Id)
    requires Enabled(s, Switch(checked, time, locked)) && s.initialized
    requires Leads((if checked then Wake(s, time) else s).ready, x, y)
    ensures GoesFirst(Apply(s, Switch(checked, time, locked)), x, y)
  {
    hide Leads, Pushed, Due, NotDue;
    var s1 := if checked then Wake(s, time) else s;
    if !locked && s1.ready != [] {
      DispatchOrder(s1, x, y);
      FrontOrder(Dispatch(s1).ready, s.cpu.id, x, y);
    }
  }

  lemma BlockedOrder(s: State, x: Id, y: Id)
    requires Leads(s.ready, x, y)
    ensures GoesFirst(Block(s), x, y)
  {
    DispatchOrder(s, x, y);
  }

  /** No thread overtakes another one in the queue, whatever the step. */
  lemma NoOvertaking(s: State, step: Step, x: Id, y: Id)
    requires Enabled(s, step) && Leads(s.ready, x, y) && step != Kill(x) && step != Kill(y)
    ensures GoesFirst(Apply(s, step), x, y)
  {
    hide Leads, Pushed, Due, NotDue, Without, Dispatch, Block;
    match step {
      case Ready(id) =>
        FrontOrder(s.ready, id, x, y);
      case Start =>
        DispatchOrder(s, x, y);
      case Switch(checked, time, locked) =>
        PushedOrder(s.ready, Due(s.sleeping, time));
        if s.initialized {
          SwitchedOrder(s, checked, time, locked, x, y);
        }
      case Sleep(now, ms) =>
        if s.initialized {
          BlockedOrder(s.(sleeping := s.sleeping + [Sleeper(s.cpu.id, now + ms)]), x, y);
        }
      case Join(k) =>
        if k in s.joins {
          BlockedOrder(s.(joins := s.joins[k := s.joins[k] + [s.cpu.id]]), x, y);
        }
      case Exit =>
        PushedOrder(s.ready, s.joins[s.cpu.id]);
        BlockedOrder(Release(s, s.cpu.id), x, y);
      case Kill(k) =>
        PushedOrder(s.ready, s.joins[k]);
        WithoutOrder(Release(s, k).ready, k, x, y);
      case Poll(now) =>
        PushedOrder(s.ready, Due(s.sleeping, now));
        DispatchOrder(Wake(s, now), x, y);
      case _ =>
    }
  }

  /** Those that wait for a thread go on in the order in which they joined it, and behind all that were
      ready. */
  lemma ReleasedInOrder(s: State, step: Step, k: Id, i: nat, j: nat)
    requires Enabled(s, step) && Ends(s, step, k) && k in s.joins && i < j < |s.joins[k]|
    requires s.joins[k][i] != k && s.joins[k][j] != k
    ensures GoesFirst(Apply(s, step), s.joins[k][i], s.joins[k][j])
    ensures forall x | x in s.ready && x != k :: GoesFirst(Apply(s, step), x, s.joins[k][i])
  {
    hide Leads, Pushed, Without, Dispatch, Block;
    var x, y := s.joins[k][i], s.joins[k][j];
    PushedOrder(s.ready, s.joins[k]);
    EndedOrder(s, step, k, x, y);
    forall z | z in s.ready && z != k ensures GoesFirst(Apply(s, step), z, x) {
      EndedOrder(s, step, k, z, x);
    }
  }

  lemma EndedOrder(s: State, step: Step, k: Id, x: Id, y: Id)
    requires Enabled(s, step) && Ends(s, step, k) && k in s.joins && x != k && y != k
    requires Leads(Release(s, k).ready, x, y)
    ensures GoesFirst(Apply(s, step), x, y)
  {
    hide Leads, Pushed, Without, Dispatch, Block;
    if step.Kill? {
      WithoutOrder(Release(s, k).ready, k, x, y);
    } else {
      BlockedOrder(Release(s, k), x, y);
    }
  }

  /** Sleepers that are due at the same look go on in the order in which they fell asleep, and behind all
      that were ready. */
  lemma WokenInOrder(s: State, step: Step, i: nat, j: nat)
    requires Enabled(s, step) && Looks(s, step).Some? && i < j < |s.sleeping|
    requires s.sleeping[i].wake <= Looks(s, step).value && s.sleeping[j].wake <= Looks(s, step).value
    ensures GoesFirst(Apply(s, step), s.sleeping[i].id, s.sleeping[j].id)
    ensures forall x | x in s.ready :: GoesFirst(Apply(s, step), x, s.sleeping[i].id)
  {
    hide Leads, Pushed, Due, NotDue, Dispatch, Apply;
    var time := Looks(s, step).value;
    var due := Due(s.sleeping, time);
    var a, b := DueOrder(s.sleeping, time, i, j);
    PushedOrder(s.ready, due);
    LookedOrder(s, step, due[a], due[b]);
    forall x | x in s.ready ensures GoesFirst(Apply(s, step), x, due[a]) {
      LookedOrder(s, step, x, due[a]);
    }
  }

  /** Sleepers that sleep on keep their order. */
  lemma {:induction false} NotDueOrder(sleeping: seq<Sleeper>, time: nat, i: nat, j: nat) returns (a: nat, b: nat)
    requires i < j < |sleeping| && sleeping[i].wake > time && sleeping[j].wake > time
    ensures a < b < |NotDue(sleeping, time)|
    ensures NotDue(sleeping, time)[a] == sleeping[i] && NotDue(sleeping, time)[b] == sleeping[j]
    decreases |sleeping|
  {
    var n := |sleeping| - 1;
    if j < n {
      a, b := NotDueOrder(sleeping[..n], time, i, j);
    } else {
      a := NotDueIn(sleeping[..n], time, i);
      b := |NotDue(sleeping[..n], time)|;
    }
  }

  lemma {:induction false} NotDueIn(sleeping: seq<Sleeper>, time: nat, i: nat) returns (a: nat)
    requires i < |sleeping| && sleeping[i].wake > time
    ensures a < |NotDue(sleeping, time)| && NotDue(sleeping, time)[a] == sleeping[i]
    decreases |sleeping|
  {
    var n := |sleeping| - 1;
    if i < n {
      a := NotDueIn(sleeping[..n], time, i);
    } else {
      a := |NotDue(sleeping[..n], time)|;
    }
  }

  /** Whatever the step, sleepers that sleep on keep their order, so the list stays in the order in which
      threads fell asleep. */
  lemma SleepersKeepOrder(s: State, step: Step, i: nat, j: nat) returns (a: nat, b: nat)
    requires Enabled(s, step) && i < j < |s.sleeping|
    requires Looks(s, step).Some? ==>
               s.sleeping[i].wake > Looks(s, step).value && s.sleeping[j].wake > Looks(s, step).value
    ensures var s' := Apply(s, step);
            a < b < |s'.sleeping| && s'.sleeping[a] == s.sleeping[i] && s'.sleeping[b] == s.sleeping[j]
  {
    hide Due, NotDue, Pushed, Without;
    a, b := i, j;
    if Looks(s, step).Some? {
      a, b := NotDueOrder(s.sleeping, Looks(s, step).value, i, j);
    }
  }

  lemma LookedOrder(s: State, step: Step, x: Id, y: Id)
    requires Enabled(s, step) && Looks(s, step).Some? && Leads(Wake(s, Looks(s, step).value).ready, x, y)
    ensures GoesFirst(Apply(s, step), x, y)
  {
    if step.Switch? {
      SwitchedOrder(s, step.checked, step.time, step.locked, x, y);
    } else {
      hide Wake;
      DispatchOrder(Wake(s, step.now), x, y);
    }
  }

  // ------------------------------------------------------------------- one step

  /** A thread that joins a living one is put behind those that already wait for it, and waits. */
  lemma JoinEffect(s: State, k: Id)
    requires Inv(s) && s.cpu.Runs?
    ensures var s' := Apply(s, Join(k));
            if k !in s.joins then s' == s
            else
              && s'.joins == s.joins[k := s.joins[k] + [s.cpu.id]] && !ReadyOrRuns(s', s.cpu.id)
              && s'.sleeping == s.sleeping && s'.created == s.created
              && (s.ready != [] ==> s'.cpu == Runs(s.ready[|s.ready| - 1]) && s'.ready == s.ready[..|s.ready| - 1])
  {
    hide Inv;
    if k in s.joins {
      NotQueued(s);
    }
  }

  lemma NotQueued(s: State)
    requires Inv(s) && s.cpu.Runs?
    ensures s.cpu.id !in s.ready && s.cpu.id !in Ids(s.sleeping) && s.cpu.id in s.joins
  {
    var c := s.cpu.id;
    assert multiset(Running(s))[c] == 1;
    assert Active(s)[c] <= 1 && c in Active(s);
    assert c !in multiset(s.ready) && c !in multiset(Ids(s.sleeping));
  }

  /** A thread that sleeps is entered last with the time it asked for, counted from now. */
  lemma SleepEffect(s: State, now: nat, ms: nat)
    requires Inv(s) && Enabled(s, Sleep(now, ms))
    ensures var s' := Apply(s, Sleep(now, ms));
            if !s.initialized then s' == s
            else
              && s'.sleeping == s.sleeping + [Sleeper(s.cpu.id, now + ms)] && !ReadyOrRuns(s', s.cpu.id)
              && s'.joins == s.joins && s'.created == s.created
              && (s.ready != [] ==> s'.cpu == Runs(s.ready[|s.ready| - 1]) && s'.ready == s.ready[..|s.ready| - 1])
  {
    hide Inv;
    if s.initialized {
      NotQueued(s);
    }
  }

  /** A switch lets the thread that waits longest run and puts the current one behind all others, unless the
      current thread may not be interrupted or nobody is ready. */
  lemma SwitchEffect(s: State, checked: bool, time: nat, locked: bool)
    requires Enabled(s, Switch(checked, time, locked))
    ensures var s' := Apply(s, Switch(checked, time, locked));
            && s'.joins == s.joins && s'.created == s.created && s'.nextId == s.nextId
            && (!s.initialized ==> s' == s) && (!checked ==> s'.sleeping == s.sleeping)
            && (s.initialized && locked ==> s'.cpu == s.cpu && forall x | x in s.ready :: x in s'.ready)
            && (s.initialized && !locked && s.ready != [] ==>
                  && s'.cpu == Runs(s.ready[|s.ready| - 1]) && s.cpu.id in s'.ready
                  && forall x | x in s'.ready[1..] :: Leads(s'.ready, x, s.cpu.id))
            && (s.initialized && !checked && s.ready == [] ==> s' == s)
  {
    hide Due, NotDue, Reverse;
    var s' := Apply(s, Switch(checked, time, locked));
    if s.initialized && !locked && s.ready != [] {
      forall x | x in s'.ready[1..] ensures Leads(s'.ready, x, s.cpu.id) {
        assert s'.ready == [s.cpu.id] + s'.ready[1..];
        FrontOrder(s'.ready[1..], s.cpu.id, x, x);
      }
    }
  }

  /** A thread that becomes ready is alive, nobody waits for it yet, and it is behind all others. */
  lemma ReadyEffect(s: State, id: Id)
    requires Enabled(s, Ready(id))
    ensures var s' := Apply(s, Ready(id));
            && s'.joins == s.joins[id := []] && s'.cpu == s.cpu && s'.sleeping == s.sleeping
            && id in s'.ready && forall x | x in s.ready :: Leads(s'.ready, x, id)
  {
    forall x | x in s.ready ensures Leads(Apply(s, Ready(id)).ready, x, id) {
      FrontOrder(s.ready, id, x, x);
    }
  }

  /** A thread that exits is in no place any more and has no join list; a killed one that was in reach
      neither. */
  lemma EndEffect(s: State, step: Step, k: Id)
    requires Inv(s) && Allowed(s, step) && Ends(s, step, k)
    ensures var s' := Apply(s, step);
            && s'.joins.Keys == s.joins.Keys - {k} && (forall l | l in s'.joins :: s'.joins[l] == s.joins[l])
            && s'.sleeping == s.sleeping && s'.created == s.created && k !in Active(s')
            && (step.Kill? ==> s'.cpu == s.cpu)
            && (step.Exit? && s.ready != [] ==> s'.cpu == Runs(s.ready[|s.ready| - 1]))
  {
    hide Inv, Active, Pushed, Without;
    StepInv(s, step);
    EndsGone(s, step, k);
    NowhereLeft(Apply(s, step), k);
    if step.Exit? && s.ready != [] {
      PushedBack(s.ready, s.joins[k]);
    }
  }

  lemma NowhereLeft(s: State, k: Id)
    requires Inv(s) && k !in s.joins
    ensures k !in Active(s)
  {
    hide Active;
  }

  lemma PushedBack(ready: seq<Id>, xs: seq<Id>)
    requires ready != []
    ensures var all := Pushed(ready, xs); all != [] && all[|all| - 1] == ready[|ready| - 1]
  {
  }

  /** What each step leaves alone, and how ids are handed out. */
  lemma StepKeeps(s: State, step: Step)
    requires Enabled(s, step)
    ensures var s' := Apply(s, step);
            && s'.initialized == (s.initialized || step.SetInit?)
            && s'.nextId == s.nextId + (if step.Create? then 1 else 0)
            && (match step
                case Create => s'.created == s.created + {s.nextId}
                case Ready(id) => s'.created == s.created - {id}
                case _ => s'.created == s.created)
            && (!step.Ready? && !step.Join? && !step.Exit? && !step.Kill? ==> s'.joins == s.joins)
            && (Looks(s, step).None? && !step.Sleep? ==> s'.sleeping == s.sleeping)
            && (step.Create? || step.SetInit? ==> s'.ready == s.ready)
            && (step.Create? || step.SetInit? || step.Ready? || step.Kill? ==> s'.cpu == s.cpu)
  {
    hide Due, NotDue, Pushed, Without;
  }

  // ------------------------------------------------------------------------ runs

  /** None of the first `n` steps ends thread `k`. */
  ghost predicate Outlives(ss: seq<State>, steps: seq<Step>, k: Id, n: nat)
    requires |ss| == |steps| + 1 && n <= |steps|
  {
    forall j | 0 <= j < n :: !Ends(ss[j], steps[j], k)
  }

  ghost predicate AllowedRun(ss: seq<State>, steps: seq<Step>)
  {
    Run(ss, steps) && Inv(ss[0]) && forall i | 0 <= i < |steps| :: Allowed(ss[i], steps[i])
  }

  lemma StayInv(ss: seq<State>, steps: seq<Step>)
    requires AllowedRun(ss, steps)
    ensures forall i | 0 <= i < |ss| :: Inv(ss[i])
  {
    hide Apply, Enabled, Inv, WithinReach;
    for n := 0 to |steps|
      invariant forall i | 0 <= i <= n :: Inv(ss[i])
    {
      StepInv(ss[n], steps[n]);
    }
  }

  /** A thread that joins a living thread `k` waits until the step that ends `k`, and no step before that
      makes it ready or lets it run; that step makes it go on, unless it joined itself. */
  lemma JoinedUntilEnd(ss: seq<State>, steps: seq<Step>, c: Id, k: Id)
    requires |ss| == |steps| + 1 > 1 && ss[0].cpu == Runs(c) && steps[0] == Join(k) && k in ss[0].joins
    requires AllowedRun(ss, steps)
    ensures forall i | 1 <= i <= |steps| && Outlives(ss, steps, k, i) :: !ReadyOrRuns(ss[i], c)
    ensures forall i | 1 <= i < |steps| && Outlives(ss, steps, k, i) && Ends(ss[i], steps[i], k) && c != k ::
              ReadyOrRuns(ss[i + 1], c)
  {
    hide Apply, Enabled, Inv, ReadyOrRuns, Ends, WithinReach, Outlives;
    StayInv(ss, steps);
    JoinEffect(ss[0], k);
    forall i | 1 <= i <= |steps| && Outlives(ss, steps, k, i)
      ensures !ReadyOrRuns(ss[i], c) && k in ss[i].joins && c in ss[i].joins[k]
    {
      JoinerAt(ss, steps, k, c, i);
    }
    forall i | 1 <= i < |steps| && Outlives(ss, steps, k, i) && Ends(ss[i], steps[i], k) && c != k
      ensures ReadyOrRuns(ss[i + 1], c)
    {
      JoinersWait(ss[i], steps[i], k);
    }
  }

  lemma {:induction false} JoinerAt(ss: seq<State>, steps: seq<Step>, k: Id, c: Id, n: nat)
    requires Run(ss, steps) && (forall i | 0 <= i < |steps| :: Allowed(ss[i], steps[i]))
    requires (forall i | 0 <= i < |ss| :: Inv(ss[i])) && 1 <= n <= |steps| && Outlives(ss, steps, k, n)
    requires k in ss[1].joins && c in ss[1].joins[k] && !ReadyOrRuns(ss[1], c)
    ensures k in ss[n].joins && c in ss[n].joins[k] && !ReadyOrRuns(ss[n], c)
    decreases n
  {
    hide Apply, Enabled, Inv, ReadyOrRuns, Ends, WithinReach;
    if n > 1 {
      JoinerAt(ss, steps, k, c, n - 1);
      JoinersWait(ss[n - 1], steps[n - 1], k);
      assert ss[n] == Apply(ss[n - 1], steps[n - 1]);
    }
  }

  /** None of the steps from the second to before step `n` looks at the sleep list at or after `time`. */
  ghost predicate Unnoticed(ss: seq<State>, steps: seq<Step>, time: nat, n: nat)
    requires |ss| == |steps| + 1 && n <= |steps|
  {
    forall j | 1 <= j < n :: !Notices(ss[j], steps[j], time)
  }

  predicate Notices(s: State, step: Step, time: nat)
  {
    Looks(s, step).Some? && Looks(s, step).value >= time
  }

  lemma SleeperStep(s: State, step: Step, e: Sleeper)
    requires Inv(s) && Allowed(s, step) && e in s.sleeping
    ensures var s' := Apply(s, step);
            if Notices(s, step, e.wake) then ReadyOrRuns(s', e.id) else e in s'.sleeping && !ReadyOrRuns(s', e.id)
  {
    hide Apply, Enabled, Inv, ReadyOrRuns;
    SleepersSleep(s, step, e);
  }

  /** A thread that goes to sleep for `ms` is neither ready nor running until the first look at the sleep list
      at or after the time it fell asleep plus `ms`, and goes on with that look. */
  lemma SleepsUntilDue(ss: seq<State>, steps: seq<Step>, c: Id, now: nat, ms: nat)
    requires |ss| == |steps| + 1 > 1 && ss[0].cpu == Runs(c) && ss[0].initialized && steps[0] == Sleep(now, ms)
    requires AllowedRun(ss, steps)
    ensures forall i | 1 <= i <= |steps| && Unnoticed(ss, steps, now + ms, i) :: !ReadyOrRuns(ss[i], c)
    ensures forall i | 1 <= i < |steps| && Unnoticed(ss, steps, now + ms, i) && Notices(ss[i], steps[i], now + ms) ::
              ReadyOrRuns(ss[i + 1], c)
  {
    hide Apply, Enabled, Inv, ReadyOrRuns, Notices, WithinReach, Unnoticed;
    var time := now + ms;
    StayInv(ss, steps);
    assert Enabled(ss[0], Sleep(now, ms));
    SleepEffect(ss[0], now, ms);
    forall i | 1 <= i <= |steps| && Unnoticed(ss, steps, time, i)
      ensures !ReadyOrRuns(ss[i], c) && Sleeper(c, time) in ss[i].sleeping
    {
      SleeperAt(ss, steps, Sleeper(c, time), i);
    }
    forall i | 1 <= i < |steps| && Unnoticed(ss, steps, time, i) && Notices(ss[i], steps[i], time)
      ensures ReadyOrRuns(ss[i + 1], c)
    {
      SleeperStep(ss[i], steps[i], Sleeper(c, time));
    }
  }

  lemma {:induction false} SleeperAt(ss: seq<State>, steps: seq<Step>, e: Sleeper, n: nat)
    requires Run(ss, steps) && (forall i | 0 <= i < |steps| :: Allowed(ss[i], steps[i]))
    requires (forall i | 0 <= i < |ss| :: Inv(ss[i])) && 1 <= n <= |steps| && Unnoticed(ss, steps, e.wake, n)
    requires e in ss[1].sleeping && !ReadyOrRuns(ss[1], e.id)
    ensures e in ss[n].sleeping && !ReadyOrRuns(ss[n], e.id)
    decreases n
  {
    hide Apply, Enabled, Inv, ReadyOrRuns, Notices, WithinReach;
    if n > 1 {
      SleeperAt(ss, steps, e, n - 1);
      SleeperStep(ss[n - 1], steps[n - 1], e);
      assert ss[n] == Apply(ss[n - 1], steps[n - 1]);
    }
  }
}
