/** The thread scheduler as a transition system: the current thread, the ready queue, the sleep list,
    and for every living thread the list of those that wait for it to end. */
module Scheduling {
  import opened Sequences

  type Id = nat

  /** What the processor does: nothing yet, run a thread, or spin in `block` until a sleeper is due. */
  datatype Cpu = Off | Runs(id: Id) | Spins

  /** A sleeping thread and when to wake it. */
  datatype Sleeper = Sleeper(id: Id, wake: nat)

  /** Threads enter the ready queue at the front, index 0, and leave it at the back. */
  datatype State = State(
    initialized: bool,
    cpu: Cpu,
    ready: seq<Id>,
    sleeping: seq<Sleeper>,
    joins: map<Id, seq<Id>>,
    created: set<Id>,
    nextId: Id)

  // -------------------------------------------------------------- functions

  function Reverse(s: seq<Id>): (r: seq<Id>)
    ensures |r| == |s| && multiset(r) == multiset(s)
  {
    if s == [] then []
    else
      assert s == s[..|s| - 1] + [s[|s| - 1]];
      [s[|s| - 1]] + Reverse(s[..|s| - 1])
  }

  /** The queue after the threads `xs` were pushed to its front one by one. */
  function Pushed(ready: seq<Id>, xs: seq<Id>): seq<Id>
  {
    Reverse(xs) + ready
  }

  /** The threads due at `time`, in list order. */
  function Due(sleeping: seq<Sleeper>, time: nat): seq<Id>
  {
    if sleeping == [] then []
    else
      var last := sleeping[|sleeping| - 1];
      Due(sleeping[..|sleeping| - 1], time) + if time >= last.wake then [last.id] else []
  }

  function NotDue(sleeping: seq<Sleeper>, time: nat): seq<Sleeper>
  {
    if sleeping == [] then []
    else
      var last := sleeping[|sleeping| - 1];
      NotDue(sleeping[..|sleeping| - 1], time) + if time >= last.wake then [] else [last]
  }

  function Without(ready: seq<Id>, x: Id): seq<Id>
  {
    if ready == [] then []
    else Without(ready[..|ready| - 1], x) + if ready[|ready| - 1] == x then [] else [ready[|ready| - 1]]
  }

  function Wake(s: State, time: nat): State
  {
    s.(ready := Pushed(s.ready, Due(s.sleeping, time)), sleeping := NotDue(s.sleeping, time))
  }

  /** The thread at the back of the queue runs. */
  function Dispatch(s: State): State
    requires s.ready != []
  {
    s.(cpu := Runs(s.ready[|s.ready| - 1]), ready := s.ready[..|s.ready| - 1])
  }

  /** The first part of `block`: run the next thread, or start to spin. */
  function Block(s: State): State
  {
    if s.ready != [] then Dispatch(s) else s.(cpu := Spins)
  }

  /** The living thread `k` is no more: those that wait for it become ready. */
  function Release(s: State, k: Id): State
    requires k in s.joins
  {
    s.(ready := Pushed(s.ready, s.joins[k]), joins := s.joins - {k})
  }

  // ------------------------------------------------------------------ steps

  datatype Step =
    | Create
    | Ready(id: Id)
    | SetInit
    | Start
    | Switch(checked: bool, time: nat, locked: bool)
    | Sleep(now: nat, ms: nat)
    | Join(target: Id)
    | Exit
    | Kill(victim: Id)
    | Poll(now: nat)

  /** Where a step can be taken at all; elsewhere the operation panics, or its caller cannot exist. */
  predicate Enabled(s: State, step: Step)
  {
    match step
    case Create => !s.cpu.Spins?
    case Ready(id) => !s.cpu.Spins? && id in s.created
    case SetInit => !s.cpu.Spins?
    case Start => s.cpu.Off? && s.ready != []
    case Switch(_, _, _) => s.cpu.Runs? || (s.cpu.Off? && !s.initialized)
    case Sleep(_, _) => s.cpu.Runs? || (s.cpu.Off? && !s.initialized)
    case Join(_) => s.cpu.Runs?
    case Exit => s.cpu.Runs? && s.cpu.id in s.joins
    case Kill(k) => s.cpu.Runs? && k != s.cpu.id && k in s.joins
    case Poll(_) => s.cpu.Spins?
  }

  function Apply(s: State, step: Step): State
    requires Enabled(s, step)
  {
    match step
    case Create => s.(created := s.created + {s.nextId}, nextId := s.nextId + 1)
    case Ready(id) => s.(ready := [id] + s.ready, joins := s.joins[id := []], created := s.created - {id})
    case SetInit => s.(initialized := true)
    case Start => Dispatch(s)
    case Switch(checked, time, locked) =>
      if !s.initialized then s
      else
        var s1 := if checked then Wake(s, time) else s;
        if locked || s1.ready == [] then s1
        else Dispatch(s1).(ready := [s1.cpu.id] + s1.ready[..|s1.ready| - 1])
    case Sleep(now, ms) =>
      if !s.initialized then s
      else Block(s.(sleeping := s.sleeping + [Sleeper(s.cpu.id, now + ms)]))
    case Join(k) =>
      if k !in s.joins then s
      else Block(s.(joins := s.joins[k := s.joins[k] + [s.cpu.id]]))
    case Exit => Block(Release(s, s.cpu.id))
    case Kill(k) =>
      var s1 := Release(s, k);
      s1.(ready := Without(s1.ready, k))
    case Poll(now) =>
      var s1 := Wake(s, now);
      if s1.ready == [] then s1 else Dispatch(s1)
  }

  // -------------------------------------------------------------- invariant

  function Ids(sleeping: seq<Sleeper>): (r: seq<Id>)
    ensures |r| == |sleeping| && forall i | 0 <= i < |r| :: r[i] == sleeping[i].id
  {
    seq(|sleeping|, i requires 0 <= i < |sleeping| => sleeping[i].id)
  }

  function Running(s: State): seq<Id>
  {
    if s.cpu.Runs? then [s.cpu.id] else []
  }

  /** The threads that do not wait for another one to end, with the number of places each is in. */
  function Active(s: State): multiset<Id>
  {
    multiset(Running(s)) + multiset(s.ready) + multiset(Ids(s.sleeping))
  }

  /** Every thread with a join list, and no other, is in exactly one place. */
  ghost predicate OnePlace(active: multiset<Id>, joins: map<Id, seq<Id>>)
  {
    && (forall x :: active[x] <= 1)
    && (forall k | k in joins :: Distinct(joins[k]))
    && (forall k, x | k in joins && x in joins[k] :: x !in active)
    && (forall k, l, x | k in joins && l in joins && k != l && x in joins[k] :: x !in joins[l])
    && (forall x | x in active :: x in joins)
    && (forall k, x | k in joins && x in joins[k] :: x in joins)
    && (forall x | x in joins :: x in active || Waits(joins, x))
  }

  /** `x` waits for some thread to end. */
  ghost predicate Waits(joins: map<Id, seq<Id>>, x: Id)
  {
    exists k :: k in joins && x in joins[k]
  }

  ghost predicate Inv(s: State)
  {
    && OnePlace(Active(s), s.joins)
    && (forall x | x in s.created :: x !in s.joins && x < s.nextId)
    && (forall x | x in s.joins :: x < s.nextId)
  }

  // ---------------------------------------------- what moves between places

  lemma NewThread(active: multiset<Id>, joins: map<Id, seq<Id>>, x: Id)
    requires OnePlace(active, joins) && x !in joins
    ensures OnePlace(active + multiset{x}, joins[x := []])
  {
    hide Distinct, Waits;
    var joins' := joins[x := []];
    assert Distinct(joins'[x]) by { assert joins'[x] == []; EmptyDistinct(); }
    assert forall k | k in joins' && k != x :: joins'[k] == joins[k];
    forall k, y | k in joins' && y in joins'[k] ensures y !in active + multiset{x} && y in joins' {
      assert y in joins[k];
    }
    forall y | y in joins' ensures y in active + multiset{x} || Waits(joins', y) {
      if y != x && y !in active {
        StillWaits(joins, x, y);
      }
    }
  }

  lemma EmptyDistinct()
    ensures Distinct<Id>([])
  {
  }

  lemma StillWaits(joins: map<Id, seq<Id>>, x: Id, y: Id)
    requires Waits(joins, y) && x !in joins
    ensures Waits(joins[x := []], y)
  {
    var k :| k in joins && y in joins[k];
    assert y in joins[x := []][k];
  }

  lemma ThreadJoins(active: multiset<Id>, joins: map<Id, seq<Id>>, k: Id, x: Id)
    requires OnePlace(active, joins) && k in joins && x in active
    ensures OnePlace(active - multiset{x}, joins[k := joins[k] + [x]])
  {
    hide Distinct, Waits;
    JoinersAway(active, joins, k, x);
    JoinListsApart(active, joins, k, x);
    forall y | y in joins ensures y in active - multiset{x} || Waits(joins[k := joins[k] + [x]], y) {
      StillPlaced(active, joins, k, x, y);
    }
  }

  lemma JoinersAway(active: multiset<Id>, joins: map<Id, seq<Id>>, k: Id, x: Id)
    requires OnePlace(active, joins) && k in joins && x in active
    ensures var joins' := joins[k := joins[k] + [x]];
            forall l, y | l in joins' && y in joins'[l] :: y !in active - multiset{x} && y in joins'
  {
    hide Waits, Distinct;
    var joins' := joins[k := joins[k] + [x]];
    forall l, y | l in joins' && y in joins'[l] ensures y !in active - multiset{x} && y in joins' {
      if y == x {
        assert active[x] <= 1;
      } else {
        assert y in joins[l];
      }
    }
  }

  lemma JoinListsApart(active: multiset<Id>, joins: map<Id, seq<Id>>, k: Id, x: Id)
    requires OnePlace(active, joins) && k in joins && x in active
    ensures var joins' := joins[k := joins[k] + [x]];
            && (forall l | l in joins' :: Distinct(joins'[l]))
            && (forall l, m, y | l in joins' && m in joins' && l != m && y in joins'[l] :: y !in joins'[m])
  {
    var joins' := joins[k := joins[k] + [x]];
    assert Distinct(joins[k] + [x]);
    forall l, m, y | l in joins' && m in joins' && l != m && y in joins'[l] ensures y !in joins'[m] {
      if y == x {
        assert y !in joins[m];
      } else {
        assert y in joins[l] && y !in joins[m];
      }
    }
  }

  lemma StillPlaced(active: multiset<Id>, joins: map<Id, seq<Id>>, k: Id, x: Id, y: Id)
    requires k in joins && x in active && (y in active || Waits(joins, y)) && active[x] <= 1
    ensures y in active - multiset{x} || Waits(joins[k := joins[k] + [x]], y)
  {
    var joins' := joins[k := joins[k] + [x]];
    if y == x {
      assert k in joins' && x in joins'[k];
    } else if y !in active {
      var l :| l in joins && y in joins[l];
      assert l in joins' && y in joins'[l];
    }
  }

  /** Thread `k` ends and those that wait for it go on. */
  lemma ThreadEnds(active: multiset<Id>, joins: map<Id, seq<Id>>, k: Id)
    requires OnePlace(active, joins) && k in joins && (k in active || k in joins[k])
    ensures OnePlace(active + multiset(joins[k]) - multiset{k}, joins - {k})
  {
    var active', joins' := active + multiset(joins[k]) - multiset{k}, joins - {k};
    forall x ensures active'[x] <= 1 {
      DistinctOnce(joins[k], x);
    }
    forall y | y in joins' ensures y in active' || Waits(joins', y) {
      if y !in active && y !in joins[k] {
        var l :| l in joins && y in joins[l];
        assert l in joins' && y in joins'[l];
      }
    }
    forall x | x in active' ensures x in joins' {
      DistinctOnce(joins[k], k);
    }
    forall l, x | l in joins' && x in joins'[l] ensures x !in active' && x in joins' {
      assert x !in joins[k];
    }
  }

  lemma {:induction false} DistinctOnce(s: seq<Id>, x: Id)
    requires Distinct(s)
    ensures multiset(s)[x] == if x in s then 1 else 0
    decreases |s|
  {
    if s != [] {
      var last := s[|s| - 1];
      assert s == s[..|s| - 1] + [last];
      DistinctOnce(s[..|s| - 1], x);
      assert last !in s[..|s| - 1];
    }
  }

  // ----------------------------------------------------- steps and places

  lemma IdsMore(sleeping: seq<Sleeper>, e: Sleeper)
    ensures Ids(sleeping + [e]) == Ids(sleeping) + [e.id]
  {
  }

  lemma {:induction false} DueSplits(sleeping: seq<Sleeper>, time: nat)
    ensures multiset(Ids(sleeping)) == multiset(Due(sleeping, time)) + multiset(Ids(NotDue(sleeping, time)))
  {
    if sleeping != [] {
      var most, last := sleeping[..|sleeping| - 1], sleeping[|sleeping| - 1];
      DueSplits(most, time);
      assert sleeping == most + [last];
      IdsMore(most, last);
      var due, notDue := Due(most, time), NotDue(most, time);
      if time >= last.wake {
        assert Due(sleeping, time) == due + [last.id] && NotDue(sleeping, time) == notDue;
      } else {
        assert Due(sleeping, time) == due && NotDue(sleeping, time) == notDue + [last];
        IdsMore(notDue, last);
      }
    }
  }

  lemma WakeKeeps(s: State, time: nat)
    ensures Active(Wake(s, time)) == Active(s)
  {
    DueSplits(s.sleeping, time);
  }

  lemma DispatchKeeps(s: State)
    requires s.ready != [] && !s.cpu.Runs?
    ensures Active(Dispatch(s)) == Active(s)
  {
    var n := |s.ready| - 1;
    assert s.ready == s.ready[..n] + [s.ready[n]];
  }

  lemma BlockDrops(s: State)
    requires s.cpu.Runs?
    ensures Active(Block(s)) == Active(s) - multiset{s.cpu.id}
  {
    if s.ready != [] {
      var n := |s.ready| - 1;
      assert s.ready == s.ready[..n] + [s.ready[n]];
    }
  }

  lemma {:induction false} WithoutCounts(ready: seq<Id>, x: Id)
    ensures multiset(Without(ready, x)) == multiset(ready)[x := 0]
  {
    if ready != [] {
      var n := |ready| - 1;
      WithoutCounts(ready[..n], x);
      assert ready == ready[..n] + [ready[n]];
    }
  }

  // ------------------------------------------------------------------- runs

  /** The thread to be killed is where `kill` looks for it. */
  predicate WithinReach(s: State, k: Id)
  {
    k in s.ready || (k in s.joins && k in s.joins[k])
  }

  predicate Allowed(s: State, step: Step)
  {
    Enabled(s, step) && (step.Kill? ==> WithinReach(s, step.victim))
  }

  lemma StepInv(s: State, step: Step)
    requires Inv(s) && Allowed(s, step)
    ensures Inv(Apply(s, step))
  {
    hide OnePlace, Wake, Block, Release, Active;
    match step {
      case Create =>
        SameActive(s, Apply(s, step));
      case Ready(id) =>
        NewThread(Active(s), s.joins, id);
        ReadyCounts(s, id);
      case SetInit =>
        SameActive(s, Apply(s, step));
      case Start =>
        DispatchKeeps(s);
      case Switch(checked, time, locked) =>
        SwitchKeeps(s, checked, time, locked);
      case Sleep(now, ms) =>
        if s.initialized {
          SleepKeeps(s, now, ms);
        }
      case Join(k) =>
        JoinInv(s, k);
      case Exit =>
        ExitInv(s);
      case Kill(k) =>
        KillInv(s, k);
      case Poll(now) =>
        PollKeeps(s, now);
    }
  }

  lemma SameActive(s: State, s': State)
    requires s'.cpu == s.cpu && s'.ready == s.ready && s'.sleeping == s.sleeping
    ensures Active(s') == Active(s)
  {
  }

  lemma ReadyCounts(s: State, id: Id)
    requires Enabled(s, Ready(id))
    ensures Active(Apply(s, Ready(id))) == Active(s) + multiset{id}
  {
  }

  lemma SwitchKeeps(s: State, checked: bool, time: nat, locked: bool)
    requires Enabled(s, Switch(checked, time, locked))
    ensures var s' := Apply(s, Switch(checked, time, locked));
            Active(s') == Active(s) && s'.joins == s.joins && s'.created == s.created && s'.nextId == s.nextId
  {
    hide Due, NotDue, Pushed, Active;
    WakeKeeps(s, time);
    var s1 := if checked then Wake(s, time) else s;
    if s1.ready != [] && s1.cpu.Runs? {
      RotateKeeps(s1);
    }
  }

  lemma RotateKeeps(s: State)
    requires s.ready != [] && s.cpu.Runs?
    ensures Active(Dispatch(s).(ready := [s.cpu.id] + s.ready[..|s.ready| - 1])) == Active(s)
  {
    var n := |s.ready| - 1;
    assert s.ready == s.ready[..n] + [s.ready[n]];
  }

  lemma PollKeeps(s: State, now: nat)
    requires s.cpu.Spins?
    ensures var s' := Apply(s, Poll(now));
            Active(s') == Active(s) && s'.joins == s.joins && s'.created == s.created && s'.nextId == s.nextId
  {
    hide Due, NotDue, Pushed, Active;
    WakeKeeps(s, now);
    if Wake(s, now).ready != [] {
      DispatchKeeps(Wake(s, now));
    }
  }

  lemma SleepKeeps(s: State, now: nat, ms: nat)
    requires s.cpu.Runs? && s.initialized
    ensures var s' := Apply(s, Sleep(now, ms));
            Active(s') == Active(s) && s'.joins == s.joins && s'.created == s.created && s'.nextId == s.nextId
  {
    hide Active;
    var e := Sleeper(s.cpu.id, now + ms);
    SleeperCounts(s, e);
    BlockDrops(s.(sleeping := s.sleeping + [e]));
  }

  lemma SleeperCounts(s: State, e: Sleeper)
    ensures Active(s.(sleeping := s.sleeping + [e])) == Active(s) + multiset{e.id}
  {
    assert Ids(s.sleeping + [e]) == Ids(s.sleeping) + [e.id];
  }

  lemma ReleaseCounts(s: State, k: Id)
    requires k in s.joins
    ensures Active(Release(s, k)) == Active(s) + multiset(s.joins[k])
  {
    hide Reverse;
  }

  lemma JoinInv(s: State, k: Id)
    requires Inv(s) && s.cpu.Runs?
    ensures Inv(Apply(s, Join(k)))
  {
    hide OnePlace, Active;
    if k in s.joins {
      var s1 := s.(joins := s.joins[k := s.joins[k] + [s.cpu.id]]);
      SameActive(s, s1);
      BlockDrops(s1);
      RunsActive(s);
      ThreadJoins(Active(s), s.joins, k, s.cpu.id);
      assert Apply(s, Join(k)).joins == s1.joins && s1.joins.Keys == s.joins.Keys;
    }
  }

  lemma ExitInv(s: State)
    requires Inv(s) && Enabled(s, Exit)
    ensures Inv(Apply(s, Exit))
  {
    hide OnePlace, Active, Reverse;
    var c := s.cpu.id;
    RunsActive(s);
    ThreadEnds(Active(s), s.joins, c);
    ReleaseCounts(s, c);
    BlockDrops(Release(s, c));
    hide Pushed, Ids, Running;
    InvAt(s, Apply(s, Exit));
  }

  lemma InvAt(s: State, s': State)
    requires Inv(s) && OnePlace(Active(s'), s'.joins) && s'.joins.Keys <= s.joins.Keys
    requires s'.created == s.created && s'.nextId == s.nextId
    ensures Inv(s')
  {
    hide OnePlace, Active;
    assert forall x | x in s'.joins :: x in s'.joins.Keys;
  }

  lemma RunsActive(s: State)
    requires s.cpu.Runs?
    ensures s.cpu.id in Active(s)
  {
  }

  /** The places after a kill, wherever the victim is. */
  lemma KillCounts(s: State, k: Id)
    requires Enabled(s, Kill(k))
    ensures var queue: multiset<Id> := multiset(s.joins[k]) + multiset(s.ready);
            Active(Apply(s, Kill(k))) == multiset(Running(s)) + queue[k := 0] + multiset(Ids(s.sleeping))
  {
    WithoutCounts(Pushed(s.ready, s.joins[k]), k);
  }

  lemma KillInv(s: State, k: Id)
    requires Inv(s) && Enabled(s, Kill(k)) && WithinReach(s, k)
    ensures Inv(Apply(s, Kill(k)))
  {
    hide OnePlace, Active, Reverse, Without;
    ReachCounts(s, k);
    ThreadEnds(Active(s), s.joins, k);
    KillMoves(s, k);
  }

  lemma KillMoves(s: State, k: Id)
    requires Enabled(s, Kill(k)) && multiset(Running(s))[k] == 0 && multiset(Ids(s.sleeping))[k] == 0
    requires multiset(s.joins[k])[k] + multiset(s.ready)[k] == 1
    ensures Active(Apply(s, Kill(k))) == Active(s) + multiset(s.joins[k]) - multiset{k}
  {
    hide Reverse, Without, Apply;
    KillCounts(s, k);
    OutOfQueue(multiset(Running(s)), multiset(s.joins[k]), multiset(s.ready), multiset(Ids(s.sleeping)), k);
  }

  /** A victim within reach is once in the queue or its own join list, and nowhere else. */
  lemma ReachCounts(s: State, k: Id)
    requires Inv(s) && k in s.joins && WithinReach(s, k)
    ensures k in Active(s) || k in s.joins[k]
    ensures multiset(Running(s))[k] == 0 && multiset(Ids(s.sleeping))[k] == 0
    ensures multiset(s.joins[k])[k] + multiset(s.ready)[k] == 1
  {
    assert Active(s)[k] <= 1;
    DistinctOnce(s.joins[k], k);
    if k in s.ready {
      assert k in multiset(s.ready);
    }
  }

  lemma OutOfQueue(run: multiset<Id>, join: multiset<Id>, ready: multiset<Id>, sleep: multiset<Id>, k: Id)
    requires run[k] == 0 && sleep[k] == 0 && join[k] + ready[k] == 1
    ensures run + (join + ready)[k := 0] + sleep == run + ready + sleep + join - multiset{k}
  {
  }

  /** Killing a thread keeps everything in order exactly if it is ready or waits for itself: a victim
      that sleeps or waits for another thread is left behind there. */
  lemma KillExactly(s: State, k: Id)
    requires Inv(s) && Enabled(s, Kill(k))
    ensures Inv(Apply(s, Kill(k))) <==> WithinReach(s, k)
  {
    if WithinReach(s, k) {
      KillInv(s, k);
    } else {
      KillCounts(s, k);
      var s' := Apply(s, Kill(k));
      if k !in Ids(s.sleeping) {
        assert k !in Active(s);
        assert Waits(s.joins, k);
        var l :| l in s.joins && k in s.joins[l];
        assert l in s'.joins && k in s'.joins[l] && k !in s'.joins;
      } else {
        assert k in Active(s') && k !in s'.joins;
      }
    }
  }

  function Initial(): State
  {
    State(false, Off, [], [], map[], {}, 1)
  }

  ghost predicate Run(ss: seq<State>, steps: seq<Step>)
  {
    && |ss| == |steps| + 1
    && forall i | 0 <= i < |steps| :: Enabled(ss[i], steps[i]) && ss[i + 1] == Apply(ss[i], steps[i])
  }

  /** In every reachable state every living thread is in exactly one place. */
  lemma {:induction false} RunInv(ss: seq<State>, steps: seq<Step>)
    requires Run(ss, steps) && ss[0] == Initial()
    requires forall i | 0 <= i < |steps| :: Allowed(ss[i], steps[i])
    ensures forall i | 0 <= i < |ss| :: Inv(ss[i])
    decreases |steps|
  {
    hide Apply, Enabled, Inv, WithinReach;
    if steps == [] {
      assert Inv(ss[0]) by { InitialInv(); }
    } else {
      var n := |steps| - 1;
      RunInv(ss[..n + 1], steps[..n]);
      assert ss[..n + 1][n] == ss[n];
      StepInv(ss[n], steps[n]);
      forall i | 0 <= i < |ss| ensures Inv(ss[i]) {
        if i <= n {
          assert ss[..n + 1][i] == ss[i];
        }
      }
    }
  }

  lemma InitialInv()
    ensures Inv(Initial())
  {
    assert Ids([]) == [];
  }

  // -------------------------------------------------------- joining, sleeping

  /** The step ends thread `k`. */
  predicate Ends(s: State, step: Step, k: Id)
  {
    (step.Exit? && s.cpu == Runs(k)) || (step.Kill? && step.victim == k)
  }

  predicate ReadyOrRuns(s: State, x: Id)
  {
    x in s.ready || s.cpu == Runs(x)
  }

  /** Those that wait for `k` go on when it ends, all of them, and not before. */
  lemma JoinersWait(s: State, step: Step, k: Id)
    requires Inv(s) && Allowed(s, step) && k in s.joins
    ensures var s' := Apply(s, step);
            if Ends(s, step, k) then
              k !in s'.joins && forall x | x in s.joins[k] && x != k :: ReadyOrRuns(s', x)
            else
              && k in s'.joins && s.joins[k] <= s'.joins[k]
              && forall x | x in s.joins[k] :: !ReadyOrRuns(s', x)
  {
    hide Apply, Enabled, Inv, ReadyOrRuns;
    var s' := Apply(s, step);
    StepInv(s, step);
    if Ends(s, step, k) {
      EndsGone(s, step, k);
      forall x | x in s.joins[k] && x != k ensures ReadyOrRuns(s', x) {
        ReleasedReady(s, step, k, x);
      }
    } else {
      JoinListKept(s, step, k);
      forall x | x in s.joins[k] ensures !ReadyOrRuns(s', x) {
        WaiterNotReady(s', k, x);
      }
    }
  }

  lemma WaiterNotReady(s: State, k: Id, x: Id)
    requires Inv(s) && k in s.joins && x in s.joins[k]
    ensures !ReadyOrRuns(s, x)
  {
    assert x !in Active(s);
  }

  lemma EndsGone(s: State, step: Step, k: Id)
    requires Enabled(s, step) && Ends(s, step, k)
    ensures k !in Apply(s, step).joins
  {
  }

  lemma JoinListKept(s: State, step: Step, k: Id)
    requires Inv(s) && Enabled(s, step) && k in s.joins && !Ends(s, step, k)
    ensures var s' := Apply(s, step); k in s'.joins && s.joins[k] <= s'.joins[k]
  {
    hide OnePlace, Active, Due, NotDue, Without, Pushed;
  }

  lemma ReleasedReady(s: State, step: Step, k: Id, x: Id)
    requires Enabled(s, step) && Ends(s, step, k) && k in s.joins && x in s.joins[k] && x != k
    ensures ReadyOrRuns(Apply(s, step), x)
  {
    var all := Pushed(s.ready, s.joins[k]);
    assert x in multiset(s.joins[k]);
    assert x in multiset(Reverse(s.joins[k]));
    assert x in all;
    if step.Kill? {
      WithoutCounts(all, k);
      assert x in multiset(Without(all, k));
    } else {
      assert all == all[..|all| - 1] + [all[|all| - 1]];
    }
  }

  /** The time at which a step looks at the sleep list, if it does. */
  function Looks(s: State, step: Step): Option<nat>
  {
    match step
    case Switch(checked, time, _) => if s.initialized && checked then Some(time) else None
    case Poll(now) => Some(now)
    case _ => None
  }

  lemma {:induction false} DueExactly(sleeping: seq<Sleeper>, time: nat, e: Sleeper)
    requires e in sleeping
    ensures e in NotDue(sleeping, time) <==> time < e.wake
    ensures time >= e.wake ==> e.id in Due(sleeping, time)
    decreases |sleeping|
  {
    var most, last := sleeping[..|sleeping| - 1], sleeping[|sleeping| - 1];
    assert sleeping == most + [last];
    if e in most {
      DueExactly(most, time, e);
    } else {
      NotDueFrom(most, time, e);
    }
  }

  lemma {:induction false} NotDueFrom(sleeping: seq<Sleeper>, time: nat, e: Sleeper)
    requires e !in sleeping
    ensures e !in NotDue(sleeping, time)
    decreases |sleeping|
  {
    if sleeping != [] {
      NotDueFrom(sleeping[..|sleeping| - 1], time, e);
    }
  }

  /** A sleeper goes on at the first look at the list at or after its time, and not before. */
  lemma SleepersSleep(s: State, step: Step, e: Sleeper)
    requires Inv(s) && Allowed(s, step) && e in s.sleeping
    ensures var s' := Apply(s, step);
            if Looks(s, step).Some? && Looks(s, step).value >= e.wake then
              e !in s'.sleeping && ReadyOrRuns(s', e.id)
            else
              e in s'.sleeping && !ReadyOrRuns(s', e.id)
  {
    hide Apply, Enabled, Inv, ReadyOrRuns;
    var t := Looks(s, step);
    StepInv(s, step);
    SleepersKept(s, step, e);
    if t.Some? && t.value >= e.wake {
      DueExactly(s.sleeping, t.value, e);
      WokenReady(s, step, e.id);
    } else {
      SleeperNotReady(Apply(s, step), e);
    }
  }

  lemma SleepersKept(s: State, step: Step, e: Sleeper)
    requires Enabled(s, step) && e in s.sleeping
    ensures e in Apply(s, step).sleeping <==> !(Looks(s, step).Some? && Looks(s, step).value >= e.wake)
  {
    hide Due, NotDue, Pushed, Without;
    var t := Looks(s, step);
    if t.Some? {
      DueExactly(s.sleeping, t.value, e);
    }
  }

  lemma SleeperNotReady(s: State, e: Sleeper)
    requires Inv(s) && e in s.sleeping
    ensures !ReadyOrRuns(s, e.id)
  {
    var i :| 0 <= i < |s.sleeping| && s.sleeping[i] == e;
    assert Ids(s.sleeping)[i] == e.id;
    assert e.id in multiset(Ids(s.sleeping));
    assert Active(s)[e.id] <= 1;
  }

  lemma WokenReady(s: State, step: Step, x: Id)
    requires Enabled(s, step) && Looks(s, step).Some? && x in Due(s.sleeping, Looks(s, step).value)
    ensures ReadyOrRuns(Apply(s, step), x)
  {
    var due := Due(s.sleeping, Looks(s, step).value);
    assert x in multiset(due);
    assert x in multiset(Reverse(due));
    var all := Pushed(s.ready, due);
    assert x in all;
    assert all == all[..|all| - 1] + [all[|all| - 1]];
  }

  /** A thread killed in its sleep wakes up all the same: it is in the ready queue and not alive. */
  lemma KilledSleeperReturns(s: State, e: Sleeper, time: nat)
    requires Enabled(s, Kill(e.id)) && s.initialized && e in s.sleeping && time >= e.wake
    ensures var s' := Apply(Apply(s, Kill(e.id)), Switch(true, time, true));
            e.id !in s'.joins && e.id in s'.ready
  {
    hide Reverse, Due, NotDue, Without;
    var s1 := Apply(s, Kill(e.id));
    DueExactly(s1.sleeping, time, e);
    WokenReady(s1, Switch(true, time, true), e.id);
  }

  /** Thread 1 runs and thread 2 sleeps. */
  function SleepingVictim(): State
  {
    State(true, Runs(1), [], [Sleeper(2, 10)], map[1 := [], 2 := []], {}, 3)
  }

  lemma KillOutOfReach()
    ensures var s := SleepingVictim(); Inv(s) && Enabled(s, Kill(2)) && !WithinReach(s, 2)
  {
    hide OnePlace, Active;
    VictimActive();
    TwoThreads();
  }

  lemma VictimActive()
    ensures Active(SleepingVictim()) == multiset{1} + multiset{2}
  {
    assert Ids(SleepingVictim().sleeping) == [2];
  }

  lemma TwoThreads()
    ensures OnePlace(multiset{1} + multiset{2}, map[1 := [], 2 := []])
  {
    assert OnePlace(multiset{}, map[]);
    hide OnePlace;
    NewThread(multiset{}, map[], 1);
    assert multiset{} + multiset{1} == multiset{1};
    var one: map<Id, seq<Id>> := map[1 := []];
    NewThread(multiset{1}, one, 2);
    assert one[2 := []] == map[1 := [], 2 := []];
  }

  // -------------------------------------------------------- bounded waiting

  /** Thread `x` is ready, with `b` threads to leave the queue before it. */
  predicate Ahead(s: State, x: Id, b: nat)
  {
    b < |s.ready| && s.ready[|s.ready| - 1 - b] == x
  }

  /** The step takes a thread from the ready queue. */
  predicate Dequeues(s: State, step: Step)
  {
    match step
    case Start => true
    case Switch(checked, time, locked) =>
      s.initialized && !locked && (if checked then Wake(s, time) else s).ready != []
    case Sleep(_, _) => s.initialized && s.ready != []
    case Join(k) => k in s.joins && s.ready != []
    case Exit => s.cpu.Runs? && s.cpu.id in s.joins && Release(s, s.cpu.id).ready != []
    case Poll(now) => Wake(s, now).ready != []
    case _ => false
  }

  lemma PushedAhead(ready: seq<Id>, xs: seq<Id>, b: nat)
    requires b < |ready|
    ensures var all := Pushed(ready, xs);
            b < |all| && all[|all| - 1 - b] == ready[|ready| - 1 - b]
  {
  }

  lemma {:induction false} WithoutAhead(ready: seq<Id>, k: Id, b: nat) returns (b': nat)
    requires b < |ready| && ready[|ready| - 1 - b] != k
    ensures b' <= b && b' < |Without(ready, k)|
    ensures Without(ready, k)[|Without(ready, k)| - 1 - b'] == ready[|ready| - 1 - b]
    decreases |ready|
  {
    var n := |ready| - 1;
    if b == 0 {
      b' := 0;
    } else {
      b' := WithoutAhead(ready[..n], k, b - 1);
      if ready[n] != k {
        b' := b' + 1;
      }
    }
  }

  /** The thread at the back leaves, and perhaps one comes to the front. */
  lemma LeaveAhead(ready: seq<Id>, front: seq<Id>, b: nat)
    requires 0 < b < |ready|
    ensures var rest := front + ready[..|ready| - 1];
            b - 1 < |rest| && rest[|rest| - b] == ready[|ready| - 1 - b]
  {
  }

  lemma SwitchAhead(s: State, step: Step, x: Id, b: nat)
    requires step.Switch? && Enabled(s, step) && Ahead(s, x, b)
    ensures NearsBy(s, step, x, b)
  {
    hide Reverse, Due, NotDue, Pushed;
    PushedAhead(s.ready, Due(s.sleeping, step.time), b);
    if s.initialized && b > 0 {
      var s1 := if step.checked then Wake(s, step.time) else s;
      LeaveAhead(s1.ready, [s.cpu.id], b);
    }
  }

  /** The step brings thread `x` one place on if it takes a thread from the queue. */
  predicate NearsBy(s: State, step: Step, x: Id, b: nat)
    requires Enabled(s, step)
  {
    if !Dequeues(s, step) then Ahead(Apply(s, step), x, b)
    else if b == 0 then Apply(s, step).cpu == Runs(x)
    else Ahead(Apply(s, step), x, b - 1)
  }

  lemma PollAhead(s: State, step: Step, x: Id, b: nat)
    requires step.Poll? && Enabled(s, step) && Ahead(s, x, b)
    ensures NearsBy(s, step, x, b)
  {
    hide Reverse, Due, NotDue, Pushed;
    PushedAhead(s.ready, Due(s.sleeping, step.now), b);
    if b > 0 {
      LeaveAhead(Wake(s, step.now).ready, [], b);
    }
  }

  lemma ExitAhead(s: State, x: Id, b: nat)
    requires Enabled(s, Exit) && Ahead(s, x, b)
    ensures NearsBy(s, Exit, x, b)
  {
    hide Reverse, Due, NotDue, Pushed;
    PushedAhead(s.ready, s.joins[s.cpu.id], b);
    if b > 0 {
      LeaveAhead(Release(s, s.cpu.id).ready, [], b);
    }
  }

  /** One step brings a ready thread closer to running if it takes a thread from the queue, and never
      farther away. */
  lemma StepAhead(s: State, step: Step, x: Id, b: nat) returns (b': nat)
    requires Enabled(s, step) && Ahead(s, x, b) && step != Kill(x)
    ensures var s' := Apply(s, step);
            if Dequeues(s, step) && b == 0 then s'.cpu == Runs(x)
            else Ahead(s', x, b') && b' <= if Dequeues(s, step) then b - 1 else b
  {
    hide Reverse, Due, NotDue, Without, Pushed;
    b' := if Dequeues(s, step) && b > 0 then b - 1 else b;
    match step {
      case Switch(_, _, _) =>
        SwitchAhead(s, step, x, b);
      case Exit =>
        ExitAhead(s, x, b);
      case Poll(_) =>
        PollAhead(s, step, x, b);
      case Kill(k) =>
        b' := KillAhead(s, k, x, b);
      case _ =>
    }
  }

  lemma KillAhead(s: State, k: Id, x: Id, b: nat) returns (b': nat)
    requires Enabled(s, Kill(k)) && Ahead(s, x, b) && k != x
    ensures Ahead(Apply(s, Kill(k)), x, b') && b' <= b
  {
    hide Reverse, Without, Pushed;
    PushedAhead(s.ready, s.joins[k], b);
    b' := WithoutAhead(Pushed(s.ready, s.joins[k]), k, b);
  }

  /** How many of the steps take a thread from the queue. */
  function Dequeued(ss: seq<State>, steps: seq<Step>): nat
    requires |ss| == |steps| + 1
  {
    if steps == [] then 0
    else (if Dequeues(ss[0], steps[0]) then 1 else 0) + Dequeued(ss[1..], steps[1..])
  }

  /** A ready thread with `b` threads before it runs after at most `b + 1` dequeues, whatever else
      happens meanwhile, unless it is killed. */
  lemma {:induction false} BoundedWaiting(ss: seq<State>, steps: seq<Step>, x: Id, b: nat)
    requires Run(ss, steps) && Ahead(ss[0], x, b)
    requires forall i | 0 <= i < |steps| :: steps[i] != Kill(x)
    requires Dequeued(ss, steps) >= b + 1
    ensures exists i :: 0 <= i < |ss| && ss[i].cpu == Runs(x)
    decreases |steps|
  {
    hide Apply, Enabled, Dequeues, Ahead;
    var b' := StepAhead(ss[0], steps[0], x, b);
    if Dequeues(ss[0], steps[0]) && b == 0 {
      assert ss[1].cpu == Runs(x);
    } else {
      BoundedWaiting(ss[1..], steps[1..], x, b');
      var i :| 0 <= i < |ss[1..]| && ss[1..][i].cpu == Runs(x);
      assert ss[i + 1].cpu == Runs(x);
    }
  }
}
