/** The scheduler's own operations, each proved to take the step of the same name. */
module Schedulers {
  import opened Sequences
  import opened Scheduling
  import opened ProcessKills

  /** The rest of `block`: look at the sleep list at the given times until a thread is ready. */
  function PollAll(s: State, times: seq<nat>): State
    decreases |times|
  {
    if times == [] || !s.cpu.Spins? then s else PollAll(Apply(s, Poll(times[0])), times[1..])
  }

  lemma {:induction false} PollAllMore(s: State, times: seq<nat>, time: nat)
    requires PollAll(s, times).cpu.Spins?
    ensures PollAll(s, times + [time]) == Apply(PollAll(s, times), Poll(time))
    decreases |times|
  {
    hide Apply;
    if times == [] {
      assert (times + [time])[1..] == [];
    } else if s.cpu.Spins? {
      PollAllMore(Apply(s, Poll(times[0])), times[1..], time);
      assert (times + [time])[1..] == times[1..] + [time];
    }
  }

  lemma {:induction false} PollAllStops(s: State, times: seq<nat>, more: seq<nat>)
    requires !PollAll(s, times).cpu.Spins?
    ensures PollAll(s, times + more) == PollAll(s, times)
    decreases |times|
  {
    hide Apply;
    if times == [] {
      assert times + more == more;
    } else if s.cpu.Spins? {
      PollAllStops(Apply(s, Poll(times[0])), times[1..], more);
      assert (times + more)[1..] == times[1..] + more;
    }
  }

  lemma {:induction false} PollAllInv(s: State, times: seq<nat>)
    requires Inv(s)
    ensures Inv(PollAll(s, times))
    decreases |times|
  {
    hide Apply, Inv;
    if times != [] && s.cpu.Spins? {
      StepInv(s, Poll(times[0]));
      PollAllInv(Apply(s, Poll(times[0])), times[1..]);
    }
  }

  lemma DueNext(sleeping: seq<Sleeper>, e: Sleeper, time: nat)
    ensures Due(sleeping + [e], time) == if time >= e.wake then Due(sleeping, time) + [e.id] else Due(sleeping, time)
    ensures NotDue(sleeping + [e], time)
            == if time >= e.wake then NotDue(sleeping, time) else NotDue(sleeping, time) + [e]
  {
    assert (sleeping + [e])[..|sleeping|] == sleeping;
    assert Due(sleeping, time) + [] == Due(sleeping, time) && NotDue(sleeping, time) + [] == NotDue(sleeping, time);
  }

  lemma NoneDue(ready: seq<Id>, time: nat)
    ensures Pushed(ready, Due([], time)) == ready && NotDue([], time) == []
  {
    assert Pushed(ready, []) == ready;
  }

  lemma PushedNext(ready: seq<Id>, xs: seq<Id>, x: Id)
    ensures Pushed(ready, xs + [x]) == [x] + Pushed(ready, xs)
  {
    assert (xs + [x])[..|xs|] == xs;
  }

  class Scheduler {
    var initialized: bool
    var current: Option<Id>
    var ready: seq<Id>
    var sleeping: seq<Sleeper>
    var joins: map<Id, seq<Id>>
    var nextId: Id
    /** Ids handed out to threads that are not ready yet. */
    var created: set<Id>
    /** Whether `block` is waiting for a sleeper to be due. */
    var spins: bool

    function State(): State
      reads this
    {
      Scheduling.State(initialized, if spins then Spins else if current.Some? then Runs(current.value) else Off,
                       ready, sleeping, joins, created, nextId)
    }

    constructor ()
      ensures State() == Initial()
    {
      initialized, current, ready, sleeping, joins, nextId := false, None, [], [], map[], 1;
      created, spins := {}, false;
    }

    method NextThreadId() returns (id: Id)
      requires !spins
      modifies this
      ensures State() == Apply(old(State()), Create) && id == old(nextId)
    {
      id := nextId;
      nextId := nextId + 1;
      created := created + {id};
    }

    method SetInit()
      requires !spins
      modifies this
      ensures State() == Apply(old(State()), Scheduling.SetInit)
    {
      initialized := true;
    }

    method PopBack() returns (next: Option<Id>)
      modifies this`ready
      ensures old(ready) == [] ==> next.None? && ready == []
      ensures old(ready) != [] ==> next == Some(old(ready)[|old(ready)| - 1]) && ready == old(ready)[..|old(ready)| - 1]
    {
      if ready == [] {
        return None;
      }
      next := Some(ready[|ready| - 1]);
      ready := ready[..|ready| - 1];
    }

    method PushAll(xs: seq<Id>)
      modifies this`ready
      ensures ready == Pushed(old(ready), xs)
    {
      for i := 0 to |xs|
        invariant ready == Pushed(old(ready), xs[..i])
      {
        assert xs[..i + 1] == xs[..i] + [xs[i]];
        PushedNext(old(ready), xs[..i], xs[i]);
        ready := [xs[i]] + ready;
      }
      assert xs[..|xs|] == xs;
    }

    method Start() returns (ok: bool)
      requires Enabled(State(), Scheduling.Start) || (State().cpu.Off? && ready == [])
      modifies this
      ensures ok == (old(ready) != [])
      ensures ok ==> State() == Apply(old(State()), Scheduling.Start)
    {
      current := PopBack();
      ok := current.Some?;
    }

    /** A new thread becomes ready. */
    method Ready(id: Id)
      requires Enabled(State(), Scheduling.Ready(id))
      modifies this
      ensures State() == Apply(old(State()), Scheduling.Ready(id))
    {
      ready := [id] + ready;
      joins := joins[id := []];
      created := created - {id};
    }

    method CheckSleepList(time: nat)
      modifies this`ready, this`sleeping
      ensures State() == Wake(old(State()), time)
    {
      hide Due, NotDue, Pushed;
      NoneDue(ready, time);
      var kept: seq<Sleeper> := [];
      for i := 0 to |sleeping|
        invariant sleeping == old(sleeping)
        invariant ready == Pushed(old(ready), Due(sleeping[..i], time)) && kept == NotDue(sleeping[..i], time)
      {
        var entry := sleeping[i];
        DueNext(sleeping[..i], entry, time);
        assert sleeping[..i + 1] == sleeping[..i] + [entry];
        if time >= entry.wake {
          PushedNext(old(ready), Due(sleeping[..i], time), entry.id);
          ready := [entry.id] + ready;
        } else {
          kept := kept + [entry];
        }
      }
      assert sleeping[..|sleeping|] == sleeping;
      sleeping := kept;
    }

    method SwitchThread(checked: bool, time: nat, locked: bool)
      requires Enabled(State(), Switch(checked, time, locked))
      modifies this
      ensures State() == Apply(old(State()), Switch(checked, time, locked))
    {
      if !initialized {
        return;
      }
      if checked {
        CheckSleepList(time);
      }
      if locked {
        return;
      }
      var next := PopBack();
      if next.None? {
        return;
      }
      ready := [current.value] + ready;
      current := next;
    }

    /** Lets the next thread run; `times` are the clock readings while none is ready. */
    method Block(times: seq<nat>)
      requires State().cpu.Runs?
      modifies this
      ensures State() == PollAll(Scheduling.Block(old(State())), times)
    {
      hide Wake, Due, NotDue, Pushed;
      ghost var begun := Scheduling.Block(State());
      var next := PopBack();
      spins := next.None?;
      var i := 0;
      while next.None? && i < |times|
        invariant i <= |times| && spins == next.None? && current.Some?
        invariant var s := PollAll(begun, times[..i]);
                  if next.None? then s == State() else s == State().(cpu := Runs(next.value))
        decreases |times| - i
      {
        assert times[..i + 1] == times[..i] + [times[i]];
        PollAllMore(begun, times[..i], times[i]);
        CheckSleepList(times[i]);
        next := PopBack();
        spins := next.None?;
        i := i + 1;
      }
      assert times[..i] + times[i..] == times;
      if next.None? {
        assert times[..i] == times;
        return;
      }
      PollAllStops(begun, times[..i], times[i..]);
      if current == next {
        return;
      }
      current := next;
    }

    method Sleep(now: nat, ms: nat, times: seq<nat>)
      requires Enabled(State(), Scheduling.Sleep(now, ms))
      modifies this
      ensures State() == if old(initialized) then PollAll(Apply(old(State()), Scheduling.Sleep(now, ms)), times)
                         else old(State())
    {
      if !initialized {
        return;
      }
      sleeping := sleeping + [Sleeper(current.value, now + ms)];
      Block(times);
    }

    method Join(target: Id, times: seq<nat>)
      requires Enabled(State(), Scheduling.Join(target))
      modifies this
      ensures State() == if target in old(joins) then PollAll(Apply(old(State()), Scheduling.Join(target)), times)
                         else old(State())
    {
      if target !in joins {
        return;
      }
      joins := joins[target := joins[target] + [current.value]];
      Block(times);
    }

    /** Ends the calling thread; not `ok` is the panic for a thread without a join list. */
    method Exit(times: seq<nat>) returns (ok: bool)
      requires State().cpu.Runs?
      modifies this
      ensures ok == Enabled(old(State()), Scheduling.Exit) && (ok <==> old(current.value) in old(joins))
      ensures ok ==> State() == PollAll(Apply(old(State()), Scheduling.Exit), times)
      ensures !ok ==> State() == old(State())
    {
      var id := current.value;
      if id !in joins {
        return false;
      }
      PushAll(joins[id]);
      joins := joins - {id};
      Block(times);
      ok := true;
    }

    /** Ends another thread; not `ok` is a panic. */
    method Kill(victim: Id) returns (ok: bool)
      requires State().cpu.Runs?
      modifies this
      ensures ok == Enabled(old(State()), Scheduling.Kill(victim))
      ensures ok <==> victim != old(current.value) && victim in old(joins)
      ensures ok ==> State() == Apply(old(State()), Scheduling.Kill(victim))
      ensures !ok ==> State() == old(State())
    {
      if current.value == victim || victim !in joins {
        return false;
      }
      PushAll(joins[victim]);
      joins := joins - {victim};
      var kept: seq<Id> := [];
      for i := 0 to |ready|
        invariant ready == Pushed(old(ready), old(joins)[victim]) && kept == Without(ready[..i], victim)
        invariant joins == old(joins) - {victim}
                  && unchanged(`initialized, `current, `sleeping, `nextId, `created, `spins)
      {
        assert ready[..i + 1][..i] == ready[..i];
        if ready[i] != victim {
          kept := kept + [ready[i]];
        }
      }
      assert ready[..|ready|] == ready;
      ready := kept;
      ok := true;
    }

    /** `thread`: looks for a thread in the ready queue only. */
    method Find(id: Id) returns (found: bool)
      ensures found <==> id in ready
    {
      for i := 0 to |ready|
        invariant id !in ready[..i]
      {
        if ready[i] == id {
          return true;
        }
      }
      found := false;
    }

    /** What other threads and interrupts do between two calls of the running thread. */
    method Meanwhile(steps: seq<Step>)
      modifies this
      ensures State() == Others(old(State()), steps)
    {
      hide Apply, Enabled, WithinReach;
      for i := 0 to |steps|
        invariant Others(State(), steps[i..]) == Others(old(State()), steps)
      {
        assert steps[i..][0] == steps[i] && steps[i..][1..] == steps[i + 1..];
        if Allowed(State(), steps[i]) {
          Take(steps[i]);
        }
      }
    }

    method Take(step: Step)
      requires Enabled(State(), step)
      modifies this
      ensures State() == Apply(old(State()), step)
    {
      hide Wake, Scheduling.Block, Release, Without;
      match step {
        case Create =>
          var id := NextThreadId();
        case Ready(id) =>
          Ready(id);
        case SetInit =>
          SetInit();
        case Start =>
          var ok := Start();
        case Switch(checked, time, locked) =>
          SwitchThread(checked, time, locked);
        case Sleep(now, ms) =>
          Sleep(now, ms, []);
        case Join(target) =>
          Join(target, []);
        case Exit =>
          var ok := Exit([]);
        case Kill(victim) =>
          var ok := Kill(victim);
        case Poll(now) =>
          PollOnce(now);
      }
    }

    /** One more turn of the loop in `block`. */
    method PollOnce(now: nat)
      requires spins
      modifies this
      ensures State() == Apply(old(State()), Poll(now))
    {
      hide Due, NotDue, Pushed;
      CheckSleepList(now);
      var next := PopBack();
      if next.Some? {
        current := next;
        spins := false;
      }
    }

    predicate Running(id: Id)
      reads this
    {
      !spins && current == Some(id)
    }

    /** The ids of a process's threads, as far as `thread` finds them, each at its own time.  `others` is
        what happens before each call of the scheduler; `ok` is whether the calling thread got to the end. */
    method ThreadIds(owned: set<Id>, others: nat -> seq<Step>, id: Id) returns (ok: bool, ids: seq<Id>, calls: nat)
      requires Inv(State()) && Running(id)
      modifies this
      ensures Inv(State()) && (ok ==> Running(id)) && forall x | x in ids :: x in owned
      ensures Quiet(others) ==>
                && ok && State() == old(State()) && Distinct(ids)
                && forall x :: x in ids <==> x in ready && x in owned
    {
      hide Inv, Distinct, Allowed, Apply;
      OthersInv(State(), others(0));
      Meanwhile(others(0));
      ids, calls := [], 1;
      if !Running(id) {
        return false, ids, calls;
      }
      var active := ready + Ids(sleeping);
      ActiveDistinct(State());
      ListsNone(ready, owned);
      for i := 0 to |active|
        invariant Inv(State()) && Running(id) && forall x | x in ids :: x in owned
        invariant Quiet(others) ==> State() == old(State()) && Lists(ids, active[..i], ready, owned)
      {
        OthersInv(State(), others(calls));
        Meanwhile(others(calls));
        calls := calls + 1;
        if !Running(id) {
          return false, ids, calls;
        }
        var found := Find(active[i]);
        if Quiet(others) {
          ListsNext(ids, active, i, ready, owned);
        }
        if found && active[i] in owned {
          ids := ids + [active[i]];
        }
      }
      assert active[..|active|] == active;
      ok := true;
    }

    /** Ends all threads of a process that `thread` finds, but not the calling one, with anything happening
        in between.  The log has every kill with the state it was made in. */
    method KillAllButCurrent(owned: set<Id>, others: nat -> seq<Step>) returns (r: Outcome, ghost log: seq<Attempt>)
      requires Inv(State()) && State().cpu.Runs?
      modifies this
      ensures Attempts(log, old(current.value), owned) && (AllWithinReach(log) ==> Inv(State()))
      ensures r.Panicked? ==>
              r.victim in owned && Running(old(current.value)) && !Enabled(State(), Scheduling.Kill(r.victim))
      ensures Quiet(others) ==>
                && r.Finished? && Inv(State()) && current == old(current)
                && forall x :: x in joins <==> x in old(joins) && !(x in old(ready) && x in owned)
    {
      hide Inv, Apply, Enabled, Attempts, AllWithinReach;
      AttemptsNone(current.value, owned);
      var me := current.value;
      log := [];
      var ok, ids, calls := ThreadIds(owned, others, me);
      if !ok {
        return Away, log;
      }
      for i := 0 to |ids|
        invariant Running(me)
        invariant Attempts(log, me, owned) && (AllWithinReach(log) ==> Inv(State()))
        invariant Quiet(others) ==>
                    && Inv(State()) && (forall j | i <= j < |ids| :: ids[j] in ready)
                    && forall x :: x in joins <==> x in old(joins) && x !in ids[..i]
      {
        if Inv(State()) {
          OthersInv(State(), others(calls));
        }
        Meanwhile(others(calls));
        calls := calls + 1;
        if !Running(me) {
          return Away, log;
        }
        assert ids[..i + 1] == ids[..i] + [ids[i]];
        if ids[i] == current.value {
          if Quiet(others) {
            QueuedAlive(State(), ids[i]);
          }
          continue;
        }
        if Inv(State()) {
          OthersInv(State(), others(calls));
        }
        Meanwhile(others(calls));
        calls := calls + 1;
        if !Running(me) {
          return Away, log;
        }
        ghost var before := State();
        if Quiet(others) {
          QueuedAlive(before, ids[i]);
        }
        ok := Kill(ids[i]);
        if !ok {
          return Panicked(ids[i]), log;
        }
        KillTakes(before, ids[i]);
        if WithinReach(before, ids[i]) && Inv(before) {
          KillInv(before, ids[i]);
        }
        AttemptsMore(log, Attempt(before, ids[i]), me, owned);
        log := log + [Attempt(before, ids[i])];
        if Quiet(others) {
          forall j | i + 1 <= j < |ids| ensures ids[j] in ready {
            OthersStayQueued(before, ids[i], ids[j]);
          }
        }
      }
      assert ids[..|ids|] == ids;
      r := Finished;
    }
  }

  /** How ending the threads of a process went: to the end, to a panic, or to where the calling thread was
      no longer running and has not run again. */
  datatype Outcome = Finished | Panicked(victim: Id) | Away

  datatype Attempt = Attempt(before: State, victim: Id)

  /** Every kill was made by the calling thread, of a thread it owns, and did not panic. */
  ghost predicate Attempts(log: seq<Attempt>, me: Id, owned: set<Id>)
  {
    forall i | 0 <= i < |log| ::
      && log[i].before.cpu == Runs(me) && log[i].victim in owned
      && Enabled(log[i].before, Kill(log[i].victim))
  }

  ghost predicate AllWithinReach(log: seq<Attempt>)
  {
    forall i | 0 <= i < |log| :: WithinReach(log[i].before, log[i].victim)
  }

  lemma AttemptsNone(me: Id, owned: set<Id>)
    ensures Attempts([], me, owned) && AllWithinReach([])
  {
  }

  lemma AttemptsMore(log: seq<Attempt>, a: Attempt, me: Id, owned: set<Id>)
    requires Attempts(log, me, owned)
    requires a.before.cpu == Runs(me) && a.victim in owned && Enabled(a.before, Kill(a.victim))
    ensures Attempts(log + [a], me, owned)
    ensures AllWithinReach(log + [a]) <==> AllWithinReach(log) && WithinReach(a.before, a.victim)
  {
    hide Enabled, WithinReach;
    var log' := log + [a];
    assert log'[|log|] == a;
    assert forall k | 0 <= k < |log| :: log'[k] == log[k];
  }

  /** `ids` are the threads in `seen` that are ready and among `owned`. */
  ghost predicate Lists(ids: seq<Id>, seen: seq<Id>, ready: seq<Id>, owned: set<Id>)
  {
    Distinct(ids) && forall x :: x in ids <==> x in seen && x in ready && x in owned
  }

  lemma ListsNone(ready: seq<Id>, owned: set<Id>)
    ensures Lists([], [], ready, owned)
  {
  }

  lemma ListsNext(ids: seq<Id>, active: seq<Id>, i: nat, ready: seq<Id>, owned: set<Id>)
    requires Distinct(active) && i < |active| && Lists(ids, active[..i], ready, owned)
    ensures Lists(if active[i] in ready && active[i] in owned then ids + [active[i]] else ids,
                  active[..i + 1], ready, owned)
  {
    assert active[..i + 1] == active[..i] + [active[i]];
    assert active[i] !in active[..i];
  }

  /** Nothing happens in between. */
  ghost predicate Quiet(others: nat -> seq<Step>)
  {
    forall k: nat :: others(k) == []
  }

  lemma KillTakes(s: State, k: Id)
    requires Enabled(s, Kill(k))
    ensures Apply(s, Kill(k)).joins == s.joins - {k} && Apply(s, Kill(k)).cpu == s.cpu
  {
  }

  lemma ActiveDistinct(s: State)
    requires Inv(s)
    ensures Distinct(s.ready + Ids(s.sleeping))
  {
    var all := s.ready + Ids(s.sleeping);
    forall x ensures multiset(all)[x] <= 1 {
      assert Active(s)[x] <= 1;
    }
    OnceDistinct(all);
  }

  lemma {:induction false} OnceDistinct(s: seq<Id>)
    requires forall x :: multiset(s)[x] <= 1
    ensures Distinct(s)
    decreases |s|
  {
    if s != [] {
      var n := |s| - 1;
      assert s == s[..n] + [s[n]];
      forall x ensures multiset(s[..n])[x] <= 1 {
        assert multiset(s)[x] <= 1;
      }
      OnceDistinct(s[..n]);
      assert multiset(s)[s[n]] <= 1;
      assert s[n] !in s[..n];
    }
  }

  lemma QueuedAlive(s: State, x: Id)
    requires Inv(s) && x in s.ready && s.cpu.Runs?
    ensures Enabled(s, Kill(x)) && WithinReach(s, x) && x != s.cpu.id && x in s.joins
  {
    assert x in multiset(s.ready);
    assert x in Active(s) && Active(s)[x] <= 1;
  }

  lemma OthersStayQueued(s: State, k: Id, x: Id)
    requires Enabled(s, Kill(k)) && x in s.ready && x != k
    ensures x in Apply(s, Kill(k)).ready
  {
    var all := Pushed(s.ready, s.joins[k]);
    assert x in all;
    assert x in multiset(all);
    WithoutCounts(all, k);
    assert x in multiset(Without(all, k));
  }
}
