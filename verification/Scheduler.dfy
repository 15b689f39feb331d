/**
 The task schedulers of `executable.rs`. The scheduling loops run for as long as there are
 tasks; a model run watches them for a finite number of rounds, one `Tick` each, where the tick
 says what the termination channel held at the start of the round.
 */
module Scheduler {

  type U32 = x: int | 0 <= x < 0x1_0000_0000

  datatype ExecutionType = Infinite | Cycles(n: U32) | OneShot

  datatype Task = Task(id: nat, kind: ExecutionType)

  /** What polling the termination receiver gave; `Quiet` also stands for having no receiver. */
  datatype Tick = Quiet | Signalled | Disconnected

  predicate Terminates(t: Tick) {
    t != Quiet
  }

  datatype Ending = Done | StillRunning | Failed(id: nat) | NoFrequencyPanic

  // --------------------------------------------------------------- retain

  /** `retain` with a parallel vector of removal flags. */
  function Keep<T>(xs: seq<T>, flags: seq<bool>): (r: seq<T>)
    requires |xs| == |flags|
    ensures |r| <= |xs|
  {
    if xs == [] then []
    else Keep(xs[..|xs| - 1], flags[..|flags| - 1]) + if flags[|flags| - 1] then [] else [xs[|xs| - 1]]
  }

  method Retain<T>(xs: seq<T>, flags: seq<bool>) returns (r: seq<T>)
    requires |xs| == |flags|
    ensures r == Keep(xs, flags)
  {
    r := [];
    for i := 0 to |xs|
      invariant r == Keep(xs[..i], flags[..i])
    {
      assert xs[..i + 1][..i] == xs[..i] && flags[..i + 1][..i] == flags[..i];
      if !flags[i] {
        r := r + [xs[i]];
      }
    }
    assert xs[..|xs|] == xs && flags[..|flags|] == flags;
  }

  function Zip<A, B>(xs: seq<A>, ys: seq<B>): seq<(A, B)>
    requires |xs| == |ys|
  {
    seq(|xs|, i requires 0 <= i < |xs| => (xs[i], ys[i]))
  }

  /** Compacting two vectors with the same flags keeps the entries that belong together together. */
  lemma {:induction false} LockstepCompaction<A, B>(xs: seq<A>, ys: seq<B>, flags: seq<bool>)
    requires |xs| == |ys| == |flags|
    ensures |Keep(xs, flags)| == |Keep(ys, flags)|
    ensures Zip(Keep(xs, flags), Keep(ys, flags)) == Keep(Zip(xs, ys), flags)
  {
    if xs != [] {
      var n := |xs| - 1;
      LockstepCompaction(xs[..n], ys[..n], flags[..n]);
      assert Zip(xs, ys)[..n] == Zip(xs[..n], ys[..n]);
      assert Zip(xs, ys)[n] == (xs[n], ys[n]);
    }
  }

  // -------------------------------------------------------- specification

  /** How many rounds a cycle count stands for: it is compared after it was advanced, so zero is a wrap. */
  function Rounds(n: U32): (r: nat)
    ensures r > 0 && r % 0x1_0000_0000 == n
  {
    if n == 0 then 0x1_0000_0000 else n
  }

  /** Whether a task is still scheduled in round `r`, counting from 0. */
  predicate Scheduled(kind: ExecutionType, r: nat) {
    match kind
    case Infinite => true
    case OneShot => r < 1
    case Cycles(n) => r < Rounds(n)
  }

  function AliveAt(tasks: seq<Task>, r: nat): (alive: seq<Task>)
    ensures forall i | 0 <= i < |alive| :: Scheduled(alive[i].kind, r)
  {
    if tasks == [] then []
    else AliveAt(tasks[..|tasks| - 1], r) + if Scheduled(tasks[|tasks| - 1].kind, r) then [tasks[|tasks| - 1]] else []
  }

  function Ids(tasks: seq<Task>): (r: seq<nat>)
    ensures |r| == |tasks| && forall i | 0 <= i < |tasks| :: r[i] == tasks[i].id
  {
    seq(|tasks|, i requires 0 <= i < |tasks| => tasks[i].id)
  }

  /** The cycle counts at the start of round `r`. */
  function CountsAt(alive: seq<Task>, r: nat): (c: seq<U32>)
    ensures |c| == |alive| && forall i | 0 <= i < |c| :: c[i] == if alive[i].kind.Cycles? then Wrapped(r) else 0
  {
    seq(|alive|, i requires 0 <= i < |alive| => if alive[i].kind.Cycles? then Wrapped(r) else 0)
  }

  function Wrapped(r: nat): U32 {
    r % 0x1_0000_0000
  }

  /** Advancing a wrapping count reaches `n` exactly at the end of the last round. */
  lemma AdvanceWrapped(n: U32, r: nat)
    requires r < Rounds(n)
    ensures Wrapped(Wrapped(r) + 1) == Wrapped(r + 1)
    ensures Wrapped(r + 1) == n <==> r + 1 == Rounds(n)
  {
  }

  /** The flags at the end of round `r`. */
  function FlagsAfter(alive: seq<Task>, r: nat, terminated: bool): (f: seq<bool>)
    ensures |f| == |alive| && forall i | 0 <= i < |f| :: f[i] == (terminated || !Scheduled(alive[i].kind, r + 1))
  {
    seq(|alive|, i requires 0 <= i < |alive| => terminated || !Scheduled(alive[i].kind, r + 1))
  }

  lemma {:induction false} AliveNext(tasks: seq<Task>, r: nat)
    ensures Keep(AliveAt(tasks, r), FlagsAfter(AliveAt(tasks, r), r, false)) == AliveAt(tasks, r + 1)
  {
    if tasks != [] {
      var init, last := tasks[..|tasks| - 1], tasks[|tasks| - 1];
      AliveNext(init, r);
      var alive, before := AliveAt(tasks, r), AliveAt(init, r);
      if Scheduled(last.kind, r) {
        assert alive[..|alive| - 1] == before;
        var flags := FlagsAfter(alive, r, false);
        assert flags[..|flags| - 1] == FlagsAfter(before, r, false);
      } else {
        assert alive == before;
      }
    }
  }

  lemma {:induction false} KeepNone<T>(xs: seq<T>, flags: seq<bool>)
    requires |xs| == |flags| && forall i | 0 <= i < |flags| :: flags[i]
    ensures Keep(xs, flags) == []
  {
    if xs != [] {
      KeepNone(xs[..|xs| - 1], flags[..|flags| - 1]);
    }
  }

  lemma {:induction false} KeepCounts(alive: seq<Task>, r: nat, flags: seq<bool>)
    requires |alive| == |flags|
    ensures Keep(CountsAt(alive, r), flags) == CountsAt(Keep(alive, flags), r)
  {
    if alive != [] {
      var n := |alive| - 1;
      KeepCounts(alive[..n], r, flags[..n]);
      assert CountsAt(alive, r)[..n] == CountsAt(alive[..n], r);
      assert CountsAt(Keep(alive, flags), r) ==
        CountsAt(Keep(alive[..n], flags[..n]), r) + if flags[n] then [] else [CountsAt(alive, r)[n]];
    }
  }

  lemma {:induction false} KeepFlags(flags: seq<bool>)
    ensures forall i | 0 <= i < |Keep(flags, flags)| :: !Keep(flags, flags)[i]
    ensures forall xs: seq<Task> | |xs| == |flags| :: |Keep(xs, flags)| == |Keep(flags, flags)|
  {
    if flags != [] {
      KeepFlags(flags[..|flags| - 1]);
    }
    forall xs: seq<Task> | |xs| == |flags| ensures |Keep(xs, flags)| == |Keep(flags, flags)| {
      LockstepCompaction(xs, flags, flags);
    }
  }

  // ------------------------------------------------------------- one round

  /** Run every task once, in order, keeping count and flagging those that are through. */
  method RunAll(tasks: seq<Task>, counts: seq<U32>, flags: seq<bool>, ghost r: nat, fails: nat -> bool)
    returns (ran: seq<nat>, counts': seq<U32>, flags': seq<bool>, error: bool)
    requires counts == CountsAt(tasks, r) && |flags| == |tasks|
    requires forall i | 0 <= i < |tasks| :: Scheduled(tasks[i].kind, r)
    ensures ran <= Ids(tasks)
    ensures !error ==> ran == Ids(tasks) && forall i | 0 <= i < |tasks| :: !fails(tasks[i].id)
    ensures error ==> ran != [] && fails(ran[|ran| - 1]) && forall i | 0 <= i < |ran| - 1 :: !fails(ran[i])
    ensures !error ==> counts' == CountsAt(tasks, r + 1)
    ensures !error ==> |flags'| == |flags|
    ensures !error ==> forall i | 0 <= i < |flags| :: flags'[i] == (flags[i] || !Scheduled(tasks[i].kind, r + 1))
  {
    ran, counts', flags', error := [], counts, flags, false;
    for idx := 0 to |tasks|
      invariant ran == Ids(tasks)[..idx] && !error
      invariant forall i | 0 <= i < idx :: !fails(tasks[i].id)
      invariant |counts'| == |tasks| && |flags'| == |tasks|
      invariant forall i | 0 <= i < idx :: counts'[i] == if tasks[i].kind.Cycles? then Wrapped(r + 1) else 0
      invariant forall i | idx <= i < |tasks| :: counts'[i] == counts[i] && flags'[i] == flags[i]
      invariant forall i | 0 <= i < idx :: flags'[i] == (flags[i] || !Scheduled(tasks[i].kind, r + 1))
    {
      ran := ran + [tasks[idx].id];
      if fails(tasks[idx].id) {
        error := true;
        return;
      }
      match tasks[idx].kind {
        case OneShot =>
          flags' := flags'[idx := true];
        case Infinite =>
        case Cycles(n) =>
          AdvanceWrapped(n, r);
          var count: nat := counts'[idx];
          counts' := counts'[idx := Wrapped(count + 1)];
          if counts'[idx] == n {
            flags' := flags'[idx := true];
          }
      }
    }
    assert counts' == CountsAt(tasks, r + 1);
  }

  /** Round `r` ran every task still scheduled once, in order, and none of them failed. */
  ghost predicate FullRound(tasks: seq<Task>, fails: (nat, nat) -> bool, round: seq<nat>, r: nat) {
    round == Ids(AliveAt(tasks, r)) && forall id | id in round :: !fails(r, id)
  }

  /** The round broke off at the first task that failed. */
  ghost predicate FailedRound(all: seq<nat>, fails: (nat, nat) -> bool, ran: seq<nat>, r: nat) {
    ran != [] && ran <= all && fails(r, ran[|ran| - 1]) && forall i | 0 <= i < |ran| - 1 :: !fails(r, ran[i])
  }

  /** One pass of the loop body: flag everything on a signal, run everything, compact. */
  method Round(ghost tasks: seq<Task>, vec: seq<Task>, counts: seq<U32>, flags: seq<bool>, r: nat, tick: Tick,
               fails: (nat, nat) -> bool)
    returns (ran: seq<nat>, vec': seq<Task>, counts': seq<U32>, flags': seq<bool>, error: bool)
    requires vec == AliveAt(tasks, r) && counts == CountsAt(vec, r)
    requires |flags| == |vec| && forall i | 0 <= i < |flags| :: !flags[i]
    ensures error ==> FailedRound(Ids(vec), fails, ran, r)
    ensures !error ==> FullRound(tasks, fails, ran, r)
    ensures !error ==> vec' == if tick == Quiet then AliveAt(tasks, r + 1) else []
    ensures !error ==> counts' == CountsAt(vec', r + 1)
    ensures !error ==> |flags'| == |vec'| && forall i | 0 <= i < |flags'| :: !flags'[i]
  {
    var marked := flags;
    if Terminates(tick) {
      marked := seq(|flags|, _ => true);
    }
    ran, counts', flags', error := RunAll(vec, counts, marked, r, (id: nat) => fails(r, id));
    vec' := vec;
    if error {
      return;
    }
    assert flags' == FlagsAfter(vec, r, Terminates(tick));
    KeepCounts(vec, r + 1, flags');
    KeepFlags(flags');
    if Terminates(tick) {
      KeepNone(vec, flags');
    } else {
      AliveNext(tasks, r);
    }
    vec' := Retain(vec, flags');
    counts' := Retain(counts', flags');
    flags' := Retain(flags', flags');
  }

  // -------------------------------------------------------------- the loop

  /** The loop goes on after round `r`. */
  predicate GoesOn(tasks: seq<Task>, ticks: seq<Tick>, r: nat)
    requires r < |ticks|
  {
    !Terminates(ticks[r]) && AliveAt(tasks, r + 1) != []
  }

  /** What a run of the multi-task scheduler looks like from outside. */
  ghost predicate IsRun(tasks: seq<Task>, hasFrequency: bool, ticks: seq<Tick>, fails: (nat, nat) -> bool,
                        ran: seq<seq<nat>>, end: Ending)
  {
    && |ran| <= |ticks| && (|ran| > 1 ==> hasFrequency)
    && (forall r | 0 <= r < |ran| - 1 :: FullRound(tasks, fails, ran[r], r) && GoesOn(tasks, ticks, r))
    && match end
       case Done => |ran| > 0 && FullRound(tasks, fails, ran[|ran| - 1], |ran| - 1) && !GoesOn(tasks, ticks, |ran| - 1)
       case NoFrequencyPanic =>
         !hasFrequency && |ran| == 1 && FullRound(tasks, fails, ran[0], 0) && GoesOn(tasks, ticks, 0)
       case StillRunning =>
         |ran| == |ticks| && (ran != [] ==>
           hasFrequency && FullRound(tasks, fails, ran[|ran| - 1], |ran| - 1) && GoesOn(tasks, ticks, |ran| - 1))
       case Failed(id) =>
         && |ran| > 0 && FailedRound(Ids(AliveAt(tasks, |ran| - 1)), fails, ran[|ran| - 1], |ran| - 1)
         && id == ran[|ran| - 1][|ran[|ran| - 1]| - 1]
  }

  /** All rounds so far were full ones after which the loop went on. */
  ghost predicate UpTo(tasks: seq<Task>, ticks: seq<Tick>, fails: (nat, nat) -> bool, ran: seq<seq<nat>>) {
    |ran| <= |ticks| && forall r | 0 <= r < |ran| :: FullRound(tasks, fails, ran[r], r) && GoesOn(tasks, ticks, r)
  }

  lemma UpToExtends(tasks: seq<Task>, ticks: seq<Tick>, fails: (nat, nat) -> bool, ran: seq<seq<nat>>, now: seq<nat>)
    requires UpTo(tasks, ticks, fails, ran) && |ran| < |ticks| && FullRound(tasks, fails, now, |ran|)
    ensures GoesOn(tasks, ticks, |ran|) ==> UpTo(tasks, ticks, fails, ran + [now])
    ensures GoesOn(tasks, ticks, |ran|) && ran == [] ==>
      IsRun(tasks, false, ticks, fails, ran + [now], NoFrequencyPanic)
    ensures !GoesOn(tasks, ticks, |ran|) ==>
      forall f | |ran| > 0 ==> f :: IsRun(tasks, f, ticks, fails, ran + [now], Done)
  {
    hide FullRound, GoesOn;
    var next := ran + [now];
    assert forall r | 0 <= r < |ran| :: next[r] == ran[r];
  }

  lemma FailureConcludes(tasks: seq<Task>, hasFrequency: bool, ticks: seq<Tick>, fails: (nat, nat) -> bool,
                         ran: seq<seq<nat>>, now: seq<nat>)
    requires UpTo(tasks, ticks, fails, ran) && |ran| < |ticks| && now != [] && (|ran| > 0 ==> hasFrequency)
    requires FailedRound(Ids(AliveAt(tasks, |ran|)), fails, now, |ran|)
    ensures IsRun(tasks, hasFrequency, ticks, fails, ran + [now], Failed(now[|now| - 1]))
  {
    hide FullRound, GoesOn, AliveAt, Ids;
    var next := ran + [now];
    assert forall r | 0 <= r < |ran| :: next[r] == ran[r];
  }

  /** `exec_sched_multi`. */
  method ExecSchedMulti(tasks: seq<Task>, hasFrequency: bool, ticks: seq<Tick>, fails: (nat, nat) -> bool)
    returns (ran: seq<seq<nat>>, end: Ending)
    ensures IsRun(tasks, hasFrequency, ticks, fails, ran, end)
  {
    var vec := tasks;
    var counts: seq<U32> := seq(|tasks|, _ => 0);
    var flags := seq(|tasks|, _ => false);
    AllAliveAtStart(tasks);
    assert counts == CountsAt(vec, 0);
    ran := [];
    for r := 0 to |ticks|
      invariant |ran| == r
      invariant vec == AliveAt(tasks, r) && counts == CountsAt(vec, r)
      invariant |flags| == |vec| && forall i | 0 <= i < |flags| :: !flags[i]
      invariant UpTo(tasks, ticks, fails, ran)
      invariant r > 0 ==> hasFrequency
    {
      hide AliveAt, Ids, CountsAt, FullRound, IsRun, UpTo;
      var now, error;
      now, vec, counts, flags, error := Round(tasks, vec, counts, flags, r, ticks[r], fails);
      if error {
        FailureConcludes(tasks, hasFrequency, ticks, fails, ran, now);
        return ran + [now], Failed(now[|now| - 1]);
      }
      UpToExtends(tasks, ticks, fails, ran, now);
      ran := ran + [now];
      if |vec| == 0 {
        return ran, Done;
      }
      if !hasFrequency {
        return ran, NoFrequencyPanic;
      }
    }
    return ran, StillRunning;
  }

  lemma {:induction false} AllAliveAtStart(tasks: seq<Task>)
    ensures AliveAt(tasks, 0) == tasks
  {
    if tasks != [] {
      AllAliveAtStart(tasks[..|tasks| - 1]);
    }
  }

  // ------------------------------------------------------ exact run counts

  /** How often a task has run. */
  function TimesRun(ran: seq<seq<nat>>, id: nat): nat {
    if ran == [] then 0 else TimesRun(ran[..|ran| - 1], id) + multiset(ran[|ran| - 1])[id]
  }

  /** How many rounds a task stays scheduled; `limit` if it would stay longer. */
  function Lifetime(kind: ExecutionType, limit: nat): nat {
    match kind
    case Infinite => limit
    case OneShot => if limit < 1 then limit else 1
    case Cycles(n) => if limit < Rounds(n) then limit else Rounds(n)
  }

  ghost predicate DistinctIds(tasks: seq<Task>) {
    forall i, j | 0 <= i < j < |tasks| :: tasks[i].id != tasks[j].id
  }

  lemma {:induction false} RunsInRound(tasks: seq<Task>, k: nat, r: nat)
    requires DistinctIds(tasks) && k < |tasks|
    ensures multiset(Ids(AliveAt(tasks, r)))[tasks[k].id] == if Scheduled(tasks[k].kind, r) then 1 else 0
    decreases |tasks|
  {
    var init, last := tasks[..|tasks| - 1], tasks[|tasks| - 1];
    assert Ids(AliveAt(tasks, r)) == Ids(AliveAt(init, r)) + if Scheduled(last.kind, r) then [last.id] else [];
    if k < |init| {
      RunsInRound(init, k, r);
      assert init[k] == tasks[k];
    } else {
      NotInRound(init, last.id, r);
    }
  }

  lemma {:induction false} NotInRound(tasks: seq<Task>, id: nat, r: nat)
    requires forall i | 0 <= i < |tasks| :: tasks[i].id != id
    ensures multiset(Ids(AliveAt(tasks, r)))[id] == 0
  {
    if tasks != [] {
      var init, last := tasks[..|tasks| - 1], tasks[|tasks| - 1];
      NotInRound(init, id, r);
      assert Ids(AliveAt(tasks, r)) == Ids(AliveAt(init, r)) + if Scheduled(last.kind, r) then [last.id] else [];
    }
  }

  lemma {:induction false} TimesRunIsLifetime(tasks: seq<Task>, k: nat, ran: seq<seq<nat>>)
    requires DistinctIds(tasks) && k < |tasks|
    requires forall r | 0 <= r < |ran| :: ran[r] == Ids(AliveAt(tasks, r))
    ensures TimesRun(ran, tasks[k].id) == Lifetime(tasks[k].kind, |ran|)
    decreases |ran|
  {
    if ran != [] {
      TimesRunIsLifetime(tasks, k, ran[..|ran| - 1]);
      RunsInRound(tasks, k, |ran| - 1);
    }
  }

  /** The round after which nothing is left: the largest cycle count, at least one. */
  function LastRound(tasks: seq<Task>): nat {
    if tasks == [] then 1
    else
      var rest := LastRound(tasks[..|tasks| - 1]);
      var kind := tasks[|tasks| - 1].kind;
      if kind.Cycles? && Rounds(kind.n) > rest then Rounds(kind.n) else rest
  }

  predicate Finite(tasks: seq<Task>) {
    forall i | 0 <= i < |tasks| :: !tasks[i].kind.Infinite?
  }

  lemma {:induction false} NothingAliveIff(tasks: seq<Task>, r: nat)
    requires Finite(tasks) && r >= 1
    ensures AliveAt(tasks, r) == [] <==> r >= LastRound(tasks)
    ensures LastRound(tasks) >= 1
  {
    if tasks != [] {
      NothingAliveIff(tasks[..|tasks| - 1], r);
    }
  }

  lemma AllRoundsFull(tasks: seq<Task>, hasFrequency: bool, ticks: seq<Tick>, fails: (nat, nat) -> bool,
                      ran: seq<seq<nat>>, end: Ending)
    requires IsRun(tasks, hasFrequency, ticks, fails, ran, end) && forall r, id :: !fails(r, id)
    ensures forall r | 0 <= r < |ran| :: ran[r] == Ids(AliveAt(tasks, r))
  {
    hide AliveAt, Ids, GoesOn;
    forall r | 0 <= r < |ran| ensures ran[r] == Ids(AliveAt(tasks, r)) {
      assert FullRound(tasks, fails, ran[r], r);
    }
  }

  /**
   In every run without a failing task, whatever the mix of tasks and whatever ends it, each task
   ran exactly as many rounds as it was due, in consecutive rounds from the first on: an infinite
   task in all of them, a one-shot task in one, a task with cycles in that many.
   */
  lemma TasksRunExactly(tasks: seq<Task>, hasFrequency: bool, ticks: seq<Tick>, fails: (nat, nat) -> bool,
                        ran: seq<seq<nat>>, end: Ending, k: nat)
    requires IsRun(tasks, hasFrequency, ticks, fails, ran, end) && DistinctIds(tasks) && k < |tasks|
    requires forall r, id :: !fails(r, id)
    ensures TimesRun(ran, tasks[k].id) == Lifetime(tasks[k].kind, |ran|)
    ensures forall r | 0 <= r < |ran| :: tasks[k].id in ran[r] <==> Scheduled(tasks[k].kind, r)
    ensures forall r | 0 <= r < |ran| :: multiset(ran[r])[tasks[k].id] <= 1
  {
    hide IsRun, AliveAt, Ids, TimesRun, Scheduled, DistinctIds;
    AllRoundsFull(tasks, hasFrequency, ticks, fails, ran, end);
    TimesRunIsLifetime(tasks, k, ran);
    forall r | 0 <= r < |ran|
      ensures tasks[k].id in ran[r] <==> Scheduled(tasks[k].kind, r)
      ensures multiset(ran[r])[tasks[k].id] <= 1
    {
      RunsInRound(tasks, k, r);
      assert tasks[k].id in ran[r] <==> tasks[k].id in multiset(ran[r]);
    }
  }

  /**
   With a frequency, no failing task, no signal and no infinite task, the loop ends by itself after
   the largest count, so one-shot tasks run once and tasks with `n` cycles exactly `n` times (2^32
   times for zero).
   */
  lemma FiniteTasksRunExactly(tasks: seq<Task>, ticks: seq<Tick>, fails: (nat, nat) -> bool, ran: seq<seq<nat>>,
                              end: Ending, k: nat)
    requires IsRun(tasks, true, ticks, fails, ran, end) && DistinctIds(tasks) && Finite(tasks) && k < |tasks|
    requires forall r, id :: !fails(r, id)
    requires forall r | 0 <= r < |ticks| :: ticks[r] == Quiet
    requires |ticks| >= LastRound(tasks)
    ensures end == Done && |ran| == LastRound(tasks)
    ensures TimesRun(ran, tasks[k].id) == if tasks[k].kind.OneShot? then 1 else Rounds(tasks[k].kind.n)
  {
    AtMostLast(tasks, k);
    EndsAfterLastRound(tasks, ticks, fails, ran, end);
    TasksRunExactly(tasks, true, ticks, fails, ran, end, k);
  }

  /** The loop ends by itself exactly if no task is infinite: with one, it goes on for as long as it is watched. */
  lemma InfiniteTaskKeepsRunning(tasks: seq<Task>, ticks: seq<Tick>, fails: (nat, nat) -> bool, ran: seq<seq<nat>>,
                                 end: Ending)
    requires IsRun(tasks, true, ticks, fails, ran, end) && !Finite(tasks)
    requires forall r, id :: !fails(r, id)
    requires forall r | 0 <= r < |ticks| :: ticks[r] == Quiet
    ensures end == StillRunning && |ran| == |ticks|
  {
    if ran != [] {
      InfiniteStaysAlive(tasks, |ran|);
    }
  }

  lemma {:induction false} InfiniteStaysAlive(tasks: seq<Task>, r: nat)
    requires !Finite(tasks)
    ensures AliveAt(tasks, r) != []
  {
    if !tasks[|tasks| - 1].kind.Infinite? {
      InfiniteStaysAlive(tasks[..|tasks| - 1], r);
    }
  }

  lemma EndsAfterLastRound(tasks: seq<Task>, ticks: seq<Tick>, fails: (nat, nat) -> bool, ran: seq<seq<nat>>,
                           end: Ending)
    requires IsRun(tasks, true, ticks, fails, ran, end) && Finite(tasks)
    requires forall r, id :: !fails(r, id)
    requires forall r | 0 <= r < |ticks| :: ticks[r] == Quiet
    requires |ticks| >= LastRound(tasks)
    ensures end == Done && |ran| == LastRound(tasks)
    ensures forall r | 0 <= r < |ran| :: FullRound(tasks, fails, ran[r], r)
  {
    hide AliveAt, Ids, LastRound;
    LastRoundPositive(tasks);
    NothingAliveIff(tasks, |ticks|);
    if |ran| > 1 {
      assert GoesOn(tasks, ticks, |ran| - 2);
      NothingAliveIff(tasks, |ran| - 1);
    }
    if ran != [] {
      NothingAliveIff(tasks, |ran|);
    }
  }

  lemma {:induction false} AtMostLast(tasks: seq<Task>, k: nat)
    requires k < |tasks|
    ensures tasks[k].kind.Cycles? ==> Rounds(tasks[k].kind.n) <= LastRound(tasks)
    ensures LastRound(tasks) >= 1
    decreases |tasks|
  {
    if k < |tasks| - 1 {
      AtMostLast(tasks[..|tasks| - 1], k);
    } else {
      LastRoundPositive(tasks[..|tasks| - 1]);
    }
  }

  lemma {:induction false} LastRoundPositive(tasks: seq<Task>)
    ensures LastRound(tasks) >= 1
  {
    if tasks != [] {
      LastRoundPositive(tasks[..|tasks| - 1]);
    }
  }

  /** The task runs once and is then done with. */
  predicate SingleRound(kind: ExecutionType) {
    kind == OneShot || kind == Cycles(1)
  }

  lemma {:induction false} AliveAfterFirst(tasks: seq<Task>)
    ensures AliveAt(tasks, 1) == [] <==> forall i | 0 <= i < |tasks| :: SingleRound(tasks[i].kind)
  {
    if tasks != [] {
      AliveAfterFirst(tasks[..|tasks| - 1]);
      assert forall i | 0 <= i < |tasks| - 1 :: tasks[i] == tasks[..|tasks| - 1][i];
    }
  }

  /**
   Without a frequency the loop makes one round, and then panics exactly if there was no signal and
   some task is to run again.
   */
  lemma PanicsWithoutFrequencyIff(tasks: seq<Task>, ticks: seq<Tick>, fails: (nat, nat) -> bool, ran: seq<seq<nat>>,
                                  end: Ending)
    requires IsRun(tasks, false, ticks, fails, ran, end) && (forall r, id :: !fails(r, id)) && ticks != []
    ensures |ran| == 1 && (end == NoFrequencyPanic || end == Done)
    ensures end == NoFrequencyPanic <==>
      ticks[0] == Quiet && exists i :: 0 <= i < |tasks| && !SingleRound(tasks[i].kind)
  {
    AliveAfterFirst(tasks);
  }

  /**
   A termination signal in round `t` ends the loop in that round, after one last run of exactly
   the tasks that were still scheduled.
   */
  lemma SignalGivesOneLastRun(tasks: seq<Task>, ticks: seq<Tick>, fails: (nat, nat) -> bool, ran: seq<seq<nat>>,
                              end: Ending, t: nat)
    requires IsRun(tasks, true, ticks, fails, ran, end) && (forall r, id :: !fails(r, id))
    requires t < |ticks| && (ticks[t] == Signalled || ticks[t] == Disconnected)
    ensures |ran| <= t + 1
    ensures |ran| == t + 1 ==> end == Done && ran[t] == Ids(AliveAt(tasks, t))
    ensures |ran| <= t ==>
      end == Done && |ran| > 0 && (AliveAt(tasks, |ran|) == [] || ticks[|ran| - 1] != Quiet)
  {
    assert |ran| > t + 1 ==> GoesOn(tasks, ticks, t);
  }

  // ------------------------------------------------------ the single task

  /** `exec_sched_single`: here a signal ends the loop before the task runs again. */
  method ExecSchedSingle(kind: ExecutionType, ticks: seq<Tick>, fails: nat -> bool) returns (runs: nat, end: Ending)
    ensures runs <= Lifetime(kind, |ticks|)
    ensures forall r | 0 <= r < runs - 1 :: !fails(r)
    ensures end.Failed? <==> runs > 0 && fails(runs - 1)
    ensures !end.Failed? && (forall r | 0 <= r < |ticks| :: ticks[r] == Quiet) ==> runs == Lifetime(kind, |ticks|)
    ensures !end.Failed? && runs < Lifetime(kind, |ticks|) ==> ticks[runs] != Quiet && end == Done
    ensures forall r | 0 <= r < runs :: ticks[r] == Quiet
    ensures !end.Failed? ==> (end == Done <==> (runs < |ticks| && ticks[runs] != Quiet) || !Scheduled(kind, runs))
    ensures end != NoFrequencyPanic
  {
    runs := 0;
    var cycleCount: U32 := 0;
    for r := 0 to |ticks|
      invariant runs == r && (kind.Cycles? ==> cycleCount == Wrapped(r))
      invariant r > 0 ==> !kind.OneShot? && (kind.Cycles? ==> r < Rounds(kind.n))
      invariant forall q | 0 <= q < r :: !fails(q) && !Terminates(ticks[q])
    {
      if Terminates(ticks[r]) {
        return runs, Done;
      }
      runs := runs + 1;
      if fails(r) {
        return runs, Failed(0);
      }
      match kind {
        case OneShot => return runs, Done;
        case Infinite =>
        case Cycles(n) =>
          AdvanceWrapped(n, r);
          cycleCount := Wrapped(cycleCount + 1);
          if cycleCount == n {
            return runs, Done;
          }
      }
    }
    return runs, StillRunning;
  }
}
