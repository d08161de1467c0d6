/** Progress of the major frame switch: if all CPUs keep taking steps and every
    major frame ends for each of them, every wait at the barrier is completed. */
module MajorFrameProgress {
  import opened MajorFrame

  type Schedule = seq<(nat, Input)>

  // ----- the accesses left before the next release -----

  const MAX_RANK: nat := 10

  /** A bound on the accesses of a CPU before it waits for the others. */
  function Rank(cpu: Cpu, released: nat): (r: nat)
    ensures r <= MAX_RANK
  {
    match cpu.pc
    case Spin(_, _) => if cpu.passed == released then 0 else MAX_RANK
    case GetTau0 => 9
    case GetStart(_) => 8
    case SetId(_, _) => 7
    case SetStart(_) => 6
    case Running => 6
    case SaveStart => 5
    case ReadSense(_) => 4
    case Arrive(_, _) => 3
    case ClearCount(_, _) => 2
    case FlipSense(_, _) => 1
  }

  function Total(cpus: seq<Cpu>, released: nat): (r: nat)
    ensures r <= MAX_RANK * |cpus|
  {
    if cpus == [] then 0
    else Total(cpus[..|cpus| - 1], released) + Rank(cpus[|cpus| - 1], released)
  }

  lemma {:induction false} TotalUpdate(cpus: seq<Cpu>, c: nat, cpu: Cpu, released: nat)
    requires c < |cpus|
    ensures Total(cpus[c := cpu], released)
      == Total(cpus, released) + Rank(cpu, released) - Rank(cpus[c], released)
    decreases |cpus|
  {
    hide Rank;
    var n := |cpus| - 1;
    if c == n {
      assert cpus[c := cpu][..n] == cpus[..n];
    } else {
      TotalUpdate(cpus[..n], c, cpu, released);
      assert cpus[c := cpu][..n] == cpus[..n][c := cpu];
    }
  }

  /** Until the next release no step adds to the accesses left, and every move of
      a CPU that does not wait takes one away. */
  lemma StepRank(period: Id -> nat, s: Kernel, c: nat, input: Input)
    requires c < |s.cpus| && CpuInv(s, c)
    ensures var t := Next(period, s, c, input);
      && |t.cpus| == |s.cpus| && t.cpus == s.cpus[c := t.cpus[c]] && s.released <= t.released
      && (t.released == s.released ==>
            && Rank(t.cpus[c], s.released) <= Rank(s.cpus[c], s.released)
            && (input.access.Expire? && Rank(s.cpus[c], s.released) > 0 ==>
                  Rank(t.cpus[c], s.released) < Rank(s.cpus[c], s.released)))
  {
    assert Next(period, s, c, input).cpus == s.cpus[c := Next(period, s, c, input).cpus[c]];
  }

  /** In every state some CPU has accesses left. */
  lemma SomeoneMoves(period: Id -> nat, s: Kernel) returns (c: nat)
    requires KernelInv(period, s)
    ensures c < |s.cpus| && Rank(s.cpus[c], s.released) > 0
  {
    if d :| 0 <= d < |s.cpus| && Rank(s.cpus[d], s.released) > 0 {
      c := d;
    } else {
      forall d | 0 <= d < |s.cpus| ensures HasArrived(s.cpus[d], s.released) {
        assert Rank(s.cpus[d], s.released) == 0;
      }
      EveryArrival(s.cpus, s.released);
      assert false;
    }
  }

  // ----- whole runs -----

  lemma {:induction false} RunTotal(period: Id -> nat, s: Kernel, schedule: Schedule)
    requires KernelInv(period, s)
    ensures var t := Run(period, s, schedule);
      && |t.cpus| == |s.cpus| && s.released <= t.released
      && (t.released == s.released ==> Total(t.cpus, s.released) <= Total(s.cpus, s.released))
    decreases |schedule|
  {
    if schedule != [] {
      var t := FirstStep(period, s, schedule);
      hide *;
      RunTotal(period, t, schedule[1..]);
    }
  }

  lemma FirstStep(period: Id -> nat, s: Kernel, schedule: Schedule) returns (t: Kernel)
    requires KernelInv(period, s) && schedule != []
    ensures KernelInv(period, t) && Run(period, s, schedule) == Run(period, t, schedule[1..])
    ensures t == Next(period, s, schedule[0].0, schedule[0].1)
    ensures |t.cpus| == |s.cpus| && s.released <= t.released
    ensures t.released == s.released ==> Total(t.cpus, s.released) <= Total(s.cpus, s.released)
  {
    var c, input := schedule[0].0, schedule[0].1;
    t := Next(period, s, c, input);
    StepKeepsInv(period, s, c, input);
    if c < |s.cpus| {
      assert CpuInv(s, c);
      StepRank(period, s, c, input);
      hide Next, KernelInv, CpuInv, Rank, Total, Run;
      TotalUpdate(s.cpus, c, t.cpus[c], s.released);
    }
  }

  /** CPU c moves at some point of the schedule, if it is running by ending its
      major frame. */
  ghost predicate Moves(schedule: Schedule, c: nat) {
    exists i :: 0 <= i < |schedule| && schedule[i].0 == c && schedule[i].1.access.Expire?
  }

  lemma {:induction false} RunMoves(period: Id -> nat, s: Kernel, schedule: Schedule, c: nat)
    requires KernelInv(period, s) && c < |s.cpus| && Rank(s.cpus[c], s.released) > 0 && Moves(schedule, c)
    ensures var t := Run(period, s, schedule);
      s.released < t.released || Total(t.cpus, s.released) < Total(s.cpus, s.released)
    decreases |schedule|
  {
    var t := FirstStep(period, s, schedule);
    RunTotal(period, t, schedule[1..]);
    if t.released == s.released && Total(t.cpus, s.released) == Total(s.cpus, s.released) {
      NotYet(period, s, schedule, c, t);
      hide *;
      RunMoves(period, t, schedule[1..], c);
    }
    hide *;
  }

  /** If the first step took no access away, CPU c still has its own ahead. */
  lemma NotYet(period: Id -> nat, s: Kernel, schedule: Schedule, c: nat, t: Kernel)
    requires KernelInv(period, s) && c < |s.cpus| && Rank(s.cpus[c], s.released) > 0 && Moves(schedule, c)
    requires schedule != [] && t == Next(period, s, schedule[0].0, schedule[0].1) && |t.cpus| == |s.cpus|
    requires t.released == s.released && Total(t.cpus, s.released) == Total(s.cpus, s.released)
    ensures Rank(t.cpus[c], t.released) > 0 && Moves(schedule[1..], c)
  {
    var d, input := schedule[0].0, schedule[0].1;
    if d < |s.cpus| {
      assert CpuInv(s, d);
      StepRank(period, s, d, input);
      hide Next, KernelInv, CpuInv, Rank, Total;
      TotalUpdate(s.cpus, d, t.cpus[d], s.released);
    }
    var i :| 0 <= i < |schedule| && schedule[i].0 == c && schedule[i].1.access.Expire?;
    assert i > 0;
    assert schedule[1..][i - 1] == schedule[i];
  }

  // ----- fair rounds -----

  /** A part of a schedule in which every one of n CPUs moves. A fair schedule,
      in which each CPU moves again and again, consists of such rounds. */
  ghost predicate Round(schedule: Schedule, n: nat) {
    forall c: nat :: c < n ==> Moves(schedule, c)
  }

  function RunRounds(period: Id -> nat, s: Kernel, rounds: seq<Schedule>): (t: Kernel)
    requires KernelInv(period, s)
    ensures KernelInv(period, t)
    decreases |rounds|
  {
    if rounds == [] then s else RunRounds(period, Run(period, s, rounds[0]), rounds[1..])
  }

  /** A round either releases the barrier or uses up one access. */
  lemma RoundProgresses(period: Id -> nat, s: Kernel, round: Schedule)
    requires KernelInv(period, s) && Round(round, |s.cpus|)
    ensures var t := Run(period, s, round);
      && |t.cpus| == |s.cpus| && s.released <= t.released
      && (s.released < t.released || Total(t.cpus, s.released) < Total(s.cpus, s.released))
  {
    var c := SomeoneMoves(period, s);
    RunTotal(period, s, round);
    RunMoves(period, s, round, c);
    hide *;
  }

  lemma FirstRound(period: Id -> nat, s: Kernel, rounds: seq<Schedule>)
    requires KernelInv(period, s) && rounds != []
    ensures RunRounds(period, s, rounds) == RunRounds(period, Run(period, s, rounds[0]), rounds[1..])
  {
    hide KernelInv, Run;
  }

  lemma {:induction false} RoundsProgress(period: Id -> nat, s: Kernel, rounds: seq<Schedule>)
    requires KernelInv(period, s) && forall i :: 0 <= i < |rounds| ==> Round(rounds[i], |s.cpus|)
    ensures var t := RunRounds(period, s, rounds);
      && |t.cpus| == |s.cpus| && s.released <= t.released
      && (s.released < t.released || Total(t.cpus, s.released) + |rounds| <= Total(s.cpus, s.released))
    decreases |rounds|
  {
    hide *;
    if rounds == [] {
      NoRounds(period, s);
    } else {
      FirstRound(period, s, rounds);
      RoundProgresses(period, s, rounds[0]);
      RoundsProgress(period, Run(period, s, rounds[0]), rounds[1..]);
    }
  }

  lemma {:induction false} RoundsSplit(period: Id -> nat, s: Kernel, a: seq<Schedule>, b: seq<Schedule>)
    requires KernelInv(period, s)
    ensures RunRounds(period, s, a + b) == RunRounds(period, RunRounds(period, s, a), b)
    decreases |a|
  {
    if a == [] {
      assert a + b == b;
    } else {
      assert (a + b)[0] == a[0] && (a + b)[1..] == a[1..] + b;
      var t := Run(period, s, a[0]);
      hide KernelInv, Run;
      RoundsSplit(period, t, a[1..], b);
    }
  }

  /** Enough rounds for one release with n CPUs. */
  function Enough(n: nat): nat {
    MAX_RANK * n + 1
  }

  /** Under a fair schedule the barrier is released again and again, and every
      CPU completes every wait: after enough rounds for k releases it has passed
      all waits released at the start and k - 1 more. */
  lemma {:induction false} EveryWaitCompletes(period: Id -> nat, s: Kernel, rounds: seq<Schedule>, k: nat)
    requires KernelInv(period, s) && |rounds| == k * Enough(|s.cpus|)
    requires forall i :: 0 <= i < |rounds| ==> Round(rounds[i], |s.cpus|)
    ensures var t := RunRounds(period, s, rounds);
      && |t.cpus| == |s.cpus| && t.released >= s.released + k
      && forall c :: 0 <= c < |t.cpus| ==> t.cpus[c].passed + 1 >= s.released + k
    decreases k
  {
    hide *;
    if k == 0 {
      assert |rounds| == 0 && rounds == [];
      NobodyLagsMore(period, s);
      NoRounds(period, s);
    } else {
      var m := Enough(|s.cpus|);
      LessRounds(k, m);
      var first, rest := rounds[..m], rounds[m..];
      assert rounds == first + rest;
      RoundsSplit(period, s, first, rest);
      RoundsProgress(period, s, first);
      EnoughRounds(s.cpus, s.released);
      EveryWaitCompletes(period, RunRounds(period, s, first), rest, k - 1);
    }
  }

  lemma LessRounds(k: nat, m: nat)
    requires k > 0
    ensures k * m == m + (k - 1) * m && m <= k * m
  {
    assert (k - 1) * m >= 0;
  }

  lemma EnoughRounds(cpus: seq<Cpu>, released: nat)
    ensures Total(cpus, released) < Enough(|cpus|)
  {
    hide Total;
  }

  lemma NoRounds(period: Id -> nat, s: Kernel)
    requires KernelInv(period, s)
    ensures RunRounds(period, s, []) == s
  {
    hide KernelInv;
  }

  lemma NobodyLagsMore(period: Id -> nat, s: Kernel)
    requires KernelInv(period, s)
    ensures forall c :: 0 <= c < |s.cpus| ==> s.cpus[c].passed + 1 >= s.released
  {
    hide BarrierInv, PublishInv, StartsInv, SeenInv;
    forall c | 0 <= c < |s.cpus| ensures s.cpus[c].passed + 1 >= s.released {
      assert CpuInv(s, c);
    }
  }
}

