/** The switch of major frames on N CPUs: two waits on the kernel's sense
    barrier, with the bootstrap processor (BSP) publishing the next major frame
    between them. Every shared access of every CPU is one step. */
module MajorFrame {

  const WORD64: nat := 0x1_0000_0000_0000_0000
  const BYTE: nat := 256

  type Id = nat

  /** A CPU's next shared access. A running CPU looks at the global variables any
      number of times; SaveStart is the last look before the waits. Wait 1 ends a
      major frame, wait 2 begins the next one; cpuSense is the sense that will
      release the CPU. */
  datatype PC =
    | Running
    | SaveStart
    | ReadSense(wait: nat)
    | Arrive(wait: nat, cpuSense: bool)
    | ClearCount(wait: nat, cpuSense: bool)
    | FlipSense(wait: nat, cpuSense: bool)
    | Spin(wait: nat, cpuSense: bool)
    | GetTau0
    | GetStart(next: Id)
    | SetId(next: Id, start: nat)
    | SetStart(start: nat)

  /** What a CPU saw of a global variable while running a major frame. */
  datatype Seen = SawId(frame: nat, id: Id) | SawStart(frame: nat, start: nat)

  /** passed counts the waits that a CPU has completed. */
  datatype Cpu = Cpu(pc: PC, passed: nat, current: Id, seen: seq<Seen>)

  /** The barrier, the two global variables, and as bookkeeping the number of
      times the barrier was released and all major frames published so far. */
  datatype Kernel = Kernel(
    cpus: seq<Cpu>, waitCount: nat, sense: bool,
    majorId: Id, majorStart: nat,
    released: nat, ids: seq<Id>, starts: seq<nat>)

  const BSP: nat := 0

  /** What a running CPU accesses next. Expire is the first access after the end
      of its major frame. */
  datatype Access = LookId | LookStart | Expire

  /** Environment of a step: the frame selected by Tau0, and the access of a
      running CPU. */
  datatype Input = Input(tau0: Id, access: Access)

  function Leave(c: nat, cpu: Cpu): Cpu {
    var pc :=
      if cpu.passed % 2 == 1 then Running
      else if c == BSP then GetTau0
      else ReadSense(2);
    cpu.(pc := pc, passed := cpu.passed + 1)
  }

  /** Cycle counts are 64 bits wide. */
  function After(start: nat, length: nat): nat {
    (start + length) % WORD64
  }

  /** One look at a global variable. */
  function Look(cpu: Cpu, access: Access, majorId: Id, majorStart: nat): Cpu {
    var frame := cpu.passed / 2;
    match access
    case LookId => cpu.(seen := cpu.seen + [SawId(frame, majorId)])
    case LookStart => cpu.(seen := cpu.seen + [SawStart(frame, majorStart)])
    case Expire => cpu.(seen := cpu.seen + [SawId(frame, majorId)], current := majorId, pc := SaveStart)
  }

  function SetCpu(s: Kernel, c: nat, cpu: Cpu): Kernel
    requires c < |s.cpus|
  {
    s.(cpus := s.cpus[c := cpu])
  }

  /** CPU c performs its next access. A CPU that still spins stays as it is. */
  function Next(period: Id -> nat, s: Kernel, c: nat, input: Input): Kernel {
    if c >= |s.cpus| then s else
    var cpu := s.cpus[c];
    match cpu.pc
    case Running => SetCpu(s, c, Look(cpu, input.access, s.majorId, s.majorStart))
    case SaveStart => SetCpu(s, c, Look(cpu, LookStart, s.majorId, s.majorStart).(pc := ReadSense(1)))
    case ReadSense(w) => SetCpu(s, c, cpu.(pc := Arrive(w, !s.sense)))
    case Arrive(w, cs) =>
      var t := s.(waitCount := (s.waitCount + 1) % BYTE);
      if s.waitCount + 1 == |s.cpus| then SetCpu(t, c, cpu.(pc := ClearCount(w, cs)))
      else SetCpu(t, c, cpu.(pc := Spin(w, cs)))
    case ClearCount(w, cs) => SetCpu(s.(waitCount := 0), c, cpu.(pc := FlipSense(w, cs)))
    case FlipSense(w, cs) =>
      SetCpu(s.(sense := cs, released := s.released + 1), c, Leave(c, cpu))
    case Spin(w, cs) => if s.sense == cs then SetCpu(s, c, Leave(c, cpu)) else s
    case GetTau0 => SetCpu(s, c, cpu.(pc := GetStart(input.tau0)))
    case GetStart(next) =>
      SetCpu(s, c, cpu.(pc := SetId(next, After(s.majorStart, period(cpu.current)))))
    case SetId(next, start) =>
      SetCpu(s.(majorId := next, ids := s.ids + [next]), c, cpu.(pc := SetStart(start)))
    case SetStart(start) =>
      SetCpu(s.(majorStart := start, starts := s.starts + [start]), c, cpu.(pc := ReadSense(2)))
  }

  // ----- the invariant -----

  /** At the current use of the barrier this CPU has been counted. */
  predicate HasArrived(cpu: Cpu, released: nat) {
    || cpu.pc.ClearCount? || cpu.pc.FlipSense?
    || (cpu.pc.Spin? && cpu.passed == released)
  }

  function Arrivals(cpus: seq<Cpu>, released: nat): (k: nat)
    ensures k <= |cpus|
  {
    if cpus == [] then 0
    else Arrivals(cpus[..|cpus| - 1], released)
         + if HasArrived(cpus[|cpus| - 1], released) then 1 else 0
  }

  predicate IsLast(cpu: Cpu) {
    cpu.pc.ClearCount? || cpu.pc.FlipSense?
  }

  /** Released from the previous use of the barrier but not yet gone. */
  predicate Lagging(cpu: Cpu, released: nat) {
    cpu.pc.Spin? && cpu.passed + 1 == released
  }

  ghost predicate CpuInv(s: Kernel, c: nat)
    requires c < |s.cpus|
  {
    var cpu := s.cpus[c];
    && (cpu.passed == s.released || Lagging(cpu, s.released))
    && (match cpu.pc
        case Running => cpu.passed % 2 == 0
        case SaveStart => cpu.passed % 2 == 0
        case ReadSense(w) => w == cpu.passed % 2 + 1
        case Arrive(w, cs) => w == cpu.passed % 2 + 1 && cs == !s.sense
        case ClearCount(w, cs) => w == cpu.passed % 2 + 1 && cs == !s.sense
        case FlipSense(w, cs) => w == cpu.passed % 2 + 1 && cs == !s.sense
        case Spin(w, cs) => w == cpu.passed % 2 + 1 && (cs == s.sense <==> Lagging(cpu, s.released))
        case _ => c == BSP && cpu.passed % 2 == 1)
  }

  ghost predicate SeenInv(s: Kernel) {
    forall c, k :: 0 <= c < |s.cpus| && 0 <= k < |s.cpus[c].seen| ==> Consistent(s, s.cpus[c].seen[k])
  }

  /** What was seen in a frame is what was published for that frame. */
  ghost predicate Consistent(s: Kernel, seen: Seen) {
    match seen
    case SawId(frame, id) => frame < |s.ids| && id == s.ids[frame]
    case SawStart(frame, start) => frame < |s.starts| && start == s.starts[frame]
  }

  /** How many frames the BSP has published, from its position alone. */
  ghost predicate PublishInv(s: Kernel)
    requires |s.cpus| > 0
  {
    var bsp := s.cpus[BSP];
    var frame := bsp.passed / 2;
    && |s.ids| > 0 && |s.starts| > 0
    && s.majorId == s.ids[|s.ids| - 1] && s.majorStart == s.starts[|s.starts| - 1]
    && (if bsp.passed % 2 == 0 then |s.ids| == |s.starts| == frame + 1
        else match bsp.pc
          case GetTau0 => |s.ids| == |s.starts| == frame + 1
          case GetStart(_) => |s.ids| == |s.starts| == frame + 1
          case SetId(_, _) => |s.ids| == |s.starts| == frame + 1
          case SetStart(_) => |s.starts| == frame + 1 && |s.ids| == frame + 2
          case _ => |s.ids| == |s.starts| == frame + 2)
    && (!bsp.pc.Running? ==> bsp.current == s.ids[frame])
  }

  /** The start that follows the last published one. */
  function NextStart(period: Id -> nat, s: Kernel): nat
    requires 0 < |s.starts| <= |s.ids|
  {
    After(s.starts[|s.starts| - 1], period(s.ids[|s.starts| - 1]))
  }

  /** Frame starts follow each other by the periods of the published frames, also
      the one that the BSP is about to publish. */
  ghost predicate StartsInv(period: Id -> nat, s: Kernel)
    requires |s.cpus| > 0
  {
    && (forall k :: 0 <= k && k + 1 < |s.starts| && k < |s.ids| ==>
         s.starts[k + 1] == After(s.starts[k], period(s.ids[k])))
    && match s.cpus[BSP].pc
       case SetId(_, start) => 0 < |s.starts| <= |s.ids| && start == NextStart(period, s)
       case SetStart(start) => 0 < |s.starts| <= |s.ids| && start == NextStart(period, s)
       case _ => true
  }

  ghost predicate BarrierInv(s: Kernel) {
    && (s.sense <==> s.released % 2 == 1)
    && (forall c, d ::
          0 <= c < |s.cpus| && 0 <= d < |s.cpus| && IsLast(s.cpus[c]) && IsLast(s.cpus[d])
          ==> c == d)
    && (if exists c :: 0 <= c < |s.cpus| && IsLast(s.cpus[c]) then
          && Arrivals(s.cpus, s.released) == |s.cpus|
          && (forall c :: 0 <= c < |s.cpus| && s.cpus[c].pc.FlipSense? ==> s.waitCount == 0)
        else
          s.waitCount == Arrivals(s.cpus, s.released) < |s.cpus|)
  }

  /** The byte-wide counter holds the number of CPUs. */
  ghost predicate KernelInv(period: Id -> nat, s: Kernel) {
    && 0 < |s.cpus| < BYTE
    && BarrierInv(s) && PublishInv(s) && StartsInv(period, s) && SeenInv(s)
    && forall c :: 0 <= c < |s.cpus| ==> CpuInv(s, c)
  }

  predicate Start(s: Kernel) {
    && 0 < |s.cpus| < BYTE
    && (forall c :: 0 <= c < |s.cpus| ==> s.cpus[c] == Cpu(Running, 0, s.cpus[c].current, []))
    && s.waitCount == 0 && !s.sense && s.released == 0
    && s.ids == [s.majorId] && s.starts == [s.majorStart]
  }

  // ----- counting -----

  lemma {:induction false} ArrivalsUpdate(cpus: seq<Cpu>, c: nat, cpu: Cpu, released: nat)
    requires c < |cpus|
    ensures Arrivals(cpus[c := cpu], released) == Arrivals(cpus, released)
      + (if HasArrived(cpu, released) then 1 else 0)
      - (if HasArrived(cpus[c], released) then 1 else 0)
    decreases |cpus|
  {
    var n := |cpus| - 1;
    if c == n {
      assert cpus[c := cpu][..n] == cpus[..n];
    } else {
      ArrivalsUpdate(cpus[..n], c, cpu, released);
      assert cpus[c := cpu][..n] == cpus[..n][c := cpu];
    }
  }

  lemma {:induction false} AllArrived(cpus: seq<Cpu>, released: nat, c: nat)
    requires Arrivals(cpus, released) == |cpus| && c < |cpus|
    ensures HasArrived(cpus[c], released)
    decreases |cpus|
  {
    if c < |cpus| - 1 {
      AllArrived(cpus[..|cpus| - 1], released, c);
    }
  }

  lemma {:induction false} EveryArrival(cpus: seq<Cpu>, released: nat)
    requires forall c :: 0 <= c < |cpus| ==> HasArrived(cpus[c], released)
    ensures Arrivals(cpus, released) == |cpus|
    decreases |cpus|
  {
    if cpus != [] {
      EveryArrival(cpus[..|cpus| - 1], released);
    }
  }

  lemma {:induction false} NoArrivals(cpus: seq<Cpu>, released: nat)
    requires forall c :: 0 <= c < |cpus| ==> !HasArrived(cpus[c], released)
    ensures Arrivals(cpus, released) == 0
    decreases |cpus|
  {
    if cpus != [] {
      NoArrivals(cpus[..|cpus| - 1], released);
    }
  }

  // ----- every step keeps the invariant -----

  /** A step of a CPU that the barrier does not count, before or after it. */
  lemma UncountedKeepsBarrier(s: Kernel, t: Kernel, c: nat, cpu: Cpu)
    requires BarrierInv(s) && c < |s.cpus| && t.cpus == s.cpus[c := cpu]
    requires !HasArrived(s.cpus[c], s.released) && !HasArrived(cpu, s.released)
    requires t.waitCount == s.waitCount && t.sense == s.sense && t.released == s.released
    ensures BarrierInv(t)
  {
    ArrivalsUpdate(s.cpus, c, cpu, s.released);
    if d :| 0 <= d < |s.cpus| && IsLast(s.cpus[d]) {
      AllArrived(s.cpus, s.released, c);
    }
  }

  lemma ArriveKeepsBarrier(period: Id -> nat, s: Kernel, c: nat, input: Input)
    requires BarrierInv(s) && 0 < |s.cpus| < BYTE && c < |s.cpus|
    requires s.cpus[c].pc.Arrive? && s.cpus[c].passed == s.released
    ensures BarrierInv(Next(period, s, c, input))
  {
    NobodyIsLast(s, c);
    var t := Next(period, s, c, input);
    var cpu := t.cpus[c];
    assert t.cpus == s.cpus[c := cpu] && HasArrived(cpu, s.released);
    assert IsLast(cpu) <==> s.waitCount + 1 == |s.cpus|;
    assert t.waitCount == s.waitCount + 1 && t.sense == s.sense && t.released == s.released;
    assert cpu.pc.FlipSense? == false;
    hide Next;
    ArrivalsUpdate(s.cpus, c, cpu, s.released);
    hide Arrivals, HasArrived;
    OneMoreArrived(s, t, c, cpu);
  }

  /** While a CPU has yet to arrive nobody is the last one. */
  lemma NobodyIsLast(s: Kernel, c: nat)
    requires BarrierInv(s) && c < |s.cpus| && !HasArrived(s.cpus[c], s.released)
    ensures forall d :: 0 <= d < |s.cpus| ==> !IsLast(s.cpus[d])
    ensures s.waitCount == Arrivals(s.cpus, s.released) < |s.cpus|
  {
    if d :| 0 <= d < |s.cpus| && IsLast(s.cpus[d]) {
      AllArrived(s.cpus, s.released, c);
    }
  }

  lemma OneMoreArrived(s: Kernel, t: Kernel, c: nat, cpu: Cpu)
    requires BarrierInv(s) && c < |s.cpus| && forall d :: 0 <= d < |s.cpus| ==> !IsLast(s.cpus[d])
    requires t.cpus == s.cpus[c := cpu] && t.sense == s.sense && t.released == s.released
    requires t.waitCount == s.waitCount + 1 == Arrivals(t.cpus, t.released) <= |t.cpus|
    requires (IsLast(cpu) <==> t.waitCount == |t.cpus|) && !cpu.pc.FlipSense?
    ensures BarrierInv(t)
  {
    hide Arrivals;
    forall d | 0 <= d < |t.cpus| ensures IsLast(t.cpus[d]) ==> d == c && IsLast(cpu) {
      assert d != c ==> t.cpus[d] == s.cpus[d];
    }
    assert t.cpus[c] == cpu;
  }

  lemma ClearKeepsBarrier(period: Id -> nat, s: Kernel, c: nat, input: Input)
    requires BarrierInv(s) && c < |s.cpus| && s.cpus[c].pc.ClearCount?
    ensures BarrierInv(Next(period, s, c, input))
  {
    var t := Next(period, s, c, input);
    assert IsLast(s.cpus[c]);
    ArrivalsUpdate(s.cpus, c, t.cpus[c], s.released);
    assert IsLast(t.cpus[c]);
    forall d | 0 <= d < |t.cpus| && d != c ensures !IsLast(t.cpus[d]) {
      assert t.cpus[d] == s.cpus[d];
    }
  }

  /** The last CPU opens the barrier: the counter is already back at zero, and
      every other CPU is spinning in this very use of the barrier. */
  lemma FlipKeepsBarrier(period: Id -> nat, s: Kernel, c: nat, input: Input)
    requires BarrierInv(s) && c < |s.cpus| && s.cpus[c].pc.FlipSense?
    requires s.cpus[c].pc.cpuSense == !s.sense && s.cpus[c].passed == s.released
    ensures BarrierInv(Next(period, s, c, input))
    ensures forall d :: 0 <= d < |s.cpus| && d != c ==>
      s.cpus[d].pc.Spin? && s.cpus[d].passed == s.released
  {
    var t := Next(period, s, c, input);
    assert IsLast(s.cpus[c]);
    forall d | 0 <= d < |s.cpus| && d != c
      ensures s.cpus[d].pc.Spin? && s.cpus[d].passed == s.released
    {
      AllArrived(s.cpus, s.released, d);
      assert !IsLast(s.cpus[d]);
    }
    forall d | 0 <= d < |t.cpus| ensures !HasArrived(t.cpus[d], t.released) {
      if d != c {
        assert t.cpus[d] == s.cpus[d];
      }
    }
    NoArrivals(t.cpus, t.released);
  }

  lemma StepKeepsBarrier(period: Id -> nat, s: Kernel, c: nat, input: Input)
    requires KernelInv(period, s) && c < |s.cpus|
    ensures BarrierInv(Next(period, s, c, input))
  {
    var t := Next(period, s, c, input);
    assert CpuInv(s, c);
    match s.cpus[c].pc
    case Arrive(_, _) => ArriveKeepsBarrier(period, s, c, input);
    case ClearCount(_, _) => ClearKeepsBarrier(period, s, c, input);
    case FlipSense(_, _) => FlipKeepsBarrier(period, s, c, input);
    case _ =>
      if t != s {
        UncountedKeepsBarrier(s, t, c, t.cpus[c]);
      }
  }

  lemma StepKeepsOwn(period: Id -> nat, s: Kernel, c: nat, input: Input)
    requires KernelInv(period, s) && c < |s.cpus|
    ensures CpuInv(Next(period, s, c, input), c)
  {
    assert CpuInv(s, c) && (s.sense <==> s.released % 2 == 1);
    hide *;
    OwnStep(period, s, c, input);
  }

  lemma OwnStep(period: Id -> nat, s: Kernel, c: nat, input: Input)
    requires c < |s.cpus| && CpuInv(s, c) && (s.sense <==> s.released % 2 == 1)
    ensures CpuInv(Next(period, s, c, input), c)
  {
  }

  lemma StepKeepsOther(period: Id -> nat, s: Kernel, c: nat, input: Input, d: nat)
    requires KernelInv(period, s) && c < |s.cpus| && d < |s.cpus| && d != c
    ensures CpuInv(Next(period, s, c, input), d)
  {
    assert CpuInv(s, c) && CpuInv(s, d);
    if s.cpus[c].pc.FlipSense? {
      FlipKeepsBarrier(period, s, c, input);
    }
    hide *;
    OtherStep(period, s, c, input, d);
  }

  lemma OtherStep(period: Id -> nat, s: Kernel, c: nat, input: Input, d: nat)
    requires c < |s.cpus| && d < |s.cpus| && d != c && CpuInv(s, c) && CpuInv(s, d)
    requires s.cpus[c].pc.FlipSense? ==> s.cpus[d].pc.Spin? && s.cpus[d].passed == s.released
    ensures CpuInv(Next(period, s, c, input), d)
  {
    assert Next(period, s, c, input).cpus[d] == s.cpus[d];
  }

  lemma StepKeepsCpus(period: Id -> nat, s: Kernel, c: nat, input: Input)
    requires KernelInv(period, s) && c < |s.cpus|
    ensures var t := Next(period, s, c, input);
      |t.cpus| == |s.cpus| && forall d :: 0 <= d < |t.cpus| ==> CpuInv(t, d)
  {
    var t := Next(period, s, c, input);
    forall d | 0 <= d < |t.cpus| ensures CpuInv(t, d) {
      if d == c {
        StepKeepsOwn(period, s, c, input);
      } else {
        StepKeepsOther(period, s, c, input, d);
      }
    }
  }

  /** Before the waits, so that the CPU looks at the global variables. */
  predicate InFrame(cpu: Cpu) {
    cpu.pc.Running? || cpu.pc.SaveStart?
  }

  /** While major frames are running, exactly the frames up to the current one
      have been published. */
  lemma PublishedWhileRunning(period: Id -> nat, s: Kernel)
    requires KernelInv(period, s) && s.released % 2 == 0
    ensures |s.ids| == |s.starts| == s.released / 2 + 1
  {
    hide BarrierInv, StartsInv, SeenInv;
    assert CpuInv(s, BSP);
  }

  /** Published frames stay as they are. */
  lemma StepKeepsHistory(period: Id -> nat, s: Kernel, c: nat, input: Input)
    ensures var t := Next(period, s, c, input); s.ids <= t.ids && s.starts <= t.starts
  {
  }

  lemma StepSees(period: Id -> nat, s: Kernel, c: nat, input: Input, d: nat, k: nat)
    requires KernelInv(period, s) && c < |s.cpus|
    ensures var t := Next(period, s, c, input);
      && |t.cpus| == |s.cpus|
      && (d < |t.cpus| && k < |t.cpus[d].seen| ==>
            (d < |s.cpus| && k < |s.cpus[d].seen| && t.cpus[d].seen[k] == s.cpus[d].seen[k])
            || Consistent(s, t.cpus[d].seen[k]))
  {
    assert CpuInv(s, c);
    if InFrame(s.cpus[c]) {
      PublishedWhileRunning(period, s);
      assert s.released % 2 == 0 && s.cpus[c].passed == s.released && PublishInv(s);
      assert |s.ids| == |s.starts| == s.released / 2 + 1;
    }
    hide *;
    SeesPublished(period, s, c, input, d, k);
  }

  lemma SeesPublished(period: Id -> nat, s: Kernel, c: nat, input: Input, d: nat, k: nat)
    requires c < |s.cpus|
    requires InFrame(s.cpus[c]) ==>
      PublishInv(s) && |s.ids| == |s.starts| == s.cpus[c].passed / 2 + 1
    ensures var t := Next(period, s, c, input);
      && |t.cpus| == |s.cpus|
      && (d < |t.cpus| && k < |t.cpus[d].seen| ==>
            (d < |s.cpus| && k < |s.cpus[d].seen| && t.cpus[d].seen[k] == s.cpus[d].seen[k])
            || Consistent(s, t.cpus[d].seen[k]))
  {
    hide After;
    if d != c {
      assert d < |s.cpus| ==> Next(period, s, c, input).cpus[d] == s.cpus[d];
    }
  }

  lemma StepKeepsSeen(period: Id -> nat, s: Kernel, c: nat, input: Input)
    requires KernelInv(period, s) && c < |s.cpus|
    ensures SeenInv(Next(period, s, c, input))
  {
    var t := Next(period, s, c, input);
    StepKeepsHistory(period, s, c, input);
    assert SeenInv(s);
    hide Next, BarrierInv, StartsInv, PublishInv;
    forall d, k | 0 <= d < |t.cpus| && 0 <= k < |t.cpus[d].seen|
      ensures Consistent(t, t.cpus[d].seen[k])
    {
      StepSees(period, s, c, input, d, k);
    }
  }

  /** Only the BSP touches what is published. */
  lemma OnlyBspPublishes(period: Id -> nat, s: Kernel, c: nat, input: Input)
    requires KernelInv(period, s) && c < |s.cpus| && c != BSP
    ensures var t := Next(period, s, c, input);
      && |t.cpus| == |s.cpus| && t.cpus[BSP] == s.cpus[BSP] && t.ids == s.ids && t.starts == s.starts
      && t.majorId == s.majorId && t.majorStart == s.majorStart
  {
    assert CpuInv(s, c);
    hide BarrierInv, PublishInv, StartsInv, SeenInv;
  }

  lemma StepKeepsPublished(period: Id -> nat, s: Kernel, c: nat, input: Input)
    requires KernelInv(period, s) && c < |s.cpus|
    ensures PublishInv(Next(period, s, c, input))
  {
    if c != BSP {
      OnlyBspPublishes(period, s, c, input);
      hide Next, BarrierInv, StartsInv, SeenInv;
    } else {
      if InFrame(s.cpus[c]) {
        PublishedWhileRunning(period, s);
      }
      BspKeepsPublished(period, s, input);
      hide PublishInv, BarrierInv, StartsInv, SeenInv;
    }
  }

  lemma BspKeepsPublished(period: Id -> nat, s: Kernel, input: Input)
    requires |s.cpus| > 0 && PublishInv(s) && CpuInv(s, BSP)
    requires InFrame(s.cpus[BSP]) ==> |s.ids| == s.released / 2 + 1
    ensures PublishInv(Next(period, s, BSP, input))
  {
  }

  lemma StepKeepsStarts(period: Id -> nat, s: Kernel, c: nat, input: Input)
    requires KernelInv(period, s) && c < |s.cpus|
    ensures StartsInv(period, Next(period, s, c, input))
  {
    if c != BSP {
      OnlyBspPublishes(period, s, c, input);
    } else {
      BspKeepsStarts(period, s, input);
    }
    hide Next, After, BarrierInv, PublishInv, SeenInv;
  }

  lemma BspKeepsStarts(period: Id -> nat, s: Kernel, input: Input)
    requires |s.cpus| > 0 && PublishInv(s) && CpuInv(s, BSP) && StartsInv(period, s)
    ensures StartsInv(period, Next(period, s, BSP, input))
  {
    hide After;
    var t := Next(period, s, BSP, input);
    BspPublishes(period, s, input);
    hide Next, PublishInv, CpuInv;
    forall k | 0 <= k && k + 1 < |t.starts| && k < |t.ids|
      ensures t.starts[k + 1] == After(t.starts[k], period(t.ids[k]))
    {
      if k + 1 < |s.starts| {
        assert t.starts[k + 1] == s.starts[k + 1] && t.ids[k] == s.ids[k];
      }
    }
  }

  /** What the BSP's access does to the published frames. */
  lemma BspPublishes(period: Id -> nat, s: Kernel, input: Input)
    requires |s.cpus| > 0 && PublishInv(s) && CpuInv(s, BSP) && StartsInv(period, s)
    ensures var t := Next(period, s, BSP, input);
      && |t.cpus| > 0 && s.ids <= t.ids && 0 < |s.starts| <= |s.ids|
      && (t.starts == s.starts
          || (t.ids == s.ids && |s.starts| < |s.ids| && t.starts == s.starts + [NextStart(period, s)]))
      && match t.cpus[BSP].pc
         case SetId(_, start) => t.starts == s.starts && t.ids == s.ids && start == NextStart(period, s)
         case SetStart(start) => t.starts == s.starts && start == NextStart(period, s)
         case _ => true
  {
    hide After;
  }

  lemma StepKeepsInv(period: Id -> nat, s: Kernel, c: nat, input: Input)
    requires KernelInv(period, s)
    ensures KernelInv(period, Next(period, s, c, input))
  {
    if c < |s.cpus| {
      StepKeepsBarrier(period, s, c, input);
      StepKeepsCpus(period, s, c, input);
      StepKeepsSeen(period, s, c, input);
      StepKeepsPublished(period, s, c, input);
      StepKeepsStarts(period, s, c, input);
    }
  }

  // ----- what holds in every run -----

  function Run(period: Id -> nat, s: Kernel, schedule: seq<(nat, Input)>): (t: Kernel)
    requires KernelInv(period, s)
    ensures KernelInv(period, t)
    decreases |schedule|
  {
    if schedule == [] then s else
    StepKeepsInv(period, s, schedule[0].0, schedule[0].1);
    Run(period, Next(period, s, schedule[0].0, schedule[0].1), schedule[1..])
  }

  lemma StartInv(period: Id -> nat, s: Kernel)
    requires Start(s)
    ensures KernelInv(period, s)
  {
    NoArrivals(s.cpus, 0);
  }

  /** Whatever any two CPUs see while running the same major frame, at any two
      points of any run, is the same frame index, or the same start time. */
  lemma FramesAgree(
      period: Id -> nat, s: Kernel, schedule: seq<(nat, Input)>, c: nat, i: nat, d: nat, j: nat)
    requires Start(s)
    ensures KernelInv(period, s)
    ensures var t := Run(period, s, schedule);
      c < |t.cpus| && d < |t.cpus| && i < |t.cpus[c].seen| && j < |t.cpus[d].seen|
      && t.cpus[c].seen[i].frame == t.cpus[d].seen[j].frame
      && t.cpus[c].seen[i].SawId? == t.cpus[d].seen[j].SawId?
      ==> t.cpus[c].seen[i] == t.cpus[d].seen[j]
  {
    StartInv(period, s);
    var t := Run(period, s, schedule);
    assert SeenInv(t);
  }

  /** CPUs that run at the same time run the same major frame, and what they
      would read now is what was published for it. */
  lemma RunTogether(period: Id -> nat, s: Kernel, c: nat, d: nat)
    requires KernelInv(period, s) && c < |s.cpus| && d < |s.cpus|
    requires InFrame(s.cpus[c]) && InFrame(s.cpus[d])
    ensures s.cpus[c].passed == s.cpus[d].passed
    ensures var frame := s.cpus[c].passed / 2;
      && frame < |s.ids| && s.majorId == s.ids[frame]
      && frame < |s.starts| && s.majorStart == s.starts[frame]
  {
    assert CpuInv(s, c) && CpuInv(s, d);
    PublishedWhileRunning(period, s);
  }

  /** Held between the two waits: released from the first or waiting in the second. */
  predicate Held(cpu: Cpu, released: nat) {
    || (Lagging(cpu, released) && cpu.pc.wait == 1)
    || (cpu.passed == released && match cpu.pc
        case ReadSense(w) => w == 2
        case Arrive(w, _) => w == 2
        case Spin(w, _) => w == 2
        case _ => false)
  }

  predicate Publishing(pc: PC) {
    pc.GetTau0? || pc.GetStart? || pc.SetId? || pc.SetStart?
  }

  /** The BSP replaces the major frame only while every other CPU is held, and
      no CPU but the BSP ever does. */
  lemma PublishesAlone(period: Id -> nat, s: Kernel, b: nat, d: nat)
    requires KernelInv(period, s) && b < |s.cpus| && d < |s.cpus| && d != b
    requires Publishing(s.cpus[b].pc)
    ensures b == BSP && Held(s.cpus[d], s.released)
  {
    assert CpuInv(s, b) && CpuInv(s, d);
    if IsLast(s.cpus[d]) {
      AllArrived(s.cpus, s.released, b);
    }
  }

  /** No CPU is ever more than one wait ahead of another, and then the other
      has been released and has only to notice it. */
  lemma NoOvertaking(period: Id -> nat, s: Kernel, c: nat, d: nat)
    requires KernelInv(period, s) && c < |s.cpus| && d < |s.cpus|
    requires s.cpus[d].passed < s.cpus[c].passed
    ensures s.cpus[c].passed == s.cpus[d].passed + 1
    ensures s.cpus[d].pc.Spin? && s.cpus[d].pc.cpuSense == s.sense
  {
    assert CpuInv(s, c) && CpuInv(s, d);
  }

  /** A CPU completes a wait only after every other CPU has completed the
      previous one and has come to this one. */
  lemma WaitsForAll(period: Id -> nat, s: Kernel, c: nat, input: Input, d: nat)
    requires KernelInv(period, s) && c < |s.cpus| && d < |s.cpus| && d != c
    requires Next(period, s, c, input).cpus[c].passed == s.cpus[c].passed + 1
    ensures s.cpus[d].passed > s.cpus[c].passed
         || (s.cpus[d].passed == s.cpus[c].passed && s.cpus[d].pc.Spin?)
  {
    assert CpuInv(s, c) && CpuInv(s, d);
    if s.cpus[c].pc.FlipSense? {
      FlipKeepsBarrier(period, s, c, input);
    }
  }

  /** The barrier cannot deadlock: in every state some CPU can move. */
  lemma NeverStuck(period: Id -> nat, s: Kernel)
    requires KernelInv(period, s)
    ensures exists c: nat, input: Input :: c < |s.cpus| && Next(period, s, c, input) != s
  {
    if c :| 0 <= c < |s.cpus|
            && (!s.cpus[c].pc.Spin? || Lagging(s.cpus[c], s.released)) {
      MovesOn(period, s, c, Input(0, Expire));
    } else {
      forall c | 0 <= c < |s.cpus| ensures HasArrived(s.cpus[c], s.released) {
        assert CpuInv(s, c);
      }
      EveryArrival(s.cpus, s.released);
      assert false;
    }
  }

  lemma MovesOn(period: Id -> nat, s: Kernel, c: nat, input: Input)
    requires KernelInv(period, s) && c < |s.cpus| && input.access.Expire?
    requires !s.cpus[c].pc.Spin? || Lagging(s.cpus[c], s.released)
    ensures Next(period, s, c, input) != s
  {
    assert CpuInv(s, c);
    var t := Next(period, s, c, input);
    assert t.cpus[c].pc != s.cpus[c].pc;
  }

  function PeriodSum(period: Id -> nat, ids: seq<Id>): nat {
    if ids == [] then 0 else PeriodSum(period, ids[..|ids| - 1]) + period(ids[|ids| - 1])
  }

  /** Time is conserved: frame k starts when all the frames before it are over. */
  lemma StartOfFrame(period: Id -> nat, s: Kernel, k: nat)
    requires KernelInv(period, s) && k < |s.starts| && s.starts[0] < WORD64
    ensures k < |s.ids| && s.starts[k] == (s.starts[0] + PeriodSum(period, s.ids[..k])) % WORD64
  {
    assert CpuInv(s, BSP);
    assert |s.starts| <= |s.ids|;
    hide KernelInv;
    StartsAddUp(period, s, k);
  }

  lemma {:induction false} StartsAddUp(period: Id -> nat, s: Kernel, k: nat)
    requires |s.cpus| > 0 && StartsInv(period, s) && k < |s.starts| <= |s.ids| && s.starts[0] < WORD64
    ensures s.starts[k] == (s.starts[0] + PeriodSum(period, s.ids[..k])) % WORD64
  {
    if k > 0 {
      StartsAddUp(period, s, k - 1);
      assert s.ids[..k][..k - 1] == s.ids[..k - 1];
      assert s.starts[(k - 1) + 1] == After(s.starts[k - 1], period(s.ids[k - 1]));
      ModAdd(s.starts[0] + PeriodSum(period, s.ids[..k - 1]), period(s.ids[k - 1]));
    }
  }

  lemma ModAdd(a: nat, b: nat)
    ensures (a % WORD64 + b) % WORD64 == (a + b) % WORD64
  {
  }

  // ----- the shared variables, updated in place -----

  class Machine {
    const period: Id -> nat
    const cpus: array<Cpu>
    var waitCount: nat
    var sense: bool
    var majorId: Id
    var majorStart: nat
    ghost var released: nat
    ghost var ids: seq<Id>
    ghost var starts: seq<nat>

    ghost function View(): Kernel
      reads this, cpus
    {
      Kernel(cpus[..], waitCount, sense, majorId, majorStart, released, ids, starts)
    }

    constructor (n: nat, period: Id -> nat, first: Id, now: nat)
      requires 0 < n < BYTE
      ensures Start(View()) && KernelInv(period, View())
      ensures fresh(cpus) && cpus.Length == n && this.period == period
      ensures majorId == first && majorStart == now
    {
      this.period := period;
      cpus := new Cpu[n](_ => Cpu(Running, 0, first, []));
      waitCount, sense, majorId, majorStart := 0, false, first, now;
      released, ids, starts := 0, [first], [now];
      new;
      StartInv(period, View());
    }

    /** CPU c runs on to its next shared access. */
    method Step(c: nat, input: Input)
      requires KernelInv(period, View()) && c < cpus.Length
      modifies this, cpus
      ensures View() == Next(period, old(View()), c, input)
      ensures KernelInv(period, View())
    {
      StepKeepsInv(period, View(), c, input);
      hide KernelInv;
      match cpus[c].pc
      case Running => RunOn(c, input);
      case SaveStart => RunOn(c, input);
      case GetTau0 => Publish(c, input);
      case GetStart(_) => Publish(c, input);
      case SetId(_, _) => Publish(c, input);
      case SetStart(_) => Publish(c, input);
      case _ => Wait(c, input);
    }

    /** A look at one of the global variables. */
    method RunOn(c: nat, input: Input)
      requires c < cpus.Length && InFrame(cpus[c])
      modifies cpus
      ensures View() == Next(period, old(View()), c, input)
    {
      var cpu := cpus[c];
      var frame := cpu.passed / 2;
      if cpu.pc.SaveStart? {
        cpus[c] := cpu.(seen := cpu.seen + [SawStart(frame, majorStart)], pc := ReadSense(1));
      } else {
        match input.access
        case LookId => cpus[c] := cpu.(seen := cpu.seen + [SawId(frame, majorId)]);
        case LookStart => cpus[c] := cpu.(seen := cpu.seen + [SawStart(frame, majorStart)]);
        case Expire =>
          var current := majorId;
          cpus[c] := cpu.(seen := cpu.seen + [SawId(frame, current)], current := current, pc := SaveStart);
      }
    }

    /** The accesses of procedure Wait. */
    method Wait(c: nat, ghost input: Input)
      requires c < cpus.Length && var pc := cpus[c].pc;
        pc.ReadSense? || pc.Arrive? || pc.ClearCount? || pc.FlipSense? || pc.Spin?
      modifies this`waitCount, this`sense, this`released, cpus
      ensures View() == Next(period, old(View()), c, input)
    {
      var cpu := cpus[c];
      match cpu.pc
      case ReadSense(w) =>
        cpus[c] := cpu.(pc := Arrive(w, !sense));
      case Arrive(w, cs) =>
        var count := waitCount;
        waitCount := (waitCount + 1) % BYTE;
        cpus[c] := cpu.(pc := if count + 1 == cpus.Length then ClearCount(w, cs) else Spin(w, cs));
      case ClearCount(w, cs) =>
        waitCount := 0;
        cpus[c] := cpu.(pc := FlipSense(w, cs));
      case FlipSense(w, cs) =>
        sense := cs;
        released := released + 1;
        cpus[c] := Leave(c, cpu);
      case Spin(w, cs) =>
        if sense == cs {
          cpus[c] := Leave(c, cpu);
        }
    }

    /** What only the BSP does, between the waits. */
    method Publish(c: nat, input: Input)
      requires c < cpus.Length && Publishing(cpus[c].pc)
      modifies this`majorId, this`majorStart, this`ids, this`starts, cpus
      ensures View() == Next(period, old(View()), c, input)
    {
      var cpu := cpus[c];
      match cpu.pc
      case GetTau0 =>
        cpus[c] := cpu.(pc := GetStart(input.tau0));
      case GetStart(next) =>
        cpus[c] := cpu.(pc := SetId(next, After(majorStart, period(cpu.current))));
      case SetId(next, start) =>
        majorId := next;
        ids := ids + [next];
        cpus[c] := cpu.(pc := SetStart(start));
      case SetStart(start) =>
        majorStart := start;
        starts := starts + [start];
        cpus[c] := cpu.(pc := ReadSense(2));
    }
  }
}
