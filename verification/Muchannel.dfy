/** Muchannel, the Ada implementation of SHMStream version 2: the reader's
    procedure Read as a function of an arbitrary burst of writer steps before
    each of its shared accesses.

    Read stores the epoch after the parameters, not before them, and reports
    missing data and an incompatible interface without the last look at the epoch
    that the interface description asks for. This module proves what that costs. */
module Muchannel {
  import opened ShmStream

  const MODULUS: nat := 0x1_0000_0000_0000_0000
  const NULL_CELL: Cell := 0

  /** The generic formals of a reader or writer instance. */
  datatype Formal = Formal(protocol: nat, size: nat, elements: nat)

  datatype Result =
    | Inactive | IncompatibleInterface | EpochChanged | NoData | OverrunDetected | Success

  datatype ReaderRec = ReaderRec(epoch: nat, protocol: nat, size: nat, elements: nat, rc: nat)

  const NULL_READER := ReaderRec(0, 0, 0, 0, 0)

  /** What the writer does just before access number k of a call of Read. */
  type Env = nat -> seq<Event>

  datatype Outcome = Outcome(channel: Channel, reader: ReaderRec, element: Packet, result: Result)

  predicate WellFormed(f: Formal, s: Channel) {
    f.elements > 0 && f.elements * f.size <= |s.data|
  }

  predicate IsValid(f: Formal, protocol: nat, size: nat, elements: nat) {
    size * elements % MODULUS == f.elements * f.size % MODULUS && protocol == f.protocol
  }

  function NullElement(f: Formal): Packet {
    seq(f.size, _ => NULL_CELL)
  }

  // ----- Read as a function of the interference -----

  /** Copying an element; cell i is access 12 + i. */
  function Copy(f: Formal, s: Channel, rc: nat, i: nat, env: Env): (r: (Channel, seq<Cell>))
    requires Inv(s) && WellFormed(f, s) && i <= f.size
    ensures Inv(r.0) && |r.0.data| == |s.data| && |r.1| == f.size - i
    decreases f.size - i
  {
    if i == f.size then (s, []) else
    var s1 := Run(s, env(12 + i));
    RunIsLater(s, env(12 + i));
    AddrInside(f.elements, f.size, rc, i, |s1.data|);
    var (t, rest) := Copy(f, s1, rc, i + 1, env);
    (t, [s1.data[Addr(f.elements, f.size, rc, i)]] + rest)
  }

  /** Accesses 8 to 11: from the check of WC on. */
  function Fetch(f: Formal, s: Channel, r: ReaderRec, env: Env): (o: Outcome)
    requires Inv(s) && WellFormed(f, s)
    ensures Inv(o.channel)
  {
    var s8 := Run(s, env(8));
    RunIsLater(s, env(8));
    if r.rc >= s8.hdr.wc then Outcome(s8, r, NullElement(f), NoData) else
    var (sc, element) := Copy(f, s8, r.rc, 0, env);
    var s9 := Run(sc, env(9));
    if s9.hdr.wsc > r.rc + r.elements then
      var s10 := Run(s9, env(10));
      Confirm(Run(s10, env(11)), r.(rc := s10.hdr.wc), element, OverrunDetected)
    else
      Confirm(Run(s9, env(11)), r.(rc := r.rc + 1), element, Success)
  }

  function Confirm(s: Channel, r: ReaderRec, element: Packet, result: Result): Outcome {
    Outcome(s, r, element, if r.epoch != s.hdr.epoch then EpochChanged else result)
  }

  /** Accesses 2 to 7, in Read's order: the parameters first, then the epoch. */
  function Synchronize(f: Formal, s: Channel, r: ReaderRec, env: Env): (o: Outcome)
    requires Inv(s)
    ensures Inv(o.channel) && |o.channel.data| == |s.data|
  {
    var s2 := Run(s, env(2));
    var s3 := Run(s2, env(3));
    var s4 := Run(s3, env(4));
    var s5 := Run(s4, env(5));
    RunIsLater(s, env(2)); RunIsLater(s2, env(3)); RunIsLater(s3, env(4)); RunIsLater(s4, env(5));
    if s2.hdr.transport != MARKER
       || !IsValid(f, s3.hdr.protocol, s4.hdr.size, s5.hdr.elements)
    then
      Outcome(s5, NULL_READER, NullElement(f), IncompatibleInterface)
    else
      var s6 := Run(s5, env(6));
      var s7 := Run(s6, env(7));
      RunIsLater(s5, env(6)); RunIsLater(s6, env(7));
      Outcome(s7, ReaderRec(s6.hdr.epoch, s3.hdr.protocol, s4.hdr.size, s5.hdr.elements, 0),
              NullElement(f), if s6.hdr.epoch != s7.hdr.epoch then EpochChanged else Success)
  }

  /** A call of Read; accesses 0 and 1 both look at the epoch. */
  function Read(f: Formal, s: Channel, r: ReaderRec, env: Env): (o: Outcome)
    requires Inv(s) && WellFormed(f, s)
    ensures Inv(o.channel)
  {
    var s0 := Run(s, env(0));
    var s1 := Run(s0, env(1));
    RunIsLater(s, env(0)); RunIsLater(s0, env(1));
    if s1.hdr.epoch == 0 then
      Outcome(s1, r.(epoch := 0), NullElement(f), Inactive)
    else if r.epoch == 0 || r.epoch != s0.hdr.epoch then
      var o := Synchronize(f, s1, r, env);
      if o.result != Success then o else Fetch(f, o.channel, o.reader, env)
    else
      Fetch(f, s1, r, env)
  }

  // ----- what Read guarantees -----

  function ParamsFor(f: Formal): Params {
    Params(MARKER, f.protocol, f.size, f.elements)
  }

  /** Every epoch was opened by an instance with the reader's formals. */
  ghost predicate Homogeneous(f: Formal, s: Channel) {
    forall e :: e in s.epochs ==> s.epochs[e].params == ParamsFor(f)
  }

  /** All writers so far, also one that is still initializing, are instances
      with the reader's formals. */
  ghost predicate Uniform(f: Formal, s: Channel) {
    Homogeneous(f, s) && ParamsOf(s.hdr) == ParamsFor(f)
  }

  /** The events of instances with the formals f: header constants are those of f. */
  predicate OfInstance(f: Formal, ev: Event) {
    && (ev.SetTransport? ==> ev.v == MARKER)
    && (ev.SetProtocol? ==> ev.v == f.protocol)
    && (ev.SetSize? ==> ev.v == f.size)
    && (ev.SetElements? ==> ev.v == f.elements)
  }

  ghost predicate Conforms(f: Formal, env: Env) {
    forall k: nat, j: nat :: j < |env(k)| ==> OfInstance(f, env(k)[j])
  }

  /** A reader that carries the parameters of its epoch and, while that epoch
      lasts, has not run ahead of the writer. */
  ghost predicate Good(f: Formal, s: Channel, r: ReaderRec) {
    r.epoch != 0 ==>
      && r.epoch in s.epochs
      && r.elements == f.elements
      && s.epochs[r.epoch].params == Params(MARKER, r.protocol, r.size, r.elements)
      && (r.epoch == s.hdr.epoch ==> r.rc <= s.hdr.wc)
  }

  /** The reader's position before the accesses from WC on: a call that has
      synchronized starts at 0. */
  function Before(r: ReaderRec, o: Outcome): nat {
    if r.epoch != 0 && r.epoch == o.reader.epoch then r.rc else 0
  }

  /** The interface is one that the reader accepts. */
  predicate Compatible(f: Formal, p: Params) {
    p.transport == MARKER && IsValid(f, p.protocol, p.size, p.elements)
  }

  /** What each result says about the channel and the log of the epoch that the
      reader carries: Success delivers the packet at its position, an overrun
      skips packets when the writer has begun packet RC + Elements, no data
      means that all published packets of the current epoch have been read, and
      an incompatible interface is that of the current epoch. */
  ghost predicate Right(f: Formal, r: ReaderRec, o: Outcome) {
    var rc, e := Before(r, o), o.reader.epoch;
    match o.result
    case Success =>
      && e in o.channel.epochs && o.reader.rc == rc + 1 <= |o.channel.epochs[e].log|
      && o.element == o.channel.epochs[e].log[rc]
    case OverrunDetected =>
      && e in o.channel.epochs && rc < o.reader.rc <= |o.channel.epochs[e].log|
      && rc + o.channel.epochs[e].params.elements < |o.channel.epochs[e].log|
    case NoData => e != 0 && e == o.channel.hdr.epoch && o.reader.rc == o.channel.hdr.wc
    case IncompatibleInterface =>
      && o.channel.hdr.epoch in o.channel.epochs
      && !Compatible(f, o.channel.epochs[o.channel.hdr.epoch].params)
    case EpochChanged => e != o.channel.hdr.epoch
    case Inactive => o.channel.hdr.epoch == 0
  }

  /** The same for all results but NoData, which is returned without a final
      look at the epoch. */
  ghost predicate RightIfConfirmed(f: Formal, r: ReaderRec, o: Outcome) {
    !o.result.NoData? ==> Right(f, r, o)
  }

  lemma {:induction false} CopyIsLater(f: Formal, s: Channel, rc: nat, i: nat, env: Env)
    requires Inv(s) && WellFormed(f, s) && i <= f.size
    ensures Later(s, Copy(f, s, rc, i, env).0)
    decreases f.size - i
  {
    if i == f.size {
      RunIsLater(s, []);
    } else {
      var s1 := Run(s, env(12 + i));
      RunIsLater(s, env(12 + i));
      CopyIsLater(f, s1, rc, i + 1, env);
      LaterTransitive(s, s1, Copy(f, s1, rc, i + 1, env).0);
    }
  }

  lemma SameBetween(s: Channel, t: Channel, u: Channel)
    requires Inv(s) && Inv(t) && Inv(u) && Later(s, t) && Later(t, u)
    requires u.hdr.epoch != 0 && s.hdr.epoch == u.hdr.epoch
    ensures t.hdr.epoch == u.hdr.epoch
    ensures s.hdr.wc <= t.hdr.wc <= u.hdr.wc && s.hdr.wsc <= t.hdr.wsc <= u.hdr.wsc
    ensures ParamsOf(t.hdr) == ParamsOf(u.hdr)
  {
    assert u.hdr.epoch in t.epochs;
  }

  lemma Published(s: Channel, rc: nat)
    requires Inv(s) && s.hdr.epoch != 0 && rc < s.hdr.wc
    ensures s.hdr.epoch in s.epochs && s.epochs[s.hdr.epoch].params == ParamsOf(s.hdr)
    ensures rc < |s.epochs[s.hdr.epoch].log| && |s.epochs[s.hdr.epoch].log[rc]| == s.hdr.size
  {
  }

  lemma CopyUnfolds(f: Formal, s: Channel, rc: nat, i: nat, env: Env)
    requires Inv(s) && WellFormed(f, s) && i < f.size
    ensures var s1 := Run(s, env(12 + i));
      && Inv(s1) && WellFormed(f, s1) && Later(s, s1)
      && Addr(f.elements, f.size, rc, i) < |s1.data|
      && Copy(f, s, rc, i, env).0 == Copy(f, s1, rc, i + 1, env).0
      && Copy(f, s, rc, i, env).1
        == [s1.data[Addr(f.elements, f.size, rc, i)]] + Copy(f, s1, rc, i + 1, env).1
  {
    RunIsLater(s, env(12 + i));
    AddrInside(f.elements, f.size, rc, i, |s.data|);
  }

  lemma CopiedCell(f: Formal, s: Channel, check: Channel, rc: nat, i: nat)
    requires Inv(s) && Inv(check) && Later(s, check)
    requires check.hdr.epoch in check.epochs && check.epochs[check.hdr.epoch].params == ParamsFor(f)
    requires check.hdr.epoch != 0 && s.hdr.epoch == check.hdr.epoch
    requires rc < s.hdr.wc && check.hdr.wsc <= rc + f.elements
    ensures rc < |check.epochs[check.hdr.epoch].log|
    ensures |check.epochs[check.hdr.epoch].log[rc]| == f.size
    ensures i < f.size ==> Addr(f.elements, f.size, rc, i) < |s.data|
    ensures i < f.size ==>
      s.data[Addr(f.elements, f.size, rc, i)] == check.epochs[check.hdr.epoch].log[rc][i]
  {
    hide ActiveInv;
    LaterSame(s);
    SameBetween(s, s, check);
    Published(check, rc);
    if i < f.size {
      ValidatedCell(s, check, rc, i);
    }
  }

  lemma LaterSame(s: Channel)
    ensures Later(s, s)
  {
  }

  /** A copy that is validated afterwards is the packet, cell by cell. */
  lemma {:induction false} ValidatedCopy(
      f: Formal, s: Channel, rc: nat, i: nat, env: Env, check: Channel)
    requires Inv(s) && WellFormed(f, s) && i <= f.size && Inv(check)
    requires Later(Copy(f, s, rc, i, env).0, check)
    requires check.hdr.epoch in check.epochs && check.epochs[check.hdr.epoch].params == ParamsFor(f)
    requires check.hdr.epoch != 0 && s.hdr.epoch == check.hdr.epoch
    requires rc < s.hdr.wc && check.hdr.wsc <= rc + f.elements
    ensures rc < |check.epochs[check.hdr.epoch].log|
    ensures |check.epochs[check.hdr.epoch].log[rc]| == f.size
    ensures Copy(f, s, rc, i, env).1 == check.epochs[check.hdr.epoch].log[rc][i..]
    decreases f.size - i
  {
    hide Inv, Later, Run;
    var end := Copy(f, s, rc, i, env).0;
    CopyIsLater(f, s, rc, i, env);
    LaterTransitive(s, end, check);
    CopiedCell(f, s, check, rc, i);
    if i < f.size {
      hide Copy;
      var s1 := Run(s, env(12 + i));
      CopyUnfolds(f, s, rc, i, env);
      CopyIsLater(f, s1, rc, i + 1, env);
      LaterTransitive(s1, end, check);
      SameBetween(s, s1, check);
      CopiedCell(f, s1, check, rc, i);
      ValidatedCopy(f, s1, rc, i + 1, env, check);
      var packet := check.epochs[check.hdr.epoch].log[rc];
      assert packet[i..] == [packet[i]] + packet[i + 1..];
    }
  }

  /** The states of the accesses to WC and, after the copy, to WSC. */
  lemma FetchStates(f: Formal, s: Channel, r: ReaderRec, env: Env) returns (s8: Channel, s9: Channel)
    requires Inv(s) && WellFormed(f, s)
    ensures s8 == Run(s, env(8)) && Inv(s8) && WellFormed(f, s8) && Later(s, s8)
    ensures s9 == Run(Copy(f, s8, r.rc, 0, env).0, env(9)) && Inv(s9)
    ensures Later(Copy(f, s8, r.rc, 0, env).0, s9) && Later(s8, s9) && Later(s, s9)
  {
    s8 := Run(s, env(8));
    RunIsLater(s, env(8));
    var sc := Copy(f, s8, r.rc, 0, env).0;
    CopyIsLater(f, s8, r.rc, 0, env);
    s9 := Run(sc, env(9));
    RunIsLater(sc, env(9));
    LaterTransitive(s8, sc, s9);
    LaterTransitive(s, s8, s9);
    hide Inv, Copy, Run;
  }

  lemma FetchIsLater(f: Formal, s: Channel, r: ReaderRec, env: Env)
    requires Inv(s) && WellFormed(f, s)
    ensures Later(s, Fetch(f, s, r, env).channel) && Fetch(f, s, r, env).reader.epoch == r.epoch
  {
    hide Inv, Later, Copy;
    var s8, s9 := FetchStates(f, s, r, env);
    if r.rc < s8.hdr.wc {
      var s10 := if s9.hdr.wsc > r.rc + r.elements then Run(s9, env(10)) else s9;
      RunIsLater(s9, env(10));
      LaterSame(s9);
      RunIsLater(s10, env(11));
      LaterTransitive(s, s9, s10);
      LaterTransitive(s, s10, Run(s10, env(11)));
    }
  }

  /** From the check of WC on, Read is right for every interference, provided
      that the reader carries a real epoch which an instance with its formals
      had opened. Later writers may be of any kind. */
  lemma FetchIsRight(f: Formal, s: Channel, r: ReaderRec, env: Env)
    requires Inv(s) && WellFormed(f, s)
    requires r.epoch != 0 && r.elements == f.elements
    requires r.epoch in s.epochs && s.epochs[r.epoch].params == ParamsFor(f)
    ensures RightIfConfirmed(f, r, Fetch(f, s, r, env))
    ensures Later(s, Fetch(f, s, r, env).channel) && Fetch(f, s, r, env).reader.epoch == r.epoch
  {
    hide Inv, Later, Copy, WellFormed;
    FetchIsLater(f, s, r, env);
    var s8, s9 := FetchStates(f, s, r, env);
    if r.rc < s8.hdr.wc {
      if s9.hdr.wsc > r.rc + r.elements {
        var s10 := Run(s9, env(10));
        var end := Run(s10, env(11));
        RunIsLater(s9, env(10));
        RunIsLater(s10, env(11));
        if r.epoch == end.hdr.epoch {
          OverrunIsRight(f, s, s8, s9, s10, end, r);
        }
      } else {
        var end := Run(s9, env(11));
        RunIsLater(s9, env(11));
        if r.epoch == end.hdr.epoch {
          SuccessIsRight(f, s, s8, s9, end, r, env);
        }
      }
    }
    hide Run;
  }

  /** The epoch is still the same at the last access, so it was at all before. */
  lemma SuccessIsRight(
      f: Formal, s: Channel, s8: Channel, s9: Channel, end: Channel, r: ReaderRec, env: Env)
    requires Inv(s) && Inv(s8) && Inv(s9) && Inv(end) && WellFormed(f, s8)
    requires Later(s, s8) && Later(Copy(f, s8, r.rc, 0, env).0, s9) && Later(s8, s9) && Later(s9, end)
    requires r.epoch in s.epochs && s.epochs[r.epoch].params == ParamsFor(f)
    requires r.epoch != 0 && end.hdr.epoch == r.epoch && r.rc < s8.hdr.wc && s9.hdr.wsc <= r.rc + f.elements
    ensures r.epoch in end.epochs && r.rc < |end.epochs[r.epoch].log|
    ensures Copy(f, s8, r.rc, 0, env).1 == end.epochs[r.epoch].log[r.rc]
  {
    EpochWas(s, s8, s9, end, r);
    assert Grows(s.epochs[r.epoch], s8.epochs[r.epoch]) && Grows(s8.epochs[r.epoch], s9.epochs[r.epoch]);
    assert Grows(s9.epochs[r.epoch], end.epochs[r.epoch]);
    hide Inv, Later, Copy;
    ValidatedCopy(f, s8, r.rc, 0, env, s9);
  }

  lemma EpochWas(s: Channel, s8: Channel, s9: Channel, end: Channel, r: ReaderRec)
    requires Inv(s) && Inv(s8) && Inv(s9) && Inv(end) && Later(s, s8) && Later(s8, s9) && Later(s9, end)
    requires r.epoch != 0 && r.epoch in s.epochs && end.hdr.epoch == r.epoch
    ensures s9.hdr.epoch == r.epoch && s8.hdr.epoch == r.epoch && r.epoch in s8.epochs && r.epoch in s9.epochs
  {
    hide ActiveInv;
  }

  lemma OverrunIsRight(
      f: Formal, s: Channel, s8: Channel, s9: Channel, s10: Channel, end: Channel, r: ReaderRec)
    requires Inv(s) && Inv(s8) && Inv(s9) && Inv(s10) && Inv(end)
    requires Later(s, s8) && Later(s8, s9) && Later(s9, s10) && Later(s10, end)
    requires r.epoch in s.epochs && s.epochs[r.epoch].params == ParamsFor(f)
    requires r.epoch != 0 && end.hdr.epoch == r.epoch && r.rc < s8.hdr.wc && s9.hdr.wsc > r.rc + f.elements
    ensures r.epoch in end.epochs && r.rc < s10.hdr.wc <= |end.epochs[r.epoch].log|
    ensures end.epochs[r.epoch].params.elements == f.elements
    ensures r.rc + f.elements < |end.epochs[r.epoch].log|
  {
    LaterTransitive(s9, s10, end);
    EpochWas(s, s8, s9, end, r);
    EpochWas(s8, s9, s10, end, r);
    assert Grows(s.epochs[r.epoch], s8.epochs[r.epoch]) && Grows(s8.epochs[r.epoch], s9.epochs[r.epoch]);
    assert Grows(s9.epochs[r.epoch], end.epochs[r.epoch]);
    LogLength(s9);
    LogLength(end);
    hide Inv;
  }

  lemma LogLength(s: Channel)
    requires Inv(s) && s.hdr.epoch != 0
    ensures s.hdr.epoch in s.epochs && |s.epochs[s.hdr.epoch].log| == s.hdr.wsc && s.hdr.wc <= s.hdr.wsc
  {
  }

  lemma {:induction false} RunKeepsUniform(f: Formal, s: Channel, evs: seq<Event>)
    requires Inv(s) && Uniform(f, s)
    requires forall j :: 0 <= j < |evs| ==> OfInstance(f, evs[j])
    ensures Uniform(f, Run(s, evs))
    decreases |evs|
  {
    if evs != [] {
      StepKeepsInv(s, evs[0]);
      StepKeepsUniform(f, s, evs[0]);
      RunKeepsUniform(f, Step(s, evs[0]), evs[1..]);
    }
  }

  lemma StepKeepsUniform(f: Formal, s: Channel, ev: Event)
    requires Inv(s) && Uniform(f, s) && OfInstance(f, ev)
    ensures Uniform(f, Step(s, ev))
  {
    StepIsLater(s, ev);
    var t := Step(s, ev);
    forall e | e in t.epochs
      ensures t.epochs[e].params == ParamsFor(f)
    {
      if e in s.epochs {
        assert Grows(s.epochs[e], t.epochs[e]);
      }
    }
  }

  lemma RunUniform(f: Formal, s: Channel, env: Env, k: nat)
    requires Inv(s) && Uniform(f, s) && Conforms(f, env)
    ensures Uniform(f, Run(s, env(k))) && Later(s, Run(s, env(k)))
  {
    RunKeepsUniform(f, s, env(k));
    RunIsLater(s, env(k));
  }

  /** If all writers are instances with the reader's formals, what is stored
      are the parameters of the epoch that is stored, unless that is zero. */
  lemma SynchronizeStores(f: Formal, s: Channel, r: ReaderRec, env: Env)
    requires Inv(s) && WellFormed(f, s) && Uniform(f, s) && Conforms(f, env)
    ensures var o := Synchronize(f, s, r, env);
      && Uniform(f, o.channel) && Later(s, o.channel)
      && o.result in {Success, EpochChanged} && o.reader.rc == 0
      && Good(f, o.channel, o.reader)
  {
    hide ActiveInv;
    ReadsUniform(f, s, env);
    OwnFormalsAreValid(f);
    var s5 := Run(Run(Run(Run(s, env(2)), env(3)), env(4)), env(5));
    var s6 := Run(s5, env(6));
    var s7 := Run(s6, env(7));
    hide Run, Conforms, IsValid, Homogeneous, Inv, Good, NullElement;
    RunUniform(f, s5, env, 6);
    RunUniform(f, s6, env, 7);
    LaterTransitive(s, s5, s6);
    LaterTransitive(s, s6, s7);
    StoredParameters(f, s6, s7);
    hide Later;
  }

  lemma OwnFormalsAreValid(f: Formal)
    ensures IsValid(f, f.protocol, f.size, f.elements)
  {
    assert f.size * f.elements == f.elements * f.size;
  }

  lemma StoredParameters(f: Formal, s6: Channel, s7: Channel)
    requires Inv(s6) && Uniform(f, s6) && Later(s6, s7)
    ensures Good(f, s7, ReaderRec(s6.hdr.epoch, f.protocol, f.size, f.elements, 0))
  {
    if s6.hdr.epoch != 0 {
      assert s6.hdr.epoch in s6.epochs;
      assert Grows(s6.epochs[s6.hdr.epoch], s7.epochs[s6.hdr.epoch]);
    }
    hide ActiveInv;
  }

  /** The accesses to the transport marker and the parameters. */
  lemma ReadsUniform(f: Formal, s: Channel, env: Env)
    requires Inv(s) && Uniform(f, s) && Conforms(f, env)
    ensures var s2 := Run(s, env(2)); var s3 := Run(s2, env(3));
      var s4 := Run(s3, env(4)); var s5 := Run(s4, env(5));
      && Uniform(f, s2) && Uniform(f, s3) && Uniform(f, s4) && Uniform(f, s5) && Later(s, s5)
  {
    hide ActiveInv, Run, Conforms, Uniform, Later;
    var s2 := Run(s, env(2));
    var s3 := Run(s2, env(3));
    var s4 := Run(s3, env(4));
    RunUniform(f, s, env, 2);
    RunUniform(f, s2, env, 3);
    RunUniform(f, s3, env, 4);
    RunUniform(f, s4, env, 5);
    LaterTransitive(s, s2, s3);
    LaterTransitive(s, s3, s4);
    LaterTransitive(s, s4, Run(s4, env(5)));
  }

  /** For instances of one generic: whatever the interference, a call that leaves
      the reader in a real epoch has reported the truth, unless it is NoData. */
  lemma AcceptedIsRight(f: Formal, s: Channel, r: ReaderRec, env: Env)
    requires Inv(s) && WellFormed(f, s) && Uniform(f, s) && Conforms(f, env) && Good(f, s, r)
    requires Read(f, s, r, env).reader.epoch != 0
    ensures RightIfConfirmed(f, r, Read(f, s, r, env))
  {
    hide Inv, Later, Fetch, Synchronize, Conforms;
    var s0 := Run(s, env(0));
    var s1 := Run(s0, env(1));
    RunUniform(f, s, env, 0);
    RunUniform(f, s0, env, 1);
    SameSize(s, s0);
    SameSize(s0, s1);
    if s1.hdr.epoch != 0 {
      if r.epoch == 0 || r.epoch != s0.hdr.epoch {
        var o := Synchronize(f, s1, r, env);
        SynchronizeStores(f, s1, r, env);
        SynchronizeEnds(f, s1, r, env);
        SameSize(s1, o.channel);
        if o.result == Success {
          NewEpoch(f, s, s0, s1, o.channel, r, o.reader);
          FetchFromOwn(f, o.channel, o.reader, env);
        }
      } else {
        StillOwn(f, s, s0, s1, r);
        FetchFromOwn(f, s1, r, env);
      }
    }
  }

  lemma SameSize(s: Channel, t: Channel)
    requires Later(s, t)
    ensures |t.data| == |s.data|
  {
  }

  lemma StillOwn(f: Formal, s: Channel, s0: Channel, s1: Channel, r: ReaderRec)
    requires Inv(s) && Inv(s0) && Inv(s1) && Later(s, s0) && Later(s0, s1) && Good(f, s, r)
    ensures Good(f, s1, r)
  {
    LaterTransitive(s, s0, s1);
    hide Inv, Later;
    GoodLater(f, s, s1, r);
  }

  lemma SynchronizeEnds(f: Formal, s: Channel, r: ReaderRec, env: Env)
    requires Inv(s)
    ensures var o := Synchronize(f, s, r, env);
      && (o.result == Success ==> o.reader.epoch == o.channel.hdr.epoch && o.reader.rc == 0)
      && (o.result == EpochChanged ==> o.reader.epoch != o.channel.hdr.epoch)
      && o.result in {Success, EpochChanged, IncompatibleInterface}
  {
  }

  lemma FetchFromOwn(f: Formal, s: Channel, r: ReaderRec, env: Env)
    requires Inv(s) && WellFormed(f, s) && Uniform(f, s) && Good(f, s, r)
    ensures Fetch(f, s, r, env).reader.epoch == r.epoch
    ensures r.epoch != 0 ==> RightIfConfirmed(f, r, Fetch(f, s, r, env))
  {
    hide Inv, Fetch;
    FetchIsLater(f, s, r, env);
    if r.epoch != 0 {
      FetchIsRight(f, s, r, env);
    }
  }

  /** A reader that was not in sync ends up in another epoch, if in any. */
  lemma NewEpoch(
      f: Formal, s: Channel, s0: Channel, s1: Channel, t: Channel, r: ReaderRec, r': ReaderRec)
    requires Inv(s) && Inv(s0) && Inv(s1) && Inv(t) && Later(s, s0) && Later(s0, s1) && Later(s1, t)
    requires Good(f, s, r) && Good(f, t, r') && (r.epoch == 0 || r.epoch != s0.hdr.epoch)
    requires r'.epoch == t.hdr.epoch
    ensures r'.epoch != 0 ==> r'.epoch != r.epoch
  {
  }

  /** So calls can follow one another. */
  lemma ReadKeepsGood(f: Formal, s: Channel, r: ReaderRec, env: Env)
    requires Inv(s) && WellFormed(f, s) && Uniform(f, s) && Conforms(f, env) && Good(f, s, r)
    ensures Good(f, Read(f, s, r, env).channel, Read(f, s, r, env).reader)
  {
    hide ActiveInv;
    var s0 := Run(s, env(0));
    var s1 := Run(s0, env(1));
    RunUniform(f, s, env, 0);
    RunUniform(f, s0, env, 1);
    LaterTransitive(s, s0, s1);
    GoodLater(f, s, s1, r);
    if s1.hdr.epoch != 0 {
      if r.epoch == 0 || r.epoch != s0.hdr.epoch {
        var o := Synchronize(f, s1, r, env);
        SynchronizeStores(f, s1, r, env);
        if o.result == Success {
          FetchKeepsGood(f, o.channel, o.reader, env);
        }
      } else {
        FetchKeepsGood(f, s1, r, env);
      }
    }
  }

  lemma GoodLater(f: Formal, s: Channel, t: Channel, r: ReaderRec)
    requires Inv(s) && Inv(t) && Later(s, t) && Good(f, s, r)
    ensures Good(f, t, r)
  {
    if r.epoch != 0 {
      assert Grows(s.epochs[r.epoch], t.epochs[r.epoch]);
    }
  }

  lemma FetchKeepsGood(f: Formal, s: Channel, r: ReaderRec, env: Env)
    requires Inv(s) && WellFormed(f, s) && Good(f, s, r)
    ensures Good(f, Fetch(f, s, r, env).channel, Fetch(f, s, r, env).reader)
  {
    var s8 := Run(s, env(8));
    RunIsLater(s, env(8));
    GoodLater(f, s, s8, r);
    if r.rc < s8.hdr.wc {
      var sc := Copy(f, s8, r.rc, 0, env).0;
      var s9 := Run(sc, env(9));
      CopyIsLater(f, s8, r.rc, 0, env);
      RunIsLater(sc, env(9));
      LaterTransitive(s8, sc, s9);
      if s9.hdr.wsc > r.rc + r.elements {
        SkippedIsGood(f, s8, s9, r, env);
      } else {
        TakenIsGood(f, s8, s9, r, env);
      }
    }
    hide Inv, Good, Later;
  }

  lemma SkippedIsGood(f: Formal, s8: Channel, s9: Channel, r: ReaderRec, env: Env)
    requires Inv(s8) && Inv(s9) && Later(s8, s9) && Good(f, s8, r)
    ensures var s10 := Run(s9, env(10)); Good(f, Run(s10, env(11)), r.(rc := s10.hdr.wc))
  {
    var s10 := Run(s9, env(10));
    RunIsLater(s9, env(10));
    RunIsLater(s10, env(11));
    GoodLater(f, s8, s9, r);
    GoodLater(f, s9, s10, r);
    hide ActiveInv;
    GoodLater(f, s10, Run(s10, env(11)), r.(rc := s10.hdr.wc));
  }

  lemma TakenIsGood(f: Formal, s8: Channel, s9: Channel, r: ReaderRec, env: Env)
    requires Inv(s8) && Inv(s9) && Later(s8, s9) && Good(f, s8, r) && r.rc < s8.hdr.wc
    ensures Good(f, Run(s9, env(11)), r.(rc := r.rc + 1))
  {
    var t := Run(s9, env(11));
    RunIsLater(s9, env(11));
    LaterTransitive(s8, s9, t);
    GoodLater(f, s8, t, r);
    if r.epoch != 0 && r.epoch == t.hdr.epoch {
      StillPublished(s8, t, r);
    }
    hide Inv, Later;
  }

  lemma StillPublished(s: Channel, t: Channel, r: ReaderRec)
    requires Inv(s) && Inv(t) && Later(s, t) && r.rc < s.hdr.wc
    requires r.epoch != 0 && r.epoch in s.epochs && r.epoch == t.hdr.epoch
    ensures r.rc + 1 <= t.hdr.wc
  {
  }

  // ----- what Read does not guarantee -----

  /** Whatever any writers do after the first look at the epoch, all results but
      NoData are right. */
  ghost predicate AlwaysRight(f: Formal, s: Channel, r: ReaderRec)
    requires Inv(s) && WellFormed(f, s)
  {
    forall env: Env :: env(0) == [] ==> RightIfConfirmed(f, r, Read(f, s, r, env))
  }

  /** The same for writers of the reader's own generic. */
  ghost predicate RightAmongInstances(f: Formal, s: Channel, r: ReaderRec)
    requires Inv(s) && WellFormed(f, s)
  {
    forall env: Env :: Conforms(f, env) && env(0) == [] ==> RightIfConfirmed(f, r, Read(f, s, r, env))
  }

  /** Whatever any writers do after the first look at the epoch, the reader
      carries the parameters of its epoch when the call ends. */
  ghost predicate AlwaysGood(f: Formal, s: Channel, r: ReaderRec)
    requires Inv(s) && WellFormed(f, s)
  {
    forall env: Env :: env(0) == [] ==> Good(f, Read(f, s, r, env).channel, Read(f, s, r, env).reader)
  }

  /** Deactivate, initialize the header for the formals f, and open epoch e. */
  function Open(f: Formal, e: nat): seq<Event> {
    [Reset] + SetHeader(f, [Activate(e)] + [])
  }

  /** Deactivate and begin to initialize again, up to both counters. */
  function Stop(f: Formal): seq<Event> {
    [Reset] + SetHeader(f, [])
  }

  function SetHeader(f: Formal, rest: seq<Event>): seq<Event> {
    [SetTransport(MARKER)] + ([SetProtocol(f.protocol)] + ([SetSize(f.size)]
      + ([SetElements(f.elements)] + SetCounters(rest))))
  }

  function SetCounters(rest: seq<Event>): seq<Event> {
    [SetWSC(0)] + ([SetWC(0)] + rest)
  }

  function Opened(s: Channel, f: Formal, e: nat): Channel {
    Channel(Header(e, MARKER, f.protocol, f.size, f.elements, 0, 0), s.data, Ready,
            s.epochs[e := Record(ParamsFor(f), [])])
  }

  lemma RunCons(s: Channel, a: Event, rest: seq<Event>)
    requires Inv(s)
    ensures Inv(Step(s, a)) && Run(s, [a] + rest) == Run(Step(s, a), rest)
  {
    StepKeepsInv(s, a);
    assert ([a] + rest)[1..] == rest;
  }

  lemma {:induction false} RunAppend(s: Channel, a: seq<Event>, b: seq<Event>)
    requires Inv(s)
    ensures Run(s, a + b) == Run(Run(s, a), b)
    decreases |a|
  {
    if a == [] {
      assert a + b == b;
    } else {
      StepKeepsInv(s, a[0]);
      RunAppend(Step(s, a[0]), a[1..], b);
      assert (a + b)[1..] == a[1..] + b;
    }
  }

  lemma OpenRuns(s: Channel, f: Formal, e: nat)
    requires Inv(s) && WellFormed(f, s) && e != 0 && e !in s.epochs
    ensures Run(s, Open(f, e)) == Opened(s, f, e)
  {
    var last := [Activate(e)] + [];
    RunCons(s, Reset, SetHeader(f, last));
    var a := Step(s, Reset);
    var b := a.(hdr := Header(0, MARKER, f.protocol, f.size, f.elements, a.hdr.wsc, a.hdr.wc));
    var c := b.(hdr := Header(0, MARKER, f.protocol, f.size, f.elements, 0, 0));
    HeaderRuns(a, f, last);
    CountersRun(b, last);
    RunCons(c, Activate(e), []);
    assert Step(c, Activate(e)) == Opened(s, f, e);
    hide Inv, SetHeader, SetCounters;
  }

  lemma StopRuns(s: Channel, f: Formal)
    requires Inv(s)
    ensures var t := Run(s, Stop(f));
      && t == s.(hdr := Header(0, MARKER, f.protocol, f.size, f.elements, 0, 0), phase := Setup) && Inv(t)
  {
    RunCons(s, Reset, SetHeader(f, []));
    var a := Step(s, Reset);
    var b := a.(hdr := Header(0, MARKER, f.protocol, f.size, f.elements, a.hdr.wsc, a.hdr.wc));
    HeaderRuns(a, f, []);
    CountersRun(b, []);
    hide Inv, SetHeader, SetCounters;
  }

  lemma HeaderRuns(a: Channel, f: Formal, rest: seq<Event>)
    requires Inv(a) && a.phase == Setup
    ensures var b := a.(hdr := Header(0, MARKER, f.protocol, f.size, f.elements, a.hdr.wsc, a.hdr.wc));
      Inv(b) && Run(a, SetHeader(f, rest)) == Run(b, SetCounters(rest))
  {
    var more := [SetSize(f.size)] + ([SetElements(f.elements)] + SetCounters(rest));
    var b := a.(hdr := a.hdr.(transport := MARKER));
    var c := b.(hdr := b.hdr.(protocol := f.protocol));
    var d := c.(hdr := c.hdr.(size := f.size));
    SetupRun(a, SetTransport(MARKER), b, [SetProtocol(f.protocol)] + more);
    SetupRun(b, SetProtocol(f.protocol), c, more);
    SetupRun(c, SetSize(f.size), d, [SetElements(f.elements)] + SetCounters(rest));
    SetupRun(d, SetElements(f.elements), d.(hdr := d.hdr.(elements := f.elements)), SetCounters(rest));
    assert d.hdr.epoch == 0 by { hide ActiveInv; }
    hide Inv, Run, SetCounters;
  }

  /** One store to the header by a writer that is not active. */
  lemma SetupRun(a: Channel, ev: Event, b: Channel, rest: seq<Event>)
    requires Inv(a) && a.phase == Setup && Step(a, ev) == b
    ensures Inv(b) && Run(a, [ev] + rest) == Run(b, rest)
  {
    RunCons(a, ev, rest);
  }

  lemma CountersRun(a: Channel, rest: seq<Event>)
    requires Inv(a) && a.phase == Setup
    ensures var b := a.(hdr := a.hdr.(wsc := 0, wc := 0));
      Inv(b) && Run(a, SetCounters(rest)) == Run(b, rest)
  {
    var b := a.(hdr := a.hdr.(wsc := 0));
    RunCons(a, SetWSC(0), [SetWC(0)] + rest);
    RunCons(b, SetWC(0), rest);
    hide ActiveInv, Run;
  }

  /** The stores of the cells k and up of a packet. */
  function PutAll(k: nat, size: nat): seq<Event>
    decreases size - k
  {
    if k >= size then [] else [PutCell(0, k)] + PutAll(k + 1, size)
  }

  /** The stores of one packet of null cells. */
  function Append(f: Formal): seq<Event> {
    [Begin([NullElement(f)])] + (PutAll(0, f.size) + [End])
  }

  ghost predicate AllDone(s: Channel) {
    s.phase.Writing? && |s.phase.batch| == 1 && forall i :: 0 <= i < s.hdr.size ==> (0, i) in s.phase.done
  }

  lemma {:induction false} PutAllRuns(s: Channel, k: nat)
    requires Inv(s) && s.phase.Writing? && |s.phase.batch| == 1 && k <= s.hdr.size
    requires forall i :: 0 <= i < k ==> (0, i) in s.phase.done
    ensures var t := Run(s, PutAll(k, s.hdr.size));
      Inv(t) && t.hdr == s.hdr && t.epochs == s.epochs && |t.data| == |s.data| && AllDone(t)
    decreases s.hdr.size - k
  {
    if k < s.hdr.size {
      var t := Step(s, PutCell(0, k));
      RunCons(s, PutCell(0, k), PutAll(k + 1, s.hdr.size));
      PutCellIsLater(s, 0, k);
      assert t.hdr == s.hdr && t.epochs == s.epochs && t.phase.done == s.phase.done + {(0, k)};
      hide Inv;
      PutAllRuns(t, k + 1);
    }
  }

  /** Appending to a channel that was opened just now. */
  lemma AppendRuns(s: Channel, f: Formal, e: nat)
    requires Inv(s) && s.phase == Ready && s.hdr == Header(e, MARKER, f.protocol, f.size, f.elements, 0, 0)
    requires f.elements > 0 && e in s.epochs
    ensures var t := Run(s, Append(f));
      && Inv(t) && t.hdr == Header(e, MARKER, f.protocol, f.size, f.elements, 1, 1)
      && |t.data| == |s.data| && t.epochs.Keys == s.epochs.Keys
  {
    var b := Step(s, Begin([NullElement(f)]));
    RunCons(s, Begin([NullElement(f)]), PutAll(0, f.size) + [End]);
    assert Enabled(s, Begin([NullElement(f)]));
    PutAllRuns(b, 0);
    RunAppend(b, PutAll(0, f.size), [End]);
    var c := Run(b, PutAll(0, f.size));
    RunCons(c, End, []);
    assert [End] == [End] + [];
    EndOf(c);
    hide Inv;
  }

  lemma EndOf(c: Channel)
    requires Inv(c) && AllDone(c)
    ensures Step(c, End) == c.(hdr := c.hdr.(wc := c.hdr.wsc), phase := Ready)
  {
    assert Enabled(c, End);
  }

  /** A writer takes over between the two looks at the epoch at the start of the
      call, opens epoch e with the reader's formals and appends a packet. What
      happens before the epoch is stored, and before the check of WC, is given. */
  function TakeOverAnd(f: Formal, e: nat, beforeEpoch: seq<Event>, beforeWC: seq<Event>): Env {
    (k: nat) =>
      if k == 1 then Open(f, e) + Append(f)
      else if k == 6 then beforeEpoch
      else if k == 8 then beforeWC
      else []
  }

  /** Read does synchronize then, unless it was in sync at its first look; it
      validates the parameters of epoch e and stores what it finds after the
      given events. */
  lemma SynchronizesAgain(
      f: Formal, s: Channel, r: ReaderRec, e: nat, beforeEpoch: seq<Event>, beforeWC: seq<Event>)
    returns (s1: Channel)
    requires Inv(s) && WellFormed(f, s) && e != 0 && e !in s.epochs
    requires r.epoch == 0 || r.epoch != s.hdr.epoch
    ensures Inv(s1) && s1.epochs.Keys == s.epochs.Keys + {e}
    ensures s1.hdr == Header(e, MARKER, f.protocol, f.size, f.elements, 1, 1) && WellFormed(f, s1)
    ensures var s6 := Run(s1, beforeEpoch);
      && Inv(s6) && WellFormed(f, s6)
      && Read(f, s, r, TakeOverAnd(f, e, beforeEpoch, beforeWC))
        == Fetch(f, s6, ReaderRec(s6.hdr.epoch, f.protocol, f.size, f.elements, 0),
                 TakeOverAnd(f, e, beforeEpoch, beforeWC))
  {
    hide *;
    var env := TakeOverAnd(f, e, beforeEpoch, beforeWC);
    QuietAfterwards(f, e, beforeEpoch, beforeWC);
    s1 := OpensWithOne(s, f, e);
    StillFits(f, s, s1);
    NothingHappens(s);
    SynchronizesQuietly(f, s1, e, r, env);
    ReadsAfter(f, s, s1, r, env);
  }

  /** Epoch e is opened and gets its first packet. */
  lemma OpensWithOne(s: Channel, f: Formal, e: nat) returns (t: Channel)
    requires Inv(s) && WellFormed(f, s) && e != 0 && e !in s.epochs
    ensures t == Run(s, Open(f, e) + Append(f)) && Inv(t) && |t.data| == |s.data|
    ensures t.hdr == Header(e, MARKER, f.protocol, f.size, f.elements, 1, 1)
    ensures t.epochs.Keys == s.epochs.Keys + {e}
  {
    RunAppend(s, Open(f, e), Append(f));
    OpenRuns(s, f, e);
    AppendRuns(Opened(s, f, e), f, e);
    t := Run(s, Open(f, e) + Append(f));
    hide Inv, Run, Open, Append, ActiveInv;
  }

  /** Without interference before the epoch is stored, and after it. */
  lemma SynchronizesQuietly(f: Formal, s: Channel, e: nat, r: ReaderRec, env: Env)
    requires Inv(s) && WellFormed(f, s) && s.hdr == Header(e, MARKER, f.protocol, f.size, f.elements, 1, 1)
    requires env(2) == [] && env(3) == [] && env(4) == [] && env(5) == [] && env(7) == []
    ensures var s6 := Run(s, env(6));
      && Inv(s6) && WellFormed(f, s6)
      && Synchronize(f, s, r, env)
        == Outcome(s6, ReaderRec(s6.hdr.epoch, f.protocol, f.size, f.elements, 0), NullElement(f), Success)
  {
    OwnFormalsAreValid(f);
    RunIsLater(s, env(6));
    hide Inv, IsValid, NullElement;
  }

  lemma ReadsAfter(f: Formal, s: Channel, s1: Channel, r: ReaderRec, env: Env)
    requires Inv(s) && WellFormed(f, s) && Run(s, env(0)) == s && s1 == Run(s, env(1))
    requires s1.hdr.epoch != 0 && (r.epoch == 0 || r.epoch != s.hdr.epoch)
    requires Synchronize(f, s1, r, env).result == Success && WellFormed(f, Synchronize(f, s1, r, env).channel)
    ensures var o := Synchronize(f, s1, r, env);
      Read(f, s, r, env) == Fetch(f, o.channel, o.reader, env)
  {
    hide Inv, Synchronize, Fetch;
  }

  lemma {:induction false} QuietCopy(f: Formal, s: Channel, rc: nat, i: nat, env: Env)
    requires Inv(s) && WellFormed(f, s) && i <= f.size
    requires forall k: nat :: k >= 12 ==> env(k) == []
    ensures Copy(f, s, rc, i, env).0 == s
    decreases f.size - i
  {
    if i < f.size {
      QuietCopy(f, s, rc, i + 1, env);
    }
  }

  lemma {:induction false} FreshEpoch(used: set<nat>) returns (e: nat)
    ensures e > 0 && forall u :: u in used ==> u < e
  {
    if used == {} {
      e := 1;
    } else {
      var u :| u in used;
      var above := FreshEpoch(used - {u});
      e := if u < above then above else u + 1;
      assert forall v :: v in used ==> v == u || v in used - {u};
    }
  }

  lemma {:induction false} PutAllConforms(f: Formal, k: nat, size: nat)
    ensures forall j :: 0 <= j < |PutAll(k, size)| ==> PutAll(k, size)[j].PutCell?
    decreases size - k
  {
    if k < size {
      PutAllConforms(f, k + 1, size);
    }
  }

  ghost predicate AllOf(f: Formal, evs: seq<Event>) {
    forall j :: 0 <= j < |evs| ==> OfInstance(f, evs[j])
  }

  lemma AppendConforms(f: Formal)
    ensures AllOf(f, Append(f))
  {
    PutAllConforms(f, 0, f.size);
    forall j: nat | j < |Append(f)| ensures OfInstance(f, Append(f)[j]) {
      if 0 < j <= |PutAll(0, f.size)| {
        assert Append(f)[j] == PutAll(0, f.size)[j - 1];
      }
    }
  }

  lemma OpenConforms(f: Formal, e: nat)
    ensures AllOf(f, Open(f, e)) && AllOf(f, Stop(f)) && AllOf(f, [Reset]) && AllOf(f, [])
  {
  }

  lemma TakeOverConforms(f: Formal, e: nat, beforeEpoch: seq<Event>, beforeWC: seq<Event>)
    requires AllOf(f, beforeEpoch) && AllOf(f, beforeWC)
    ensures Conforms(f, TakeOverAnd(f, e, beforeEpoch, beforeWC))
  {
    AppendConforms(f);
    OpenConforms(f, e);
    BothConform(f, Open(f, e), Append(f));
    hide Open, Append, OfInstance, AllOf;
    var env := TakeOverAnd(f, e, beforeEpoch, beforeWC);
    forall k: nat, j: nat | j < |env(k)| ensures OfInstance(f, env(k)[j]) {
      assert AllOf(f, env(k));
      AtEach(f, env(k), j);
    }
  }

  lemma BothConform(f: Formal, a: seq<Event>, b: seq<Event>)
    requires AllOf(f, a) && AllOf(f, b)
    ensures AllOf(f, a + b)
  {
    hide OfInstance;
  }

  lemma AtEach(f: Formal, evs: seq<Event>, j: nat)
    requires AllOf(f, evs) && j < |evs|
    ensures OfInstance(f, evs[j])
  {
    hide OfInstance;
  }

  /** From every channel: if the reader was not in sync at the first look, a
      writer can take over, and deactivate again before the epoch is stored,
      so that Read ends in Success although the channel is inactive. */
  lemma AcceptsInactiveChannel(f: Formal, s: Channel, r: ReaderRec, e: nat)
    requires Inv(s) && WellFormed(f, s) && e != 0 && e !in s.epochs
    requires r.epoch == 0 || r.epoch != s.hdr.epoch
    ensures var o := Read(f, s, r, TakeOverAnd(f, e, [Reset], []));
      o.result == Success && o.reader.epoch == 0 && o.channel.hdr.epoch == 0 && !Right(f, r, o)
  {
    hide *;
    var env := TakeOverAnd(f, e, [Reset], []);
    QuietAfterwards(f, e, [Reset], []);
    var s1 := SynchronizesAgain(f, s, r, e, [Reset], []);
    var t := ResetRuns(s1);
    FetchesFromInactive(f, t, ReaderRec(0, f.protocol, f.size, f.elements, 0), env);
    NoSuchPacket(f, r, Read(f, s, r, env));
  }

  lemma NoSuchPacket(f: Formal, r: ReaderRec, o: Outcome)
    requires o.result == Success && o.reader.epoch !in o.channel.epochs
    ensures !Right(f, r, o)
  {
  }

  lemma QuietAfterwards(f: Formal, e: nat, beforeEpoch: seq<Event>, beforeWC: seq<Event>)
    ensures var env := TakeOverAnd(f, e, beforeEpoch, beforeWC);
      && env(0) == [] && env(1) == Open(f, e) + Append(f) && env(6) == beforeEpoch && env(8) == beforeWC
      && env(2) == [] && env(3) == [] && env(4) == [] && env(5) == [] && env(7) == []
      && forall k: nat {:trigger env(k)} :: k > 6 && k != 8 ==> env(k) == []
  {
    hide Open, Append;
  }

  lemma ResetRuns(s: Channel) returns (t: Channel)
    requires Inv(s)
    ensures Inv(t) && t == Run(s, [Reset]) && t.hdr == s.hdr.(epoch := 0)
    ensures forall f :: WellFormed(f, t) <==> WellFormed(f, s)
  {
    RunCons(s, Reset, []);
    assert [Reset] == [Reset] + [];
    t := Step(s, Reset);
    hide ActiveInv;
  }

  lemma FetchesFromInactive(f: Formal, t: Channel, r: ReaderRec, env: Env)
    requires Inv(t) && WellFormed(f, t) && t.hdr.epoch == 0 && t.hdr.wc == 1 && t.hdr.wsc == 1
    requires r.epoch == 0 && r.rc == 0 && r.elements == f.elements
    requires forall k: nat {:trigger env(k)} :: k > 6 ==> env(k) == []
    ensures var o := Fetch(f, t, r, env);
      o.result == Success && o.reader.epoch == 0 && o.channel.hdr.epoch == 0
      && o.reader.epoch !in o.channel.epochs
  {
    QuietCopy(f, t, 0, 0, env);
    assert 0 !in t.epochs;
    assert env(8) == [] && env(9) == [] && env(11) == [];
    hide ActiveInv, Inv, Copy;
  }

  /** Exact condition. Whatever follows the first look at the epoch, a call is
      right if and only if at that look the channel was active and in the epoch
      that the reader had already stored. It is the same condition for
      interference by any writers and by writers of the reader's generic. */
  lemma SafeExactlyWhenInSync(f: Formal, s: Channel, r: ReaderRec)
    requires Inv(s) && WellFormed(f, s) && Good(f, s, r)
    requires r.epoch in s.epochs ==> s.epochs[r.epoch].params == ParamsFor(f)
    ensures AlwaysRight(f, s, r) <==> r.epoch == s.hdr.epoch && s.hdr.epoch != 0
    ensures RightAmongInstances(f, s, r) <==> r.epoch == s.hdr.epoch && s.hdr.epoch != 0
  {
    hide ActiveInv;
    if r.epoch == s.hdr.epoch && s.hdr.epoch != 0 {
      forall env: Env | env(0) == []
        ensures RightIfConfirmed(f, r, Read(f, s, r, env))
      {
        var s1 := Run(s, env(1));
        RunIsLater(s, env(1));
        assert Grows(s.epochs[r.epoch], s1.epochs[r.epoch]);
        if s1.hdr.epoch != 0 {
          FetchIsRight(f, s1, r, env);
        }
      }
    } else {
      var e := FreshEpoch(s.epochs.Keys);
      AcceptsInactiveChannel(f, s, r, e);
      OpenConforms(f, e);
      TakeOverConforms(f, e, [Reset], []);
      QuietAfterwards(f, e, [Reset], []);
      hide *;
    }
  }

  // ----- no data -----

  /** No_Data is right if and only if the channel is still in the reader's epoch
      at the access to WC, which Read does not check. */
  lemma NoDataIsRightIff(f: Formal, s: Channel, r: ReaderRec, env: Env)
    requires Inv(s) && WellFormed(f, s) && Good(f, s, r) && Read(f, s, r, env).result == NoData
    ensures var o := Read(f, s, r, env);
      Right(f, r, o) <==> o.reader.epoch != 0 && o.reader.epoch == o.channel.hdr.epoch
  {
    hide Inv, Later, Good, Synchronize, Fetch;
    var s0 := Run(s, env(0));
    var s1 := Run(s0, env(1));
    RunIsLater(s, env(0));
    RunIsLater(s0, env(1));
    if r.epoch == 0 || r.epoch != s0.hdr.epoch {
      var o := Synchronize(f, s1, r, env);
      SynchronizeEnds(f, s1, r, env);
      FetchNoData(f, o.channel, o.reader, env);
    } else {
      StillOwn(f, s, s0, s1, r);
      FetchNoData(f, s1, r, env);
    }
  }

  lemma FetchNoData(f: Formal, s: Channel, r: ReaderRec, env: Env)
    requires Inv(s) && WellFormed(f, s) && Fetch(f, s, r, env).result == NoData
    requires r.rc == 0 || Good(f, s, r)
    ensures var o := Fetch(f, s, r, env);
      o.reader == r && (r.epoch != 0 && r.epoch == o.channel.hdr.epoch ==> r.rc == o.channel.hdr.wc)
  {
    var s8 := Run(s, env(8));
    RunIsLater(s, env(8));
    if r.rc > 0 {
      GoodLater(f, s, s8, r);
    }
    hide Inv, Later, Copy;
  }

  /** What a writer of the reader's generic does so that No_Data is wrong: it
      stops just before the check of WC. If the reader is not in sync, a writer
      has taken over before and appended a packet. */
  function Stopping(f: Formal, s: Channel, r: ReaderRec, e: nat): Env {
    if r.epoch != 0 && r.epoch == s.hdr.epoch then (k: nat) => if k == 8 then Stop(f) else []
    else TakeOverAnd(f, e, [], Stop(f))
  }

  /** From every state Read may report that there are no data although the
      channel is inactive; what was unread of the reader's epoch then is lost in
      silence. */
  lemma NoDataWhenInactive(f: Formal, s: Channel, r: ReaderRec, e: nat)
    requires Inv(s) && WellFormed(f, s) && Good(f, s, r) && e != 0 && e !in s.epochs
    ensures Conforms(f, Stopping(f, s, r, e)) && Stopping(f, s, r, e)(0) == []
    ensures var o, inSync := Read(f, s, r, Stopping(f, s, r, e)), r.epoch != 0 && r.epoch == s.hdr.epoch;
      && o.result == NoData && o.channel.hdr.epoch == 0 && !Right(f, r, o)
      && o.reader.epoch != 0 && o.reader.epoch in o.channel.epochs
      && (inSync ==> o.reader == r)
      && (!inSync || r.rc < s.hdr.wc ==> o.reader.rc < |o.channel.epochs[o.reader.epoch].log|)
  {
    OpenConforms(f, e);
    StoppingConforms(f, s, r, e);
    var env := Stopping(f, s, r, e);
    if r.epoch != 0 && r.epoch == s.hdr.epoch {
      StopRuns(s, f);
      LogLength(s);
      assert env(0) == [] && env(1) == [];
      hide Inv, Stop, Conforms;
    } else {
      var s1 := SynchronizesAgain(f, s, r, e, [], Stop(f));
      LogLength(s1);
      StopRuns(s1, f);
      QuietAfterwards(f, e, [], Stop(f));
      hide *;
      StoppedFetch(f, s1, Run(s1, Stop(f)), ReaderRec(e, f.protocol, f.size, f.elements, 0), env);
      NoDataNoEpoch(f, r, Read(f, s, r, env));
    }
  }

  lemma NoDataNoEpoch(f: Formal, r: ReaderRec, o: Outcome)
    requires o.result == NoData && o.channel.hdr.epoch == 0
    ensures !Right(f, r, o)
  {
  }

  lemma StoppedFetch(f: Formal, s: Channel, t: Channel, r: ReaderRec, env: Env)
    requires Inv(s) && WellFormed(f, s) && t == Run(s, env(8)) && t.hdr.wc == 0
    ensures Fetch(f, s, r, env) == Outcome(t, r, NullElement(f), NoData)
  {
    hide Inv, Copy;
  }

  lemma StoppingConforms(f: Formal, s: Channel, r: ReaderRec, e: nat)
    ensures Conforms(f, Stopping(f, s, r, e)) && Stopping(f, s, r, e)(0) == []
  {
    OpenConforms(f, e);
    TakeOverConforms(f, e, [], Stop(f));
    var env := Stopping(f, s, r, e);
    forall k: nat, j: nat | j < |env(k)| ensures OfInstance(f, env(k)[j]) {
      hide TakeOverAnd, Stop, OfInstance;
    }
  }

  /** So no state is safe for all results. */
  lemma NoDataIsNeverSafe(f: Formal, s: Channel, r: ReaderRec)
    requires Inv(s) && WellFormed(f, s) && Good(f, s, r)
    ensures exists env: Env :: Conforms(f, env) && env(0) == [] && !Right(f, r, Read(f, s, r, env))
  {
    var e := FreshEpoch(s.epochs.Keys);
    NoDataWhenInactive(f, s, r, e);
    hide *;
  }

  // ----- incompatible interfaces -----

  /** Whatever writers follow, a reported mismatch is one of the current epoch. */
  ghost predicate AlwaysMismatch(f: Formal, s: Channel, r: ReaderRec)
    requires Inv(s) && WellFormed(f, s)
  {
    forall env: Env :: env(0) == [] && Read(f, s, r, env).result == IncompatibleInterface ==>
      Right(f, r, Read(f, s, r, env))
  }

  /** A mismatch that is reported is right if one epoch lasted over the accesses
      to the parameters, which Read does not check. */
  lemma MismatchIsRight(f: Formal, s: Channel, r: ReaderRec, env: Env)
    requires Inv(s) && WellFormed(f, s) && Read(f, s, r, env).result == IncompatibleInterface
    ensures var s2, o := Run(Run(Run(s, env(0)), env(1)), env(2)), Read(f, s, r, env);
      s2.hdr.epoch != 0 && s2.hdr.epoch == o.channel.hdr.epoch ==> Right(f, r, o)
  {
    var s1 := Run(Run(s, env(0)), env(1));
    RunIsLater(s, env(0));
    RunIsLater(Run(s, env(0)), env(1));
    hide Inv, Later, IsValid, Fetch, Synchronize;
    MismatchFrom(f, s, s1, r, env);
    SynchronizeMismatch(f, s1, r, env);
  }

  lemma MismatchFrom(f: Formal, s: Channel, s1: Channel, r: ReaderRec, env: Env)
    requires Inv(s) && WellFormed(f, s) && s1 == Run(Run(s, env(0)), env(1)) && Inv(s1) && WellFormed(f, s1)
    requires Read(f, s, r, env).result == IncompatibleInterface
    ensures Synchronize(f, s1, r, env) == Read(f, s, r, env)
  {
    NoMismatch(f, s1, r, env);
    var o := Synchronize(f, s1, r, env);
    if o.result == Success {
      NoMismatch(f, o.channel, o.reader, env);
    }
    hide Inv, Fetch, Synchronize;
  }

  lemma NoMismatch(f: Formal, s: Channel, r: ReaderRec, env: Env)
    requires Inv(s) && WellFormed(f, s)
    ensures Fetch(f, s, r, env).result != IncompatibleInterface
    ensures Synchronize(f, s, r, env).result == Success ==> WellFormed(f, Synchronize(f, s, r, env).channel)
  {
    hide Inv, Copy, Run;
  }

  /** The states of the accesses to the parameters. */
  lemma ParameterStates(f: Formal, s: Channel, r: ReaderRec, env: Env)
    returns (s2: Channel, s3: Channel, s4: Channel, s5: Channel)
    requires Inv(s) && Synchronize(f, s, r, env).result == IncompatibleInterface
    ensures s2 == Run(s, env(2)) && Inv(s2) && Inv(s3) && Inv(s4) && Inv(s5)
    ensures Later(s2, s3) && Later(s3, s4) && Later(s4, s5) && Synchronize(f, s, r, env).channel == s5
    ensures s2.hdr.transport != MARKER || !IsValid(f, s3.hdr.protocol, s4.hdr.size, s5.hdr.elements)
  {
    hide Inv, Later, IsValid;
    s2 := Run(s, env(2));
    s3 := Run(s2, env(3));
    s4 := Run(s3, env(4));
    s5 := Run(s4, env(5));
    RunIsLater(s2, env(3));
    RunIsLater(s3, env(4));
    RunIsLater(s4, env(5));
  }

  lemma SynchronizeMismatch(f: Formal, s: Channel, r: ReaderRec, env: Env)
    requires Inv(s) && Synchronize(f, s, r, env).result == IncompatibleInterface
    ensures var s2, o := Run(s, env(2)), Synchronize(f, s, r, env);
      s2.hdr.epoch != 0 && s2.hdr.epoch == o.channel.hdr.epoch ==>
        o.channel.hdr.epoch in o.channel.epochs && !Compatible(f, o.channel.epochs[o.channel.hdr.epoch].params)
  {
    hide Synchronize, Run, Inv, Later, IsValid;
    var s2, s3, s4, s5 := ParameterStates(f, s, r, env);
    LaterTransitive(s2, s3, s4);
    LaterTransitive(s2, s4, s5);
    LaterTransitive(s3, s4, s5);
    if s2.hdr.epoch != 0 && s2.hdr.epoch == s5.hdr.epoch {
      SameParameters(s2, s5);
      SameBetween(s2, s3, s5);
      SameBetween(s2, s4, s5);
      ParamsOfEpoch(s5);
      OneMismatch(f, s2.hdr, s3.hdr, s4.hdr, s5.hdr, s5.epochs[s5.hdr.epoch].params);
    }
  }

  lemma SameParameters(s: Channel, t: Channel)
    requires Later(s, t) && t.hdr.epoch != 0 && s.hdr.epoch == t.hdr.epoch
    ensures ParamsOf(s.hdr) == ParamsOf(t.hdr)
  {
  }

  lemma OneMismatch(f: Formal, h2: Header, h3: Header, h4: Header, h5: Header, p: Params)
    requires p == ParamsOf(h2) == ParamsOf(h3) == ParamsOf(h4) == ParamsOf(h5)
    requires h2.transport != MARKER || !IsValid(f, h3.protocol, h4.size, h5.elements)
    ensures !Compatible(f, p)
  {
  }

  lemma ParamsOfEpoch(s: Channel)
    requires Inv(s) && s.hdr.epoch != 0
    ensures s.hdr.epoch in s.epochs && s.epochs[s.hdr.epoch].params == ParamsOf(s.hdr)
  {
  }

  /** A writer of the reader's generic takes over, then one of another protocol
      begins to initialize, then again one of the reader's generic. */
  function Passing(f: Formal, e: nat): Env {
    (k: nat) =>
      if k == 1 then Open(f, e) + Append(f)
      else if k == 3 then [Reset, SetProtocol(f.protocol + 1)]
      else if k == 5 then Open(f, e + 1)
      else []
  }

  /** Exact condition for a mismatch: in sync none is reported, and from every
      other state one may be although the interface is the reader's own. */
  lemma MismatchExactlyWhenInSync(f: Formal, s: Channel, r: ReaderRec)
    requires Inv(s) && WellFormed(f, s) && Good(f, s, r)
    ensures AlwaysMismatch(f, s, r) <==> r.epoch == s.hdr.epoch && s.hdr.epoch != 0
  {
    hide ActiveInv;
    if r.epoch == s.hdr.epoch && s.hdr.epoch != 0 {
      forall env: Env | env(0) == []
        ensures Read(f, s, r, env).result != IncompatibleInterface
      {
        RunIsLater(s, env(1));
        NoMismatch(f, Run(s, env(1)), r, env);
      }
      hide Read;
    } else {
      var e := FreshEpoch(s.epochs.Keys);
      MismatchOfOwn(f, s, r, e);
      assert Passing(f, e)(0) == [];
      hide Read, Inv, WellFormed;
    }
  }

  lemma MismatchOfOwn(f: Formal, s: Channel, r: ReaderRec, e: nat)
    requires Inv(s) && WellFormed(f, s) && e != 0 && forall u :: u in s.epochs ==> u < e
    requires r.epoch == 0 || r.epoch != s.hdr.epoch
    ensures var o := Read(f, s, r, Passing(f, e));
      && o.result == IncompatibleInterface && !Right(f, r, o)
      && o.channel.hdr.epoch == e + 1 && ParamsOf(o.channel.hdr) == ParamsFor(f)
  {
    hide *;
    var env := Passing(f, e);
    PassingIs(f, e);
    var s1 := OpensWithOne(s, f, e);
    var s3 := PassingRuns(s1, f);
    StillFits(f, s, s3);
    OpenRuns(s3, f, e + 1);
    OwnFormalsAreValid(f);
    NothingHappens(s);
    MismatchRead(f, s, s1, s3, Opened(s3, f, e + 1), r, env);
    OwnInterface(f, s3, e + 1, r, Read(f, s, r, env));
  }

  lemma StillFits(f: Formal, s: Channel, t: Channel)
    requires WellFormed(f, s) && |t.data| == |s.data|
    ensures WellFormed(f, t)
  {
  }

  lemma PassingIs(f: Formal, e: nat)
    requires e != 0
    ensures var env := Passing(f, e);
      && env(0) == [] && env(1) == Open(f, e) + Append(f) && env(2) == []
      && env(3) == [Reset, SetProtocol(f.protocol + 1)] && env(4) == [] && env(5) == Open(f, e + 1)
  {
    hide Open, Append;
  }

  lemma PassingRuns(s: Channel, f: Formal) returns (t: Channel)
    requires Inv(s)
    ensures t == Run(s, [Reset, SetProtocol(f.protocol + 1)]) && Inv(t)
    ensures t.hdr.protocol == f.protocol + 1 && t.epochs == s.epochs && |t.data| == |s.data|
  {
    RunCons(s, Reset, [SetProtocol(f.protocol + 1)]);
    var a := Step(s, Reset);
    RunCons(a, SetProtocol(f.protocol + 1), []);
    assert [SetProtocol(f.protocol + 1)] == [SetProtocol(f.protocol + 1)] + [];
    assert [Reset, SetProtocol(f.protocol + 1)] == [Reset] + [SetProtocol(f.protocol + 1)];
    t := Step(a, SetProtocol(f.protocol + 1));
    hide ActiveInv;
  }

  lemma MismatchRead(
      f: Formal, s: Channel, s1: Channel, s3: Channel, s5: Channel, r: ReaderRec, env: Env)
    requires Inv(s) && WellFormed(f, s) && Run(s, env(0)) == s && s1 == Run(s, env(1)) && Inv(s1)
    requires s1.hdr.epoch != 0 && (r.epoch == 0 || r.epoch != s.hdr.epoch)
    requires env(2) == [] && env(4) == [] && s3 == Run(s1, env(3)) && Inv(s3) && s5 == Run(s3, env(5))
    requires s3.hdr.protocol == f.protocol + 1
    ensures Read(f, s, r, env) == Outcome(s5, NULL_READER, NullElement(f), IncompatibleInterface)
  {
    hide Inv, Fetch, NullElement;
  }

  lemma OwnInterface(f: Formal, s: Channel, e: nat, r: ReaderRec, o: Outcome)
    requires o.result == IncompatibleInterface && o.channel == Opened(s, f, e)
    ensures !Right(f, r, o) && o.channel.hdr.epoch == e && ParamsOf(o.channel.hdr) == ParamsFor(f)
  {
    OwnFormalsAreValid(f);
  }

  // ----- parameters -----

  /** Exact condition for the parameters. Whatever writers follow, the reader
      carries the parameters of its epoch after the call if and only if at the
      first look the channel was active and in the epoch it had stored. */
  lemma ParametersExactlyWhenInSync(f: Formal, s: Channel, r: ReaderRec)
    requires Inv(s) && WellFormed(f, s) && Good(f, s, r)
    ensures AlwaysGood(f, s, r) <==> r.epoch == s.hdr.epoch && s.hdr.epoch != 0
  {
    hide ActiveInv;
    if r.epoch == s.hdr.epoch && s.hdr.epoch != 0 {
      forall env: Env | env(0) == []
        ensures Good(f, Read(f, s, r, env).channel, Read(f, s, r, env).reader)
      {
        var s1 := Run(s, env(1));
        RunIsLater(s, env(1));
        GoodLater(f, s, s1, r);
        if s1.hdr.epoch != 0 {
          FetchKeepsGood(f, s1, r, env);
        }
      }
    } else {
      var e := FreshEpoch(s.epochs.Keys);
      var other := f.(protocol := f.protocol + 1);
      StoresOtherParameters(f, other, s, r, e);
      var env := TakeOverAnd(f, e, Open(other, e + 1), []);
      assert env(0) == [];
      hide Read, Open, TakeOverAnd;
    }
  }

  /** A writer of another protocol takes over after the parameters of epoch e
      were validated, and opens the next epoch. */
  lemma StoresOtherParameters(f: Formal, other: Formal, s: Channel, r: ReaderRec, e: nat)
    requires Inv(s) && WellFormed(f, s) && e != 0 && forall u :: u in s.epochs ==> u < e
    requires r.epoch == 0 || r.epoch != s.hdr.epoch
    requires other == f.(protocol := f.protocol + 1)
    ensures var o := Read(f, s, r, TakeOverAnd(f, e, Open(other, e + 1), []));
      && o.reader.epoch == e + 1 && e + 1 in o.channel.epochs && o.reader.protocol == f.protocol
      && o.channel.epochs[e + 1].params.protocol == other.protocol
      && !Good(f, o.channel, o.reader)
  {
    hide *;
    var env := TakeOverAnd(f, e, Open(other, e + 1), []);
    QuietAfterwards(f, e, Open(other, e + 1), []);
    var s1 := SynchronizesAgain(f, s, r, e, Open(other, e + 1), []);
    WellFormedFor(f, other, s1);
    OpenRuns(s1, other, e + 1);
    OtherParameters(f, other, s1, e + 1);
    FetchesNothing(f, Opened(s1, other, e + 1),
                   ReaderRec(e + 1, f.protocol, f.size, f.elements, 0), env);
  }

  lemma WellFormedFor(f: Formal, other: Formal, s: Channel)
    requires other.size == f.size && other.elements == f.elements
    ensures WellFormed(f, s) == WellFormed(other, s)
  {
  }

  lemma OtherParameters(f: Formal, other: Formal, s: Channel, e: nat)
    requires e != 0 && other.protocol != f.protocol
    ensures var t := Opened(s, other, e);
      && t.hdr.epoch == e && t.hdr.wc == 0 && e in t.epochs
      && t.epochs[e].params.protocol == other.protocol
      && !Good(f, t, ReaderRec(e, f.protocol, f.size, f.elements, 0))
  {
  }

  lemma FetchesNothing(f: Formal, t: Channel, r: ReaderRec, env: Env)
    requires Inv(t) && WellFormed(f, t) && r.rc >= t.hdr.wc && env(8) == []
    ensures Fetch(f, t, r, env) == Outcome(t, r, NullElement(f), NoData)
  {
  }

  // ----- two concrete runs -----

  const TWO_CELLS := Formal(7, 2, 1)

  /** One packet [1, 1] in a channel of a single element, written in epoch 1. */
  const ONE_PACKET: Channel := Channel(
    Header(1, MARKER, 7, 2, 1, 1, 1), [1, 1], Ready,
    map[1 := Record(Params(MARKER, 7, 2, 1), [[1, 1]])])

  lemma OnePacketInv()
    ensures Inv(ONE_PACKET) && Uniform(TWO_CELLS, ONE_PACKET)
  {
    forall p: nat, i: nat | p < 1 && i < 2 ensures Holds(ONE_PACKET, p, i) {
    }
  }

  /** The next writer clears the second cell while it is being read. */
  function ClearWhileReading(): Env {
    (k: nat) => if k == 6 then [Reset, SetWSC(0)] else if k == 13 then [SetCell(1, NULL_CELL)] else []
  }

  /** The region after the reset, and after the second cell was cleared. */
  const DURING_RESET: Channel :=
    ONE_PACKET.(hdr := Header(0, MARKER, 7, 2, 1, 0, 1), phase := Setup)
  const CLEARED: Channel := DURING_RESET.(data := [1, 0])

  /** The reader after its synchronization with this region. */
  const TORN_READER := ReaderRec(0, 7, 2, 1, 0)

  lemma ClearingRuns()
    ensures Inv(ONE_PACKET) && Inv(DURING_RESET) && Inv(CLEARED)
    ensures Run(ONE_PACKET, [Reset, SetWSC(0)]) == DURING_RESET
    ensures Run(DURING_RESET, [SetCell(1, NULL_CELL)]) == CLEARED
  {
    OnePacketInv();
    RunCons(ONE_PACKET, Reset, [SetWSC(0)]);
    RunCons(Step(ONE_PACKET, Reset), SetWSC(0), []);
    assert [Reset, SetWSC(0)] == [Reset] + ([SetWSC(0)] + []);
    RunCons(DURING_RESET, SetCell(1, NULL_CELL), []);
    assert [SetCell(1, NULL_CELL)] == [SetCell(1, NULL_CELL)] + [];
  }

  lemma TornCopy()
    ensures Inv(DURING_RESET)
    ensures Copy(TWO_CELLS, DURING_RESET, 0, 0, ClearWhileReading()) == (CLEARED, [1, 0])
  {
    ClearingRuns();
    var f, env := TWO_CELLS, ClearWhileReading();
    CopyOne(f, CLEARED, CLEARED, 2, env);
    CopyOne(f, DURING_RESET, CLEARED, 1, env);
    CopyOne(f, DURING_RESET, DURING_RESET, 0, env);
    assert [0 as Cell] + [] == [0] && [1 as Cell] + [0] == [1, 0];
    assert Copy(f, DURING_RESET, 0, 1, env) == (CLEARED, [0]) by { hide Inv; }
    assert DURING_RESET.data[0] == 1;
  }

  /** One cell of the example's packet 0. */
  lemma CopyOne(f: Formal, s: Channel, t: Channel, i: nat, env: Env)
    requires f == TWO_CELLS && i <= 2
    requires Inv(s) && |s.data| == 2 && Inv(t) && |t.data| == 2 && Run(s, env(12 + i)) == t
    ensures i == 2 ==> Copy(f, s, 0, i, env) == (s, [])
    ensures i < 2 ==>
      Copy(f, s, 0, i, env) == (Copy(f, t, 0, i + 1, env).0, [t.data[i]] + Copy(f, t, 0, i + 1, env).1)
  {
    hide Inv;
    assert Addr(1, 2, 0, i) == i;
  }

  /** A torn element, half a packet and half null, is returned as Success. */
  lemma TornElement()
    ensures Inv(ONE_PACKET)
    ensures Conforms(TWO_CELLS, ClearWhileReading())
    ensures var o := Read(TWO_CELLS, ONE_PACKET, NULL_READER, ClearWhileReading());
      o.result == Success && o.element == [1, 0]
      && forall e :: e in o.channel.epochs ==> [1, 0] !in o.channel.epochs[e].log
  {
    ClearingRuns();
    TornSynchronize();
    TornFetch();
    hide Inv, Synchronize, Fetch, Run, Copy;
    assert ClearWhileReading()(0) == [] && ClearWhileReading()(1) == [];
    NothingHappens(ONE_PACKET);
  }

  lemma NothingHappens(s: Channel)
    requires Inv(s)
    ensures Run(s, []) == s
  {
  }

  lemma TornSynchronize()
    ensures Inv(ONE_PACKET)
    ensures Synchronize(TWO_CELLS, ONE_PACKET, NULL_READER, ClearWhileReading())
      == Outcome(DURING_RESET, TORN_READER, NullElement(TWO_CELLS), Success)
  {
    ClearingRuns();
    NothingHappens(ONE_PACKET);
    NothingHappens(DURING_RESET);
    hide Inv, Run, NullElement;
    var env := ClearWhileReading();
    assert env(2) == [] && env(3) == [] && env(4) == [] && env(5) == [] && env(7) == [];
    assert env(6) == [Reset, SetWSC(0)];
  }

  lemma TornFetch()
    ensures Inv(DURING_RESET)
    ensures Fetch(TWO_CELLS, DURING_RESET, TORN_READER, ClearWhileReading())
      == Outcome(CLEARED, TORN_READER.(rc := 1), [1, 0], Success)
  {
    ClearingRuns();
    TornCopy();
    NothingHappens(DURING_RESET);
    NothingHappens(CLEARED);
    hide Inv, Run, NullElement, Copy;
    var env := ClearWhileReading();
    assert env(8) == [] && env(9) == [] && env(11) == [];
  }

  /** A writer of another protocol takes over before the epoch is stored. */
  function TakeOver(): Env {
    (k: nat) => if k == 6 then [Reset, SetProtocol(8), SetWSC(0), SetWC(0), Activate(2)] else []
  }

  const TAKEN_OVER: Channel := Channel(
    Header(2, MARKER, 8, 2, 1, 0, 0), [1, 1], Ready,
    ONE_PACKET.epochs[2 := Record(Params(MARKER, 8, 2, 1), [])])

  lemma TakeOverRuns()
    ensures Inv(ONE_PACKET)
    ensures Run(ONE_PACKET, TakeOver()(6)) == TAKEN_OVER
  {
    OnePacketInv();
    var a := Step(ONE_PACKET, Reset);
    RunCons(ONE_PACKET, Reset, [SetProtocol(8)] + ([SetWSC(0)] + ([SetWC(0)] + ([Activate(2)] + []))));
    var b := Step(a, SetProtocol(8));
    RunCons(a, SetProtocol(8), [SetWSC(0)] + ([SetWC(0)] + ([Activate(2)] + [])));
    var c := Step(b, SetWSC(0));
    RunCons(b, SetWSC(0), [SetWC(0)] + ([Activate(2)] + []));
    var d := Step(c, SetWC(0));
    RunCons(c, SetWC(0), [Activate(2)] + []);
    RunCons(d, Activate(2), []);
    assert Step(d, Activate(2)) == TAKEN_OVER;
    assert TakeOver()(6)
        == [Reset] + ([SetProtocol(8)] + ([SetWSC(0)] + ([SetWC(0)] + ([Activate(2)] + []))));
  }

  /** If writers may differ, Read stores parameters of one epoch with the
      number of another: here the reader expects protocol 7, and carries it,
      in an epoch of protocol 8. */
  lemma ParametersOfAnotherEpoch()
    ensures Inv(ONE_PACKET)
    ensures var o := Read(TWO_CELLS, ONE_PACKET, NULL_READER, TakeOver());
      && o.result == NoData && o.reader.epoch == 2 == o.channel.hdr.epoch && 2 in o.channel.epochs
      && o.reader.protocol == 7 && o.channel.epochs[2].params.protocol == 8
  {
    TakeOverRuns();
    hide Inv;
    var f, env := TWO_CELLS, TakeOver();
    var o := Synchronize(f, ONE_PACKET, NULL_READER, env);
    assert o == Outcome(TAKEN_OVER, ReaderRec(2, 7, 2, 1, 0), NullElement(f), Success);
    assert Run(TAKEN_OVER, env(8)) == TAKEN_OVER;
  }

  /** Between the accesses to size and elements the channel goes from one packet
      of two cells to two packets of one cell. */
  const RESHAPED := Formal(7, 1, 2)

  function Reshape(): Env {
    (k: nat) => if k == 5 then Open(RESHAPED, 2) else []
  }

  /** Two epochs that the reader accepts, and a mismatch put together from both. */
  lemma TornParameters()
    ensures Inv(ONE_PACKET)
    ensures var o := Read(TWO_CELLS, ONE_PACKET, NULL_READER, Reshape());
      && o.result == IncompatibleInterface && o.channel.epochs.Keys == {1, 2} && o.channel.hdr.epoch == 2
      && Compatible(TWO_CELLS, o.channel.epochs[1].params) && Compatible(TWO_CELLS, o.channel.epochs[2].params)
  {
    OnePacketInv();
    OpenRuns(ONE_PACKET, RESHAPED, 2);
    hide Inv, Open;
    var env := Reshape();
    assert env(0) == [] && env(1) == [] && env(2) == [] && env(3) == [] && env(4) == [];
    assert env(5) == Open(RESHAPED, 2);
    var o := Synchronize(TWO_CELLS, ONE_PACKET, NULL_READER, env);
    assert o == Outcome(Opened(ONE_PACKET, RESHAPED, 2), NULL_READER, NullElement(TWO_CELLS), IncompatibleInterface);
  }
}
