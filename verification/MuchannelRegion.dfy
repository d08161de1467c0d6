/** The channel object of Muchannel: header fields and data that the writer's
    procedures update in place, and Read as it accesses them, against the
    protocol's runs and the function Muchannel.Read. */
module MuchannelRegion {
  import opened ShmStream
  import opened Muchannel

  class Region {
    var epoch: nat
    var transport: nat
    var protocol: nat
    var size: nat
    var elements: nat
    var wsc: nat
    var wc: nat
    const data: array<Cell>
    /** Control state of the writer and the epochs so far; no procedure of the
        source looks at them. */
    var phase: Phase
    var epochs: map<nat, Record>

    ghost function View(): Channel
      reads this, data
    {
      Channel(Header(epoch, transport, protocol, size, elements, wsc, wc), data[..], phase, epochs)
    }

    /** One writer step, as seen by a reader between two of its accesses. */
    method Apply(ev: Event)
      requires Inv(View())
      modifies this, data
      ensures View() == Step(old(View()), ev)
    {
      match ev
      case Reset => epoch := 0; phase := Setup;
      case SetTransport(v) => if phase.Setup? { transport := v; }
      case SetProtocol(v) => if phase.Setup? { protocol := v; }
      case SetSize(v) => if phase.Setup? { size := v; }
      case SetElements(v) => if phase.Setup? { elements := v; }
      case SetWSC(v) => if phase.Setup? { wsc := v; }
      case SetWC(v) => if phase.Setup? { wc := v; }
      case SetCell(at, c) => if phase.Setup? && at < data.Length { data[at] := c; }
      case Activate(e) =>
        if phase.Setup? && e != 0 && e !in epochs && wsc == 0 && wc == 0
           && elements > 0 && elements * size <= data.Length {
          epoch := e;
          phase := Ready;
          epochs := epochs[e := Record(Params(transport, protocol, size, elements), [])];
        }
      case _ => ApplyBatch(ev);
    }

    /** The events of writing packets. */
    method ApplyBatch(ev: Event)
      requires Inv(View()) && (ev.Begin? || ev.PutCell? || ev.End?)
      modifies this, data
      ensures View() == Step(old(View()), ev)
    {
      match ev
      case Begin(batch) =>
        if phase.Ready? && 0 < |batch| <= elements
           && forall j :: 0 <= j < |batch| ==> |batch[j]| == size {
          wsc := wc + |batch|;
          phase := Writing(batch, {});
          epochs := epochs[epoch := epochs[epoch].(log := epochs[epoch].log + batch)];
        }
      case PutCell(j, i) =>
        if phase.Writing? && j < |phase.batch| && i < size {
          AddrInside(elements, size, wc + j, i, data.Length);
          data[Addr(elements, size, wc + j, i)] := phase.batch[j][i];
          phase := phase.(done := phase.done + {(j, i)});
        }
      case End =>
        if phase.Writing?
           && forall j, i :: 0 <= j < |phase.batch| && 0 <= i < size ==> (j, i) in phase.done {
          wc := wsc;
          phase := Ready;
        }
    }

    method Interfere(evs: seq<Event>)
      requires Inv(View())
      modifies this, data
      ensures View() == Run(old(View()), evs)
    {
      for k := 0 to |evs|
        invariant Inv(View()) && View() == Run(old(View()), evs[..k])
      {
        RunSnoc(old(View()), evs[..k], evs[k]);
        assert evs[..k + 1] == evs[..k] + [evs[k]];
        StepKeepsInv(View(), evs[k]);
        Apply(evs[k]);
      }
      assert evs[..|evs|] == evs;
    }

    method Deactivate()
      requires Inv(View())
      modifies this
      ensures View() == Run(old(View()), [Reset])
    {
      RunCons(View(), Reset, []);
      assert [Reset] == [Reset] + [];
      epoch := 0;
      phase := Setup;
    }

    /** Initialize channel with given epoch, which must be a new one. */
    method Initialize(f: Formal, e: nat)
      requires Inv(View())
      requires f.elements > 0 && f.elements * f.size <= data.Length
      requires e != 0 && e !in epochs
      modifies this, data
      ensures Inv(View())
      ensures exists evs :: AllOf(f, evs) && View() == Run(old(View()), evs)
      ensures View().hdr == Header(e, MARKER, f.protocol, f.size, f.elements, 0, 0)
      ensures phase == Ready && epochs == old(epochs)[e := Record(ParamsFor(f), [])]
      ensures forall at :: 0 <= at < f.elements * f.size ==> data[at] == NULL_CELL
      ensures forall at :: f.elements * f.size <= at < data.Length ==> data[at] == old(data[at])
    {
      hide Inv, Run, AllOf;
      ghost var start := View();
      ghost var evs := SetHeader(start, f);
      evs := SetCounters(start, f, evs);
      evs := ClearData(start, f, evs);
      ghost var before := View();
      epoch := e;
      phase, epochs := Ready, epochs[e := Record(ParamsFor(f), [])];
      assert View() == Step(before, Activate(e));
      AllOfSnoc(f, evs, Activate(e));
      evs := Extended(start, evs, before, Activate(e));
      hide Step;
    }

    /** Initialize channel data. */
    method ClearData(ghost start: Channel, f: Formal, ghost evs: seq<Event>) returns (ghost evs': seq<Event>)
      requires Inv(start) && Inv(View()) && View() == Run(start, evs) && AllOf(f, evs) && phase == Setup
      requires f.elements * f.size <= data.Length
      modifies data
      ensures Inv(View()) && View() == Run(start, evs') && AllOf(f, evs')
      ensures forall at :: 0 <= at < f.elements * f.size ==> data[at] == NULL_CELL
      ensures forall at :: f.elements * f.size <= at < data.Length ==> data[at] == old(data[at])
    {
      hide Inv, Run, AllOf;
      evs' := evs;
      for at := 0 to f.elements * f.size
        invariant Inv(View()) && View() == Run(start, evs') && AllOf(f, evs')
        invariant forall a :: 0 <= a < at ==> data[a] == NULL_CELL
        invariant forall a :: at <= a < data.Length ==> data[a] == old(data[a])
      {
        ghost var before := View();
        data[at] := NULL_CELL;
        assert View() == Step(before, SetCell(at, NULL_CELL));
        AllOfSnoc(f, evs', SetCell(at, NULL_CELL));
        evs' := Extended(start, evs', before, SetCell(at, NULL_CELL));
      }
    }

    /** Deactivate previous epoch, initialize the parameters in the header. */
    method SetHeader(ghost start: Channel, f: Formal) returns (ghost evs: seq<Event>)
      requires Inv(start) && View() == start
      modifies this
      ensures Inv(View()) && View() == Run(start, evs) && AllOf(f, evs)
      ensures View().hdr == Header(0, MARKER, f.protocol, f.size, f.elements, old(wsc), old(wc))
      ensures phase == Setup && epochs == old(epochs)
    {
      hide Inv, Run, AllOf;
      epoch := 0;
      phase := Setup;
      ghost var s0 := View();
      RunNothing(start);
      evs := Extended(start, [], start, Reset);
      transport := MARKER;
      ghost var s1 := View();
      HeaderStored(s0, SetTransport(MARKER), s1);
      evs := Extended(start, evs, s0, SetTransport(MARKER));
      hide Step;
      protocol := f.protocol;
      ghost var s2 := View();
      HeaderStored(s1, SetProtocol(f.protocol), s2);
      evs := Extended(start, evs, s1, SetProtocol(f.protocol));
      size := f.size;
      ghost var s3 := View();
      HeaderStored(s2, SetSize(f.size), s3);
      evs := Extended(start, evs, s2, SetSize(f.size));
      elements := f.elements;
      HeaderStored(s3, SetElements(f.elements), View());
      evs := Extended(start, evs, s3, SetElements(f.elements));
      HeaderConforms(f, evs);
    }

    method SetCounters(ghost start: Channel, f: Formal, ghost evs: seq<Event>) returns (ghost evs': seq<Event>)
      requires Inv(start) && Inv(View()) && View() == Run(start, evs) && AllOf(f, evs) && phase == Setup
      modifies this`wsc, this`wc
      ensures Inv(View()) && View() == Run(start, evs') && AllOf(f, evs')
      ensures View() == old(View()).(hdr := old(View()).hdr.(wsc := 0, wc := 0))
    {
      hide Inv, Run, AllOf;
      ghost var s0 := View();
      AllOfSnoc(f, evs, SetWSC(0));
      AllOfSnoc(f, evs + [SetWSC(0)], SetWC(0));
      wsc := 0;
      ghost var s1 := View();
      evs' := Extended(start, evs, s0, SetWSC(0));
      wc := 0;
      evs' := Extended(start, evs', s1, SetWC(0));
    }

    /** Write element to given channel: WSC first, then the data, then WC. */
    method Write(element: Packet)
      requires Inv(View()) && phase == Ready && |element| == size
      modifies this, data
      ensures Inv(View())
      ensures exists evs :: View() == Run(old(View()), evs)
      ensures View().hdr == old(View()).hdr.(wc := old(wc) + 1, wsc := old(wc) + 1)
      ensures phase == Ready
      ensures epoch in old(epochs)
      ensures epochs == old(epochs)[epoch :=
        old(epochs[epoch]).(log := old(epochs[epoch]).log + [element])]
    {
      ghost var start := View();
      Dimensions(start);
      hide Inv, Run;
      var position := wc % elements;
      var count := wc + 1;
      wsc := count;
      phase, epochs := Writing([element], {}),
        epochs[epoch := epochs[epoch].(log := epochs[epoch].log + [element])];
      BeginIs(start, View(), element);
      ghost var evs := Extended(start, [], start, Begin([element]));
      RunNothing(start);
      hide Step;
      evs := PutElement(start, evs, element, position);
      ghost var before := View();
      wc := count;
      phase := Ready;
      EndIs(before, View());
      evs := Extended(start, evs, before, End);
    }

    /** Channel.Data (Position) := Element, one cell at a time. */
    method PutElement(ghost start: Channel, ghost evs: seq<Event>, element: Packet, position: nat)
      returns (ghost evs': seq<Event>)
      requires Inv(start) && Inv(View()) && View() == Run(start, evs)
      requires phase == Writing([element], {}) && |element| == size
      requires epoch != 0 && elements > 0 && position == wc % elements
      modifies this`phase, data
      ensures Inv(View()) && View() == Run(start, evs')
      ensures phase == Writing([element], Cells(size))
    {
      Dimensions(View());
      hide Inv, Run, Step, Cells;
      CellsNext(0);
      evs' := evs;
      for i := 0 to size
        invariant Inv(View()) && View() == Run(start, evs')
        invariant phase == Writing([element], Cells(i))
      {
        ghost var before := View();
        AddrInside(elements, size, wc, i, data.Length);
        data[position * size + i] := element[i];
        phase := phase.(done := phase.done + {(0, i)});
        CellsNext(i);
        PutCellIs(before, View(), i, element);
        evs' := Extended(start, evs', before, PutCell(0, i));
      }
    }

    /** Read next element from given channel. The writer performs env(k) just
        before access k, at any of the accesses. */
    method Read(f: Formal, reader: ReaderRec, env: Env)
      returns (reader': ReaderRec, element: Packet, result: Result)
      requires Inv(View()) && WellFormed(f, View())
      modifies this, data
      ensures Outcome(View(), reader', element, result)
           == Muchannel.Read(f, old(View()), reader, env)
    {
      hide Inv;
      reader' := reader;
      Interfere(env(0));
      var channelEpoch := epoch;
      element := NullElement(f);
      Interfere(env(1));
      var active := epoch != 0;
      if !active {
        reader' := reader'.(epoch := 0);
        result := Inactive;
        return;
      }
      if reader'.epoch == 0 || reader'.epoch != channelEpoch {
        Interfere(env(2));
        var marker := transport;
        Interfere(env(3));
        reader' := reader'.(protocol := protocol);
        Interfere(env(4));
        reader' := reader'.(size := size);
        Interfere(env(5));
        reader' := reader'.(elements := elements);
        if marker == MARKER && IsValid(f, reader'.protocol, reader'.size, reader'.elements) {
          Interfere(env(6));
          reader' := reader'.(epoch := epoch, rc := 0);
          Interfere(env(7));
          channelEpoch := epoch;
          result := if reader'.epoch != channelEpoch then EpochChanged else Success;
        } else {
          reader' := NULL_READER;
          result := IncompatibleInterface;
        }
        if result != Success {
          return;
        }
      }
      reader', element, result := FetchNext(f, reader', env);
    }

    /** The rest of Read, from the check of WC on. */
    method FetchNext(f: Formal, reader: ReaderRec, env: Env)
      returns (reader': ReaderRec, element: Packet, result: Result)
      requires Inv(View()) && WellFormed(f, View())
      modifies this, data
      ensures Outcome(View(), reader', element, result) == Fetch(f, old(View()), reader, env)
    {
      hide Inv;
      reader' := reader;
      element := NullElement(f);
      Interfere(env(8));
      var count := wc;
      if reader'.rc >= count {
        result := NoData;
        return;
      }
      element := CopyElement(f, reader'.rc, env);
      Interfere(env(9));
      count := wsc;
      if count > reader'.rc + reader'.elements {
        result := OverrunDetected;
        Interfere(env(10));
        reader' := reader'.(rc := wc);
      } else {
        result := Success;
        reader' := reader'.(rc := reader'.rc + 1);
      }
      Interfere(env(11));
      var channelEpoch := epoch;
      if reader'.epoch != channelEpoch {
        result := EpochChanged;
      }
    }

    /** Element := Channel.Data (Position), one cell at a time. */
    method CopyElement(f: Formal, rc: nat, env: Env) returns (element: Packet)
      requires Inv(View()) && WellFormed(f, View())
      modifies this, data
      ensures (View(), element) == Copy(f, old(View()), rc, 0, env)
    {
      hide Inv, Copy, Run;
      var position := rc % f.elements;
      element := [];
      ghost var all := Copy(f, View(), rc, 0, env);
      for i := 0 to f.size
        invariant Inv(View()) && WellFormed(f, View()) && |all.1| == f.size
        invariant Copy(f, View(), rc, i, env) == (all.0, all.1[i..]) && element == all.1[..i]
      {
        ghost var before := View();
        Interfere(env(12 + i));
        RunIsLater(before, env(12 + i));
        AddrInside(f.elements, f.size, rc, i, data.Length);
        CopyContinues(f, before, View(), rc, i, env, all);
        element := element + [data[position * f.size + i]];
      }
      CopyEnds(f, View(), rc, env);
      assert all.1[..f.size] == all.1;
    }
  }

  /** The first cells of a single packet. */
  function Cells(n: nat): set<(nat, nat)> {
    set k: nat | k < n :: (0, k)
  }

  lemma CellsNext(n: nat)
    ensures Cells(0) == {} && Cells(n + 1) == Cells(n) + {(0, n)}
  {
  }

  /** A run extended by one store. */
  lemma Extended(start: Channel, evs: seq<Event>, before: Channel, ev: Event) returns (evs': seq<Event>)
    requires Inv(start) && Inv(before) && before == Run(start, evs)
    ensures evs' == evs + [ev] && Inv(Step(before, ev)) && Run(start, evs') == Step(before, ev)
  {
    StepKeepsInv(before, ev);
    RunSnoc(start, evs, ev);
    evs' := evs + [ev];
  }

  lemma RunNothing(s: Channel)
    requires Inv(s)
    ensures Run(s, []) == s
  {
  }

  lemma AllOfSnoc(f: Formal, evs: seq<Event>, ev: Event)
    requires AllOf(f, evs) && OfInstance(f, ev)
    ensures AllOf(f, evs + [ev])
  {
  }

  /** A store to the header while no epoch is active is the writer's event. */
  lemma HeaderStored(s: Channel, ev: Event, t: Channel)
    requires Inv(s) && s.phase == Setup
    requires match ev
      case SetTransport(v) => t == s.(hdr := s.hdr.(transport := v))
      case SetProtocol(v) => t == s.(hdr := s.hdr.(protocol := v))
      case SetSize(v) => t == s.(hdr := s.hdr.(size := v))
      case SetElements(v) => t == s.(hdr := s.hdr.(elements := v))
      case _ => false
    ensures Step(s, ev) == t
  {
    hide Inv;
  }

  lemma HeaderConforms(f: Formal, evs: seq<Event>)
    requires evs == [] + [Reset] + [SetTransport(MARKER)] + [SetProtocol(f.protocol)]
      + [SetSize(f.size)] + [SetElements(f.elements)]
    ensures AllOf(f, evs)
  {
  }

  lemma BeginIs(s: Channel, t: Channel, element: Packet)
    requires Inv(s) && s.phase == Ready && s.hdr.epoch in s.epochs && s.hdr.elements > 0
    requires |element| == s.hdr.size
    requires t == s.(hdr := s.hdr.(wsc := s.hdr.wc + 1), phase := Writing([element], {}),
                     epochs := s.epochs[s.hdr.epoch := Record(s.epochs[s.hdr.epoch].params,
                                                              s.epochs[s.hdr.epoch].log + [element])])
    ensures Step(s, Begin([element])) == t
  {
    hide Inv;
  }

  lemma EndIs(s: Channel, t: Channel)
    requires Inv(s) && s.phase.Writing? && |s.phase.batch| == 1
    requires forall k :: 0 <= k < s.hdr.size ==> (0, k) in s.phase.done
    requires t == s.(hdr := s.hdr.(wc := s.hdr.wsc), phase := Ready)
    ensures Step(s, End) == t
  {
    hide Inv;
  }

  /** Storing a cell is the writer's event. */
  lemma PutCellIs(s: Channel, t: Channel, i: nat, element: Packet)
    requires Inv(s) && s.phase.Writing? && s.phase.batch == [element] && i < s.hdr.size == |element|
    requires s.hdr.elements > 0 && Addr(s.hdr.elements, s.hdr.size, s.hdr.wc, i) < |s.data|
    requires t == s.(data := s.data[Addr(s.hdr.elements, s.hdr.size, s.hdr.wc, i) := element[i]],
                     phase := Writing([element], s.phase.done + {(0, i)}))
    ensures Step(s, PutCell(0, i)) == t
  {
    assert s.hdr.wc + 0 == s.hdr.wc;
    hide Inv;
  }

  lemma CopyEnds(f: Formal, s: Channel, rc: nat, env: Env)
    requires Inv(s) && WellFormed(f, s)
    ensures Copy(f, s, rc, f.size, env) == (s, [])
  {
  }

  lemma CopyContinues(
      f: Formal, s: Channel, t: Channel, rc: nat, i: nat, env: Env, all: (Channel, seq<Cell>))
    requires Inv(s) && WellFormed(f, s) && i < f.size == |all.1|
    requires t == Run(s, env(12 + i)) && WellFormed(f, t)
    requires Copy(f, s, rc, i, env) == (all.0, all.1[i..])
    ensures Addr(f.elements, f.size, rc, i) < |t.data|
    ensures Copy(f, t, rc, i + 1, env) == (all.0, all.1[i + 1..])
    ensures all.1[..i + 1] == all.1[..i] + [t.data[Addr(f.elements, f.size, rc, i)]]
  {
    hide Inv;
    AddrInside(f.elements, f.size, rc, i, |t.data|);
    var rest := Copy(f, t, rc, i + 1, env);
    assert all.1[i..] == [t.data[Addr(f.elements, f.size, rc, i)]] + rest.1;
    assert all.1[i..][0] == all.1[i] && all.1[i..][1..] == all.1[i + 1..];
  }

  lemma Dimensions(s: Channel)
    requires Inv(s) && !s.phase.Setup?
    ensures s.hdr.epoch != 0 && s.hdr.epoch in s.epochs
    ensures s.hdr.elements > 0 && s.hdr.elements * s.hdr.size <= |s.data|
  {
  }

  lemma {:induction false} RunSnoc(s: Channel, evs: seq<Event>, ev: Event)
    requires Inv(s)
    ensures Run(s, evs + [ev]) == Step(Run(s, evs), ev)
    decreases |evs|
  {
    if evs == [] {
      RunCons(s, ev, []);
      assert evs + [ev] == [ev] + [];
    } else {
      StepKeepsInv(s, evs[0]);
      RunSnoc(Step(s, evs[0]), evs[1..], ev);
      assert (evs + [ev])[1..] == evs[1..] + [ev];
    }
  }
}
