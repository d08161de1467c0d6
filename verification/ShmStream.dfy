/** The shared memory region of an SHMStream version 2 channel and its writer.

    Every shared access of the writer is one event, so a run is a sequence of
    events and a reader may look at the region between any two of them.
    Packets are written cell by cell, in any order and several at a time. */
module ShmStream {

  newtype Cell = c: int | 0 <= c < 256
  type Packet = seq<Cell>

  const MARKER: nat := 0x4873_12b6_b79a_9b6d

  /** The header. WSC and WC are atomic, as is Epoch; 0 is the null epoch. */
  datatype Header = Header(
    epoch: nat, transport: nat, protocol: nat, size: nat, elements: nat, wsc: nat, wc: nat)

  datatype Params = Params(transport: nat, protocol: nat, size: nat, elements: nat)

  /** What an epoch was: its parameters and all packets whose write was begun. */
  datatype Record = Record(params: Params, log: seq<Packet>)

  datatype Phase =
    | Setup
    | Ready
    | Writing(batch: seq<Packet>, done: set<(nat, nat)>)

  /** The region, the control state of the current writer, and the record of
      every epoch so far (bookkeeping that no step looks at, except that
      epoch numbers are unique). */
  datatype Channel = Channel(
    hdr: Header, data: seq<Cell>, phase: Phase, epochs: map<nat, Record>)

  datatype Event =
    | Reset
    | SetTransport(v: nat)
    | SetProtocol(v: nat)
    | SetSize(v: nat)
    | SetElements(v: nat)
    | SetWSC(v: nat)
    | SetWC(v: nat)
    | SetCell(at: nat, c: Cell)
    | Activate(epoch: nat)
    | Begin(batch: seq<Packet>)
    | PutCell(j: nat, i: nat)
    | End

  function ParamsOf(h: Header): Params {
    Params(h.transport, h.protocol, h.size, h.elements)
  }

  /** Where cell i of packet number p lives. */
  function Addr(elements: nat, size: nat, p: nat, i: nat): nat
    requires elements > 0
  {
    p % elements * size + i
  }

  /** When the writer may perform an event. A disabled event changes nothing. */
  predicate Enabled(s: Channel, ev: Event) {
    match ev
    case Reset => true
    case SetCell(at, _) => s.phase.Setup? && at < |s.data|
    case Activate(e) =>
      && s.phase.Setup? && e != 0 && e !in s.epochs
      && s.hdr.wsc == 0 && s.hdr.wc == 0
      && s.hdr.elements > 0 && s.hdr.elements * s.hdr.size <= |s.data|
    case Begin(batch) =>
      && s.phase.Ready? && 0 < |batch| <= s.hdr.elements
      && forall j :: 0 <= j < |batch| ==> |batch[j]| == s.hdr.size
    case PutCell(j, i) =>
      && s.phase.Writing? && j < |s.phase.batch| && i < s.hdr.size
    case End =>
      && s.phase.Writing?
      && forall j, i :: 0 <= j < |s.phase.batch| && 0 <= i < s.hdr.size ==> (j, i) in s.phase.done
    case _ => s.phase.Setup?
  }

  /** One atomic access of the writer. */
  function Step(s: Channel, ev: Event): Channel
    requires Inv(s)
  {
    if !Enabled(s, ev) then s else
    match ev
    case Reset => s.(hdr := s.hdr.(epoch := 0), phase := Setup)
    case SetTransport(v) => s.(hdr := s.hdr.(transport := v))
    case SetProtocol(v) => s.(hdr := s.hdr.(protocol := v))
    case SetSize(v) => s.(hdr := s.hdr.(size := v))
    case SetElements(v) => s.(hdr := s.hdr.(elements := v))
    case SetWSC(v) => s.(hdr := s.hdr.(wsc := v))
    case SetWC(v) => s.(hdr := s.hdr.(wc := v))
    case SetCell(at, c) => s.(data := s.data[at := c])
    case Activate(e) =>
      s.(hdr := s.hdr.(epoch := e), phase := Ready,
         epochs := s.epochs[e := Record(ParamsOf(s.hdr), [])])
    case Begin(batch) =>
      var rec := s.epochs[s.hdr.epoch];
      s.(hdr := s.hdr.(wsc := s.hdr.wc + |batch|), phase := Writing(batch, {}),
         epochs := s.epochs[s.hdr.epoch := rec.(log := rec.log + batch)])
    case PutCell(j, i) =>
      var at := Addr(s.hdr.elements, s.hdr.size, s.hdr.wc + j, i);
      AddrInside(s.hdr.elements, s.hdr.size, s.hdr.wc + j, i, |s.data|);
      s.(data := s.data[at := s.phase.batch[j][i]],
         phase := s.phase.(done := s.phase.done + {(j, i)}))
    case End => s.(hdr := s.hdr.(wc := s.hdr.wsc), phase := Ready)
  }

  /** Cell i of packet p is in its slot and is not about to be overwritten. */
  ghost predicate Holds(s: Channel, p: nat, i: nat)
    requires s.hdr.elements > 0
  {
    && s.hdr.epoch in s.epochs
    && p < |s.epochs[s.hdr.epoch].log| && i < |s.epochs[s.hdr.epoch].log[p]|
    && Addr(s.hdr.elements, s.hdr.size, p, i) < |s.data|
    && s.data[Addr(s.hdr.elements, s.hdr.size, p, i)] == s.epochs[s.hdr.epoch].log[p][i]
  }

  ghost predicate ActiveInv(s: Channel)
    requires s.hdr.epoch in s.epochs
  {
    var h, rec := s.hdr, s.epochs[s.hdr.epoch];
    && h.elements > 0 && h.elements * h.size <= |s.data|
    && rec.params == ParamsOf(h)
    && |rec.log| == h.wsc
    && h.wc <= h.wsc <= h.wc + h.elements
    && (forall p :: 0 <= p < h.wsc ==> |rec.log[p]| == h.size)
    && (forall p: nat, i: nat :: h.wsc - h.elements <= p < h.wc && i < h.size ==> Holds(s, p, i))
    && match s.phase
       case Setup => false
       case Ready => h.wsc == h.wc
       case Writing(batch, done) =>
         && h.wsc == h.wc + |batch|
         && (forall j :: 0 <= j < |batch| ==> batch[j] == rec.log[h.wc + j])
         && (forall j, i :: (j, i) in done ==>
              j < |batch| && i < h.size && Holds(s, h.wc + j, i))
  }

  /** Holds in every state of every run: while an epoch is active the last
      Elements packets are intact, except those that WSC has given up. */
  ghost predicate Inv(s: Channel) {
    && 0 !in s.epochs
    && (s.hdr.epoch == 0 <==> s.phase.Setup?)
    && (s.hdr.epoch != 0 ==> s.hdr.epoch in s.epochs && ActiveInv(s))
  }

  /** Before the first writer: an inactive interface over a region of any content. */
  predicate Initial(s: Channel) {
    s.hdr.epoch == 0 && s.phase.Setup? && s.epochs == map[]
  }

  lemma AddrInside(elements: nat, size: nat, p: nat, i: nat, length: nat)
    requires elements > 0 && i < size && elements * size <= length
    ensures Addr(elements, size, p, i) < length
  {
    assert (p % elements) * size <= (elements - 1) * size;
  }

  lemma NotMultiple(d: nat, n: nat, k: int)
    requires 0 < d < n
    ensures d != k * n
  {
    if k >= 1 {
      assert k * n >= n;
    } else {
      assert k * n <= 0;
    }
  }

  lemma SlotsDiffer(elements: nat, p: nat, q: nat)
    requires elements > 0 && p < q < p + elements
    ensures p % elements != q % elements
  {
    var a, b := p / elements, q / elements;
    NotMultiple(q - p, elements, b - a);
    assert b * elements - a * elements == (b - a) * elements;
  }

  lemma CellsDiffer(size: nat, a: nat, i: nat, b: nat, j: nat)
    requires a < b && i < size
    ensures a * size + i < b * size + j
  {
    assert (a + 1) * size <= b * size;
  }

  /** Two packets less than Elements apart never share a cell. */
  lemma AddrDistinct(elements: nat, size: nat, p: nat, i: nat, q: nat, j: nat)
    requires elements > 0 && i < size && j < size
    requires p < q < p + elements
    ensures Addr(elements, size, p, i) != Addr(elements, size, q, j)
  {
    SlotsDiffer(elements, p, q);
    if p % elements < q % elements {
      CellsDiffer(size, p % elements, i, q % elements, j);
    } else {
      CellsDiffer(size, q % elements, j, p % elements, i);
    }
  }

  lemma StepKeepsInv(s: Channel, ev: Event)
    requires Inv(s)
    ensures Inv(Step(s, ev))
  {
    if Enabled(s, ev) {
      match ev
      case Begin(batch) => BeginKeepsInv(s, batch);
      case PutCell(j, i) => PutCellKeepsInv(s, j, i);
      case End => EndKeepsInv(s);
      case _ =>
    }
  }

  lemma BeginKeepsInv(s: Channel, batch: seq<Packet>)
    requires Inv(s) && Enabled(s, Begin(batch))
    ensures Inv(Step(s, Begin(batch)))
  {
    var t := Step(s, Begin(batch));
    forall p: nat, i: nat | t.hdr.wsc - t.hdr.elements <= p < t.hdr.wc && i < t.hdr.size
      ensures Holds(t, p, i)
    {
      assert Holds(s, p, i);
    }
  }

  /** Storing cell i of packet q leaves a cell of another packet, less than
      Elements away, or another cell of q. */
  lemma PutCellElsewhere(s: Channel, t: Channel, q: nat, i: nat, c: Cell, p: nat, k: nat)
    requires s.hdr.elements > 0 && i < s.hdr.size && k < s.hdr.size
    requires Addr(s.hdr.elements, s.hdr.size, q, i) < |s.data|
    requires t.hdr == s.hdr && t.epochs == s.epochs
    requires t.data == s.data[Addr(s.hdr.elements, s.hdr.size, q, i) := c]
    requires Holds(s, p, k)
    requires p < q < p + s.hdr.elements || q < p < q + s.hdr.elements || (p == q && k != i)
    ensures Holds(t, p, k)
  {
    if p < q {
      AddrDistinct(s.hdr.elements, s.hdr.size, p, k, q, i);
    } else if q < p {
      AddrDistinct(s.hdr.elements, s.hdr.size, q, i, p, k);
    }
  }

  lemma PutCellKeepsInv(s: Channel, j: nat, i: nat)
    requires Inv(s) && Enabled(s, PutCell(j, i))
    ensures Inv(Step(s, PutCell(j, i)))
  {
    var t := Step(s, PutCell(j, i));
    var h := s.hdr;
    AddrInside(h.elements, h.size, h.wc + j, i, |s.data|);
    forall p: nat, k: nat | h.wsc - h.elements <= p < h.wc && k < h.size
      ensures Holds(t, p, k)
    {
      PutCellElsewhere(s, t, h.wc + j, i, s.phase.batch[j][i], p, k);
    }
    forall j', i' | (j', i') in t.phase.done
      ensures j' < |s.phase.batch| && i' < h.size && Holds(t, h.wc + j', i')
    {
      if (j', i') == (j, i) {
        PutCellHolds(s, t, h.wc + j, i);
      } else {
        PutCellElsewhere(s, t, h.wc + j, i, s.phase.batch[j][i], h.wc + j', i');
      }
    }
    hide Holds, Addr;
  }

  lemma PutCellHolds(s: Channel, t: Channel, q: nat, i: nat)
    requires t.hdr.elements > 0 && t.hdr.epoch in t.epochs
    requires q < |t.epochs[t.hdr.epoch].log| && i < |t.epochs[t.hdr.epoch].log[q]|
    requires Addr(t.hdr.elements, t.hdr.size, q, i) < |s.data|
    requires t.data == s.data[Addr(t.hdr.elements, t.hdr.size, q, i) := t.epochs[t.hdr.epoch].log[q][i]]
    ensures Holds(t, q, i)
  {
  }

  lemma EndKeepsInv(s: Channel)
    requires Inv(s) && Enabled(s, End)
    ensures Inv(Step(s, End))
  {
    var t := Step(s, End);
    var h := s.hdr;
    forall p: nat, i: nat | t.hdr.wsc - t.hdr.elements <= p < t.hdr.wc && i < h.size
      ensures Holds(t, p, i)
    {
      if p < h.wc {
        assert Holds(s, p, i);
      } else {
        assert (p - h.wc, i) in s.phase.done;
        assert Holds(s, h.wc + (p - h.wc), i);
      }
    }
  }

  /** A run of the writer. */
  function Run(s: Channel, evs: seq<Event>): (t: Channel)
    requires Inv(s)
    ensures Inv(t)
    decreases |evs|
  {
    if evs == [] then s else
    StepKeepsInv(s, evs[0]);
    Run(Step(s, evs[0]), evs[1..])
  }

  // ----- what a reader may rely on between two of its accesses -----

  /** Records only grow. */
  ghost predicate Grows(r: Record, r': Record) {
    r.params == r'.params && r.log <= r'.log
  }

  /** A later state of the same run: no epoch returns, and while one lasts its
      parameters are fixed and both counters only go up. */
  ghost predicate Later(s: Channel, t: Channel) {
    && |s.data| == |t.data|
    && (forall e :: e in s.epochs ==> e in t.epochs && Grows(s.epochs[e], t.epochs[e]))
    && (t.hdr.epoch != 0 && t.hdr.epoch != s.hdr.epoch ==> t.hdr.epoch !in s.epochs)
    && (t.hdr.epoch != 0 && t.hdr.epoch == s.hdr.epoch ==>
         && ParamsOf(t.hdr) == ParamsOf(s.hdr)
         && s.hdr.wc <= t.hdr.wc && s.hdr.wsc <= t.hdr.wsc)
  }

  lemma PutCellIsLater(s: Channel, j: nat, i: nat)
    requires Inv(s) && Enabled(s, PutCell(j, i))
    ensures Later(s, Step(s, PutCell(j, i)))
  {
    AddrInside(s.hdr.elements, s.hdr.size, s.hdr.wc + j, i, |s.data|);
    var t := Step(s, PutCell(j, i));
    assert t.hdr == s.hdr && t.epochs == s.epochs && |t.data| == |s.data|;
  }

  lemma StepIsLater(s: Channel, ev: Event)
    requires Inv(s)
    ensures Later(s, Step(s, ev))
  {
    if Enabled(s, ev) {
      match ev
      case PutCell(j, i) => PutCellIsLater(s, j, i);
      case _ =>
    }
  }

  lemma LaterTransitive(s: Channel, t: Channel, u: Channel)
    requires Inv(s) && Inv(t) && Inv(u) && Later(s, t) && Later(t, u)
    ensures Later(s, u)
  {
    forall e | e in s.epochs
      ensures e in u.epochs && Grows(s.epochs[e], u.epochs[e])
    {
      assert Grows(s.epochs[e], t.epochs[e]) && Grows(t.epochs[e], u.epochs[e]);
    }
  }

  lemma {:induction false} RunIsLater(s: Channel, evs: seq<Event>)
    requires Inv(s)
    ensures Later(s, Run(s, evs))
    decreases |evs|
  {
    if evs != [] {
      var t := Step(s, evs[0]);
      StepKeepsInv(s, evs[0]);
      StepIsLater(s, evs[0]);
      RunIsLater(t, evs[1..]);
      LaterTransitive(s, t, Run(s, evs));
    }
  }

  /** The heart of speculative access: a cell copied from the slot of packet
      rc, which had been published, is cell i of that packet, provided that
      the epoch is still the same and WSC has still not passed rc + Elements. */
  lemma ValidatedCell(atCopy: Channel, atCheck: Channel, rc: nat, i: nat)
    requires Inv(atCopy) && Inv(atCheck) && Later(atCopy, atCheck)
    requires atCheck.hdr.epoch != 0 && atCopy.hdr.epoch == atCheck.hdr.epoch
    requires rc < atCopy.hdr.wc && i < atCopy.hdr.size
    requires atCheck.hdr.wsc <= rc + atCheck.hdr.elements
    ensures Addr(atCopy.hdr.elements, atCopy.hdr.size, rc, i) < |atCopy.data|
    ensures atCopy.data[Addr(atCopy.hdr.elements, atCopy.hdr.size, rc, i)]
         == atCheck.epochs[atCheck.hdr.epoch].log[rc][i]
  {
    assert Holds(atCopy, rc, i);
    assert Grows(atCopy.epochs[atCopy.hdr.epoch], atCheck.epochs[atCheck.hdr.epoch]);
  }
}
