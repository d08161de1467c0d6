/** Readers of an SHMStream version 2 channel that follow the interface
    description, and what any number of them may rely on in any interleaving
    with a writer that may be reset at any time. */
module ShmReader {
  import opened ShmStream

  /** What the application is told, one entry per completed attempt, and for
      NoData the WC on which that was decided. An attempt that ends in Inactive,
      Incompatible_Interface or Epoch_Changed is NotSynced. */
  datatype Outcome =
    | Synced(epoch: nat, protocol: nat, size: nat, elements: nat)
    | Delivered(epoch: nat, n: nat, packet: Packet)
    | Skipped(epoch: nat, first: nat, next: nat)
    | NoData(epoch: nat, n: nat, wc: nat)
    | NotSynced

  /** The reader's next access to shared memory. */
  datatype PC =
    | Unsynced
    | GetProtocol
    | GetSize
    | GetElements
    | ConfirmSync(valid: bool)
    | Idle
    | Copying(buf: seq<Cell>)
    | Recovering
    | ConfirmRead(pending: Outcome)

  datatype Reader = Reader(
    epoch: nat, protocol: nat, size: nat, elements: nat, rc: nat,
    pc: PC, history: seq<Outcome>)

  /** A reader expects one protocol and at least one packet inside the region. */
  predicate IsValid(expected: nat, protocol: nat, size: nat, elements: nat, length: nat) {
    protocol == expected && elements > 0 && elements * size <= length
  }

  /** What keeps a reader inside the region, whatever a writer does. */
  ghost predicate Contained(r: Reader, length: nat) {
    match r.pc
    case ConfirmSync(valid) => valid ==> r.elements > 0 && r.elements * r.size <= length
    case Idle => r.elements > 0 && r.elements * r.size <= length
    case Copying(buf) => r.elements > 0 && r.elements * r.size <= length && |buf| <= r.size
    case Recovering => r.elements > 0 && r.elements * r.size <= length
    case ConfirmRead(_) => r.elements > 0 && r.elements * r.size <= length
    case _ => true
  }

  /** One access of a reader. Nothing is assumed of the header or the data, and
      no access leaves the region. */
  function Advance(expected: nat, r: Reader, h: Header, data: seq<Cell>): (r': Reader)
    requires Contained(r, |data|)
    ensures Contained(r', |data|)
  {
    match r.pc
    case Unsynced =>
      if h.epoch == 0 then r.(epoch := 0, history := r.history + [NotSynced])
      else r.(epoch := h.epoch, pc := GetProtocol)
    case GetProtocol => r.(protocol := h.protocol, pc := GetSize)
    case GetSize => r.(size := h.size, pc := GetElements)
    case GetElements =>
      r.(elements := h.elements, rc := 0,
         pc := ConfirmSync(IsValid(expected, r.protocol, r.size, h.elements, |data|)))
    case ConfirmSync(valid) =>
      if valid && r.epoch == h.epoch then
        r.(pc := Idle, history := r.history + [Synced(r.epoch, r.protocol, r.size, r.elements)])
      else
        r.(pc := Unsynced, history := r.history + [NotSynced])
    case Idle =>
      if r.rc >= h.wc then r.(pc := ConfirmRead(NoData(r.epoch, r.rc, h.wc)))
      else r.(pc := Copying([]))
    case Copying(buf) =>
      if |buf| < r.size then
        AddrInside(r.elements, r.size, r.rc, |buf|, |data|);
        r.(pc := Copying(buf + [data[Addr(r.elements, r.size, r.rc, |buf|)]]))
      else if h.wsc > r.rc + r.elements then r.(pc := Recovering)
      else r.(rc := r.rc + 1, pc := ConfirmRead(Delivered(r.epoch, r.rc, buf)))
    case Recovering =>
      r.(rc := h.wc, pc := ConfirmRead(Skipped(r.epoch, r.rc, h.wc)))
    case ConfirmRead(pending) =>
      if r.epoch == h.epoch then r.(pc := Idle, history := r.history + [pending])
      else r.(pc := Unsynced, history := r.history + [NotSynced])
  }

  // ----- a rogue writer cannot block a reader -----

  predicate BetweenAttempts(r: Reader) {
    r.pc.Unsynced? || r.pc.Idle?
  }

  /** Accesses left in the current attempt, plus one. */
  function Remaining(r: Reader): nat {
    match r.pc
    case Unsynced => 5
    case GetProtocol => 4
    case GetSize => 3
    case GetElements => 2
    case ConfirmSync(_) => 1
    case Idle => r.size + 4
    case Copying(buf) => 3 + if |buf| < r.size then r.size - |buf| else 0
    case Recovering => 2
    case ConfirmRead(_) => 1
  }

  /** A reader's accesses in a row, each finding whatever a rogue writer left. */
  function Under(expected: nat, r: Reader, seen: seq<(Header, seq<Cell>)>, length: nat): (r': Reader)
    requires Contained(r, length)
    requires forall k :: 0 <= k < |seen| ==> |seen[k].1| == length
    ensures Contained(r', length)
    decreases |seen|
  {
    if seen == [] then r
    else Under(expected, Advance(expected, r, seen[0].0, seen[0].1), seen[1..], length)
  }

  /** Whatever memory holds at each access, an attempt ends within Remaining
      accesses and adds exactly one outcome. */
  lemma {:induction false} NeverBlocks(
      expected: nat, r: Reader, seen: seq<(Header, seq<Cell>)>, length: nat)
    requires Contained(r, length)
    requires forall k :: 0 <= k < |seen| ==> |seen[k].1| == length
    requires |seen| >= Remaining(r)
    ensures exists k :: 0 < k <= Remaining(r)
              && BetweenAttempts(Under(expected, r, seen[..k], length))
              && |Under(expected, r, seen[..k], length).history| == |r.history| + 1
    decreases Remaining(r)
  {
    var r1 := Advance(expected, r, seen[0].0, seen[0].1);
    UnderFirst(expected, r, seen, length);
    OneAccess(expected, r, seen[0].0, seen[0].1);
    hide Advance, Contained, Remaining, BetweenAttempts;
    if BetweenAttempts(r1) {
      UnderOne(expected, r, seen, length);
    } else {
      NeverBlocks(expected, r1, seen[1..], length);
      hide Under;
      var k :| 0 < k <= Remaining(r1)
              && BetweenAttempts(Under(expected, r1, seen[1..][..k], length))
              && |Under(expected, r1, seen[1..][..k], length).history| == |r1.history| + 1;
      UnderFirst(expected, r, seen[..k + 1], length);
      assert seen[..k + 1][1..] == seen[1..][..k];
    }
  }

  /** Each access brings the end of the attempt nearer, or ends it with one outcome. */
  lemma OneAccess(expected: nat, r: Reader, h: Header, data: seq<Cell>)
    requires Contained(r, |data|)
    ensures var r1 := Advance(expected, r, h, data);
      if BetweenAttempts(r1) then |r1.history| == |r.history| + 1 && Remaining(r) > 0
      else Remaining(r1) < Remaining(r) && r1.history == r.history
  {
  }

  lemma UnderFirst(expected: nat, r: Reader, seen: seq<(Header, seq<Cell>)>, length: nat)
    requires Contained(r, length) && seen != []
    requires forall k :: 0 <= k < |seen| ==> |seen[k].1| == length
    ensures Under(expected, r, seen, length)
      == Under(expected, Advance(expected, r, seen[0].0, seen[0].1), seen[1..], length)
  {
    hide Advance, Contained;
  }

  lemma UnderOne(expected: nat, r: Reader, seen: seq<(Header, seq<Cell>)>, length: nat)
    requires Contained(r, length) && seen != []
    requires forall k :: 0 <= k < |seen| ==> |seen[k].1| == length
    ensures Under(expected, r, seen[..1], length) == Advance(expected, r, seen[0].0, seen[0].1)
  {
    assert seen[..1][1..] == [];
    hide Advance, Contained;
  }

  // ----- the reference: an unbounded append-only log per epoch -----

  datatype Position = Nowhere | At(epoch: nat, n: nat)

  /** Where a reader stands, from its history alone. */
  function PositionOf(h: seq<Outcome>): Position {
    if h == [] then Nowhere else
    match h[|h| - 1]
    case Synced(e, _, _, _) => At(e, 0)
    case Delivered(e, n, _) => At(e, n + 1)
    case Skipped(e, _, next) => At(e, next)
    case NoData(e, n, _) => At(e, n)
    case NotSynced => Nowhere
  }

  ghost predicate Mentions(h: seq<Outcome>, e: nat) {
    exists k :: 0 <= k < |h| && !h[k].NotSynced? && h[k].epoch == e
  }

  /** An outcome that the append-only log of its epoch explains: the packet at
      the reader's position, or a jump forward once the writer has begun packet
      n + Elements; no data only if exactly n packets had been published; an
      epoch is entered at most once, with its own parameters. */
  ghost predicate Explained(h: seq<Outcome>, o: Outcome, epochs: map<nat, Record>) {
    match o
    case Synced(e, p, s, n) =>
      && e in epochs && !Mentions(h, e)
      && p == epochs[e].params.protocol && s == epochs[e].params.size && n == epochs[e].params.elements
    case Delivered(e, n, packet) =>
      && PositionOf(h) == At(e, n) && e in epochs
      && n < |epochs[e].log| && packet == epochs[e].log[n]
    case Skipped(e, n, next) =>
      && PositionOf(h) == At(e, n) && e in epochs
      && n < next <= |epochs[e].log|
      && n + epochs[e].params.elements < |epochs[e].log|
    case NoData(e, n, wc) =>
      PositionOf(h) == At(e, n) && e in epochs && n == wc && n <= |epochs[e].log|
    case NotSynced => true
  }

  ghost predicate Legal(h: seq<Outcome>, epochs: map<nat, Record>) {
    forall k :: 0 <= k < |h| ==> Explained(h[..k], h[k], epochs)
  }

  // ----- any number of readers beside the writer -----

  datatype System = System(channel: Channel, readers: map<nat, Reader>)

  datatype Move = Write(ev: Event) | Read(id: nat)

  ghost predicate SysInv(s: System) {
    Inv(s.channel) && forall id :: id in s.readers ==> ReaderInv(s.channel, s.readers[id])
  }

  function Next(expected: nat, s: System, m: Move): System
    requires SysInv(s)
  {
    match m
    case Write(ev) => s.(channel := Step(s.channel, ev))
    case Read(id) =>
      if id !in s.readers then s else
      s.(readers := s.readers[id := Advance(expected, s.readers[id], s.channel.hdr, s.channel.data)])
  }

  /** The header still shows the epoch that the reader has stored. */
  ghost predicate Matches(s: Channel, r: Reader) {
    r.epoch != 0 && r.epoch == s.hdr.epoch
  }

  /** Of the stored parameters, the first k are those of the header. */
  ghost predicate Stored(s: Channel, r: Reader, k: nat) {
    && (k >= 1 ==> r.protocol == s.hdr.protocol)
    && (k >= 2 ==> r.size == s.hdr.size)
    && (k >= 3 ==> r.elements == s.hdr.elements)
  }

  /** Facts about a reader's current attempt, each only while its epoch lasts. */
  ghost predicate AttemptInv(s: Channel, r: Reader)
    requires Inv(s)
  {
    match r.pc
    case Unsynced => true
    case GetProtocol => true
    case GetSize => Matches(s, r) ==> Stored(s, r, 1)
    case GetElements => Matches(s, r) ==> Stored(s, r, 2)
    case ConfirmSync(_) => r.rc == 0 && (Matches(s, r) ==> Stored(s, r, 3))
    case Idle =>
      && PositionOf(r.history) == At(r.epoch, r.rc)
      && (Matches(s, r) ==> Stored(s, r, 3) && r.rc <= s.hdr.wc)
    case Copying(buf) =>
      && PositionOf(r.history) == At(r.epoch, r.rc)
      && (Matches(s, r) ==> Stored(s, r, 3) && r.rc < s.hdr.wc && Copied(s, r.rc, buf))
    case Recovering =>
      && PositionOf(r.history) == At(r.epoch, r.rc)
      && (Matches(s, r) ==>
           Stored(s, r, 3) && r.rc < s.hdr.wc && s.hdr.wsc > r.rc + r.elements)
    case ConfirmRead(o) =>
      && (Matches(s, r) ==>
           && Stored(s, r, 3) && r.rc <= s.hdr.wc
           && Explained(r.history, o, s.epochs)
           && PositionOf(r.history + [o]) == At(r.epoch, r.rc)
           && !o.NotSynced? && o.epoch == r.epoch && !o.Synced?)
  }

  /** Unless the writer has meanwhile come back to the slot, the cells copied
      so far are those of packet rc. */
  ghost predicate Copied(s: Channel, rc: nat, buf: seq<Cell>)
    requires Inv(s) && s.hdr.epoch != 0
  {
    && |buf| <= s.hdr.size && rc < s.hdr.wc
    && (s.hdr.wsc <= rc + s.hdr.elements ==>
         buf == s.epochs[s.hdr.epoch].log[rc][..|buf|])
  }

  /** Between synchronisation and loss of the epoch. */
  predicate InSync(r: Reader) {
    r.pc.Idle? || r.pc.Copying? || r.pc.Recovering? || r.pc.ConfirmRead?
  }

  ghost predicate ReaderInv(s: Channel, r: Reader)
    requires Inv(s)
  {
    && Contained(r, |s.data|)
    && (!r.pc.Unsynced? ==> r.epoch != 0)
    && (r.epoch != 0 ==> r.epoch in s.epochs)
    && (forall e :: Mentions(r.history, e) ==>
         e in s.epochs && (e == s.hdr.epoch ==> InSync(r) && e == r.epoch))
    && Legal(r.history, s.epochs)
    && AttemptInv(s, r)
  }

  lemma LegalGrows(h: seq<Outcome>, s: Channel, t: Channel)
    requires Later(s, t) && Legal(h, s.epochs)
    ensures Legal(h, t.epochs)
  {
    forall k | 0 <= k < |h|
      ensures Explained(h[..k], h[k], t.epochs)
    {
      ExplainedGrows(h[..k], h[k], s, t);
    }
  }

  lemma ExplainedGrows(h: seq<Outcome>, o: Outcome, s: Channel, t: Channel)
    requires Later(s, t) && Explained(h, o, s.epochs)
    ensures Explained(h, o, t.epochs)
  {
    if !o.NotSynced? {
      assert Grows(s.epochs[o.epoch], t.epochs[o.epoch]);
    }
  }

  lemma LegalAppend(h: seq<Outcome>, o: Outcome, epochs: map<nat, Record>)
    requires Legal(h, epochs) && Explained(h, o, epochs)
    ensures Legal(h + [o], epochs)
  {
    var h' := h + [o];
    forall k | 0 <= k < |h'|
      ensures Explained(h'[..k], h'[k], epochs)
    {
      if k < |h| {
        assert h'[..k] == h[..k];
      } else {
        assert h'[..k] == h;
      }
    }
  }

  /** The writer cannot invalidate what a reader knows. */
  lemma WriterKeepsReader(s: Channel, ev: Event, r: Reader)
    requires Inv(s) && ReaderInv(s, r)
    ensures Inv(Step(s, ev)) && ReaderInv(Step(s, ev), r)
  {
    var t := Step(s, ev);
    StepKeepsInv(s, ev);
    StepIsLater(s, ev);
    LaterKeepsReader(s, t, r);
  }

  lemma LaterKeepsReader(s: Channel, t: Channel, r: Reader)
    requires Inv(s) && Inv(t) && Later(s, t) && ReaderInv(s, r)
    ensures ReaderInv(t, r)
  {
    LegalGrows(r.history, s, t);
    if r.pc.ConfirmRead? && Matches(t, r) {
      ExplainedGrows(r.history, r.pc.pending, s, t);
    }
    if r.pc.Copying? && Matches(t, r) {
      assert Grows(s.epochs[r.epoch], t.epochs[r.epoch]);
    }
  }

  // ----- a reader's own accesses -----

  lemma MentionsAppend(h: seq<Outcome>, o: Outcome, e: nat)
    ensures Mentions(h + [o], e) <==> Mentions(h, e) || (!o.NotSynced? && o.epoch == e)
  {
    var h' := h + [o];
    if Mentions(h, e) {
      var k :| 0 <= k < |h| && !h[k].NotSynced? && h[k].epoch == e;
      assert h'[k] == h[k];
    }
    if !o.NotSynced? && o.epoch == e {
      assert h'[|h|] == o;
    }
  }

  /** Closing an attempt with outcome o. */
  lemma Closes(s: Channel, r: Reader, o: Outcome, pc: PC)
    requires Inv(s) && ReaderInv(s, r)
    requires Explained(r.history, o, s.epochs)
    requires !o.NotSynced? ==> o.epoch == r.epoch && Matches(s, r)
    requires pc == if o.NotSynced? then Unsynced else Idle
    requires o.NotSynced? ==> !Matches(s, r) || !Mentions(r.history, r.epoch)
    requires !o.NotSynced? ==>
               && r.elements > 0 && r.elements * r.size <= |s.data|
               && Stored(s, r, 3) && r.rc <= s.hdr.wc
               && PositionOf(r.history + [o]) == At(r.epoch, r.rc)
    ensures ReaderInv(s, r.(pc := pc, history := r.history + [o]))
  {
    LegalAppend(r.history, o, s.epochs);
    forall e ensures Mentions(r.history + [o], e) <==>
                       Mentions(r.history, e) || (!o.NotSynced? && o.epoch == e) {
      MentionsAppend(r.history, o, e);
    }
  }

  lemma ConfirmKeeps(expected: nat, s: Channel, r: Reader)
    requires Inv(s) && ReaderInv(s, r) && (r.pc.ConfirmSync? || r.pc.ConfirmRead?)
    ensures ReaderInv(s, Advance(expected, r, s.hdr, s.data))
  {
    if r.pc.ConfirmRead? {
      if r.epoch == s.hdr.epoch {
        Closes(s, r, r.pc.pending, Idle);
      } else {
        Closes(s, r, NotSynced, Unsynced);
      }
    } else if r.pc.valid && r.epoch == s.hdr.epoch {
      Closes(s, r, Synced(r.epoch, r.protocol, r.size, r.elements), Idle);
    } else {
      Closes(s, r, NotSynced, Unsynced);
    }
  }

  lemma CopyingKeeps(expected: nat, s: Channel, r: Reader)
    requires Inv(s) && ReaderInv(s, r) && r.pc.Copying?
    ensures ReaderInv(s, Advance(expected, r, s.hdr, s.data))
  {
    var buf, h := r.pc.buf, s.hdr;
    if Matches(s, r) {
      var packet := s.epochs[h.epoch].log[r.rc];
      if |buf| < r.size {
        if h.wsc <= r.rc + h.elements {
          ValidatedCell(s, s, r.rc, |buf|);
          assert packet[..|buf| + 1] == packet[..|buf|] + [packet[|buf|]];
        }
      } else if h.wsc <= r.rc + r.elements {
        assert packet[..|buf|] == packet;
      }
    }
  }

  /** A reader keeps what it knows by each of its own accesses. */
  lemma ReaderKeepsInv(expected: nat, s: Channel, r: Reader)
    requires Inv(s) && ReaderInv(s, r)
    ensures ReaderInv(s, Advance(expected, r, s.hdr, s.data))
  {
    hide *;
    ReaderIsContained(s, r);
    match r.pc
    case Unsynced => UnsyncedKeeps(expected, s, r);
    case ConfirmSync(_) => ConfirmKeeps(expected, s, r);
    case ConfirmRead(_) => ConfirmKeeps(expected, s, r);
    case Copying(_) => CopyingKeeps(expected, s, r);
    case Idle => LoadKeeps(expected, s, r);
    case Recovering => LoadKeeps(expected, s, r);
    case _ => ParameterKeeps(expected, s, r);
  }

  lemma ReaderIsContained(s: Channel, r: Reader)
    requires Inv(s) && ReaderInv(s, r)
    ensures Contained(r, |s.data|)
  {
    hide Inv, Legal, AttemptInv;
  }

  lemma UnsyncedKeeps(expected: nat, s: Channel, r: Reader)
    requires Inv(s) && ReaderInv(s, r) && r.pc.Unsynced?
    ensures ReaderInv(s, Advance(expected, r, s.hdr, s.data))
  {
    if s.hdr.epoch == 0 {
      LegalAppend(r.history, NotSynced, s.epochs);
      forall e ensures Mentions(r.history + [NotSynced], e) <==> Mentions(r.history, e) {
        MentionsAppend(r.history, NotSynced, e);
      }
    }
    hide Legal, Mentions;
  }

  lemma ParameterKeeps(expected: nat, s: Channel, r: Reader)
    requires Inv(s) && ReaderInv(s, r)
    requires r.pc.GetProtocol? || r.pc.GetSize? || r.pc.GetElements?
    ensures ReaderInv(s, Advance(expected, r, s.hdr, s.data))
  {
    hide Inv, Legal, Mentions;
  }

  lemma LoadKeeps(expected: nat, s: Channel, r: Reader)
    requires Inv(s) && ReaderInv(s, r) && (r.pc.Idle? || r.pc.Recovering?)
    ensures ReaderInv(s, Advance(expected, r, s.hdr, s.data))
  {
    hide Legal, Mentions;
  }

  lemma MoveKeepsInv(expected: nat, s: System, m: Move)
    requires SysInv(s)
    ensures SysInv(Next(expected, s, m))
  {
    match m
    case Write(ev) =>
      forall id | id in s.readers
        ensures Inv(Step(s.channel, ev)) && ReaderInv(Step(s.channel, ev), s.readers[id])
      {
        WriterKeepsReader(s.channel, ev, s.readers[id]);
      }
      StepKeepsInv(s.channel, ev);
    case Read(id) =>
      if id in s.readers {
        ReaderKeepsInv(expected, s.channel, s.readers[id]);
      }
  }

  function Execute(expected: nat, s: System, schedule: seq<Move>): (t: System)
    requires SysInv(s)
    ensures SysInv(t)
    decreases |schedule|
  {
    if schedule == [] then s else
    MoveKeepsInv(expected, s, schedule[0]);
    Execute(expected, Next(expected, s, schedule[0]), schedule[1..])
  }

  const NEW_READER := Reader(0, 0, 0, 0, 0, Unsynced, [])

  predicate Start(s: System) {
    Initial(s.channel) && forall id :: id in s.readers ==> s.readers[id] == NEW_READER
  }

  lemma StartInv(s: System)
    requires Start(s)
    ensures SysInv(s)
  {
  }

  /** Main result. In every interleaving of a writer that is reset any number
      of times with any number of readers, all that a reader ever reports as
      synchronised, delivered, skipped or drained is explained by the
      append-only logs. */
  lemma RunsAreExplained(expected: nat, s: System, schedule: seq<Move>, id: nat)
    requires Start(s) && id in s.readers
    ensures SysInv(s)
    ensures var t := Execute(expected, s, schedule);
      id in t.readers && Legal(t.readers[id].history, t.channel.epochs)
  {
    StartInv(s);
    HistoryGrows(expected, s, schedule, id);
  }

  /** No_Data is exact, and RC > WC, which would be a protocol error, does not
      occur while the epoch lasts. */
  lemma NoDataMeansDrained(expected: nat, s: Channel, r: Reader)
    requires Inv(s) && ReaderInv(s, r) && r.pc.Idle? && Matches(s, r)
    ensures r.rc <= s.hdr.wc
    ensures Advance(expected, r, s.hdr, s.data).pc.ConfirmRead? <==> r.rc == s.hdr.wc
  {
  }

  /** Once the epoch that a reader is working on is gone, whatever happens
      next, the attempt is answered with NotSynced and nothing else. */
  lemma {:induction false} StaleIsNeverAccepted(
      expected: nat, s: System, schedule: seq<Move>, id: nat)
    requires SysInv(s) && id in s.readers
    requires !s.readers[id].pc.Unsynced? && !Matches(s.channel, s.readers[id])
    ensures var r, t := s.readers[id], Execute(expected, s, schedule);
      && id in t.readers
      && (|| t.readers[id].history == r.history
          || r.history + [NotSynced] <= t.readers[id].history)
    decreases |schedule|
  {
    if schedule != [] {
      var s1 := Next(expected, s, schedule[0]);
      StaleMove(expected, s, schedule[0], id);
      hide Next, SysInv, Matches;
      if s1.readers[id].pc.Unsynced? {
        HistoryGrows(expected, s1, schedule[1..], id);
      } else {
        StaleIsNeverAccepted(expected, s1, schedule[1..], id);
      }
    }
  }

  /** One move either leaves a stale reader stale and its history as it is, or
      lets it notice. */
  lemma StaleMove(expected: nat, s: System, m: Move, id: nat)
    requires SysInv(s) && id in s.readers
    requires !s.readers[id].pc.Unsynced? && !Matches(s.channel, s.readers[id])
    ensures var s1 := Next(expected, s, m);
      && SysInv(s1) && id in s1.readers
      && (if s1.readers[id].pc.Unsynced? then s1.readers[id].history == s.readers[id].history + [NotSynced]
          else s1.readers[id].history == s.readers[id].history && !Matches(s1.channel, s1.readers[id]))
  {
    MoveKeepsInv(expected, s, m);
    if m.Write? {
      StepIsLater(s.channel, m.ev);
    }
  }

  lemma {:induction false} HistoryGrows(expected: nat, s: System, schedule: seq<Move>, id: nat)
    requires SysInv(s) && id in s.readers
    ensures id in Execute(expected, s, schedule).readers
    ensures s.readers[id].history <= Execute(expected, s, schedule).readers[id].history
    decreases |schedule|
  {
    if schedule != [] {
      var s1 := Next(expected, s, schedule[0]);
      MoveGrows(expected, s, schedule[0], id);
      hide Next, SysInv;
      HistoryGrows(expected, s1, schedule[1..], id);
    }
  }

  lemma MoveGrows(expected: nat, s: System, m: Move, id: nat)
    requires SysInv(s) && id in s.readers
    ensures var s1 := Next(expected, s, m);
      SysInv(s1) && id in s1.readers && s.readers[id].history <= s1.readers[id].history
  {
    MoveKeepsInv(expected, s, m);
    hide SysInv;
  }

  // ----- consequences for a history that the logs explain -----

  /** After packet n of an epoch a reader of that epoch stands beyond n, and
      exactly as far beyond as it has since been handed packets if it skipped none. */
  lemma {:induction false} MovesForward(h: seq<Outcome>, epochs: map<nat, Record>, i: nat, j: nat)
    requires Legal(h, epochs) && i < j <= |h| && h[i].Delivered?
    ensures var p := PositionOf(h[..j]);
      p.At? && p.epoch == h[i].epoch ==>
        && p.n > h[i].n
        && ((forall k :: i < k < j ==> !h[k].Delivered? && !h[k].Skipped?) ==> p.n == h[i].n + 1)
    decreases j
  {
    if j == i + 1 {
      assert h[..j][|h[..j]| - 1] == h[i];
    } else {
      MovesForward(h, epochs, i, j - 1);
      assert h[..j][|h[..j]| - 1] == h[j - 1];
      assert Explained(h[..j - 1], h[j - 1], epochs);
      assert h[..j - 1][i] == h[i];
      assert Mentions(h[..j - 1], h[i].epoch);
    }
  }

  /** Packets of one epoch arrive in the order written, and consecutively
      unless an overrun was reported between them. */
  lemma InOrder(h: seq<Outcome>, epochs: map<nat, Record>, i: nat, j: nat)
    requires Legal(h, epochs) && i < j < |h|
    requires h[i].Delivered? && h[j].Delivered? && h[i].epoch == h[j].epoch
    ensures h[i].n < h[j].n
    ensures (forall k :: i < k < j ==> !h[k].Delivered? && !h[k].Skipped?) ==> h[j].n == h[i].n + 1
  {
    MovesForward(h, epochs, i, j);
    assert Explained(h[..j], h[j], epochs);
  }

  ghost predicate Covers(o: Outcome, e: nat, n: nat) {
    || (o.Delivered? && o.epoch == e && o.n == n)
    || (o.Skipped? && o.epoch == e && o.first <= n < o.next)
  }

  /** No packet is lost in silence: every packet before a reader's position was
      delivered or lies in a reported gap. */
  lemma {:induction false} NothingLostSilently(
      h: seq<Outcome>, epochs: map<nat, Record>, n: nat)
    requires Legal(h, epochs) && PositionOf(h).At? && n < PositionOf(h).n
    ensures exists k :: 0 <= k < |h| && Covers(h[k], PositionOf(h).epoch, n)
    decreases |h|
  {
    var last := |h| - 1;
    if !Covers(h[last], PositionOf(h).epoch, n) {
      var h' := h[..last];
      forall k | 0 <= k < |h'| ensures Explained(h'[..k], h'[k], epochs) {
        assert h'[..k] == h[..k];
        assert Explained(h[..k], h[k], epochs);
      }
      assert Explained(h[..last], h[last], epochs);
      NothingLostSilently(h', epochs, n);
      var k :| 0 <= k < |h'| && Covers(h'[k], PositionOf(h').epoch, n);
      assert h[k] == h'[k];
    }
  }

  /** Nothing is delivered twice. */
  lemma DeliveredOnce(h: seq<Outcome>, epochs: map<nat, Record>, i: nat, j: nat)
    requires Legal(h, epochs) && i < |h| && j < |h| && h[i].Delivered? && h[j].Delivered?
    requires h[i].epoch == h[j].epoch && h[i].n == h[j].n
    ensures i == j
  {
    if i < j {
      InOrder(h, epochs, i, j);
    } else if j < i {
      InOrder(h, epochs, j, i);
    }
  }
}
