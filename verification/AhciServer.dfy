/** The AHCI driver's side of the block device protocol: contiguous requests are
    combined, and the first one's device offset is the sector where the command
    starts. What becomes of the requests of one transfer of the client, whose
    device offsets advance by bytes. */
module AhciServer {
  import opened Muenblock

  /** The largest number of requests that are combined. */
  const REQU_MAX: nat := 64

  const OK: Word64 := 0
  const ENOTSUP: Word64 := 1
  const EIO: Word64 := 10

  /** A device or partition: where it starts, its sector size, where its buffer
      is, whether it has 48 bit addresses, and whether it can discard. */
  datatype Device = Device(
    valid: bool, sectorOffset: Word64, sectorSize: Word32, base: Word64, wide: bool, discards: bool)

  /** The requests that wait to be combined with the next one. */
  datatype Current =
    | Nothing
    | Group(kind: Kind, device: nat, deviceOffset: Word64, bufferOffset: Word64, length: Word64,
            tags: seq<Word32>)

  /** What goes to the device. */
  datatype Command = Command(kind: Kind, start: Word64, count: Word32, address: Word64)
  datatype Response = Response(kind: Kind, device: nat, tag: Word32, status: Word64)

  datatype State = State(current: Current, issued: seq<Command>, responses: seq<Response>)

  /** A request, or the request channel found empty. */
  datatype Event = Incoming(request: Request) | Drained

  // ----- the driver -----

  function BitAnd(a: nat, b: nat): nat {
    if a == 0 || b == 0 then 0 else 2 * BitAnd(a / 2, b / 2) + (a % 2) * (b % 2)
  }

  /** The check before a command: one of the two is a multiple of the sector
      size, if that is a power of two. */
  predicate Aligned(dev: Device, g: Current)
    requires g.Group? && dev.sectorSize > 0
  {
    BitAnd(g.deviceOffset, dev.sectorSize - 1) == 0 || BitAnd(g.length, dev.sectorSize - 1) == 0
  }

  function Limit(dev: Device): nat {
    if dev.wide then 0x1_0000 else 0x100
  }

  function Capacity(dev: Device): nat {
    if dev.wide then 0x1_0000_0000_0000 else 0x1000_0000
  }

  predicate Accepted(dev: Device, c: Command) {
    && c.start < Capacity(dev) && c.count <= Limit(dev)
    && (c.kind.Discard? ==> dev.discards && dev.wide)
  }

  function CommandOf(dev: Device, g: Current): Command
    requires g.Group? && dev.sectorSize > 0
  {
    Command(g.kind, Plus(g.deviceOffset, dev.sectorOffset), (g.length / dev.sectorSize) % W32,
            Plus(g.bufferOffset, dev.base))
  }

  predicate Goes(dev: Device, g: Current)
    requires g.Group? && dev.sectorSize > 0
  {
    Aligned(dev, g) && Accepted(dev, CommandOf(dev, g))
  }

  /** The status, given how the device executes the next command. */
  function Status(dev: Device, g: Current, works: bool): Word64
    requires g.Group? && dev.sectorSize > 0
  {
    if !Aligned(dev, g) then EIO
    else if !Accepted(dev, CommandOf(dev, g)) then ENOTSUP
    else if works then OK else EIO
  }

  function Replies(g: Current, status: Word64): seq<Response>
    requires g.Group?
  {
    seq(|g.tags|, i requires 0 <= i < |g.tags| => Response(g.kind, g.device, g.tags[i], status))
  }

  function Finish(dev: Device, works: nat -> bool, s: State): State {
    if s.current.Nothing? || dev.sectorSize == 0 then s.(current := Nothing)
    else
      var g := s.current;
      State(Nothing, s.issued + (if Goes(dev, g) then [CommandOf(dev, g)] else []),
            s.responses + Replies(g, Status(dev, g, works(|s.issued|))))
  }

  /** The request is contiguous with those that wait, and there is room. */
  predicate Continues(g: Current, r: Request)
    requires g.Group?
  {
    && r.kind == g.kind && r.device == g.device && |g.tags| != REQU_MAX
    && r.bufferOffset == Plus(g.bufferOffset, g.length)
    && r.deviceOffset == Plus(g.deviceOffset, g.length)
  }

  function Process(dev: Device, works: nat -> bool, s: State, r: Request): State {
    if !dev.valid then s.(responses := s.responses + [Response(r.kind, r.device, r.tag, 1)])
    else
      var s1 := if s.current.Group? && !Continues(s.current, r) then Finish(dev, works, s) else s;
      s1.(current := Joined(s1.current, r))
  }

  function Joined(g: Current, r: Request): Current {
    if g.Nothing? then Group(r.kind, r.device, r.deviceOffset, r.bufferOffset, r.length, [r.tag])
    else g.(length := Plus(g.length, r.length), tags := g.tags + [r.tag])
  }

  function Step(dev: Device, works: nat -> bool, s: State, ev: Event): State {
    match ev
    case Incoming(r) => Process(dev, works, s, r)
    case Drained => Finish(dev, works, s)
  }

  function Run(dev: Device, works: nat -> bool, s: State, evs: seq<Event>): State {
    if evs == [] then s
    else Step(dev, works, Run(dev, works, s, evs[..|evs| - 1]), evs[|evs| - 1])
  }

  // ----- the same in place -----

  class Server {
    const dev: Device
    /** How the device will execute the commands, one after the other. */
    const works: nat -> bool
    var current: Current
    var issued: seq<Command>
    var responses: seq<Response>

    function St(): State
      reads this
    {
      State(current, issued, responses)
    }

    constructor (dev: Device, works: nat -> bool)
      ensures this.dev == dev && this.works == works && St() == State(Nothing, [], [])
    {
      this.dev, this.works := dev, works;
      current, issued, responses := Nothing, [], [];
    }

    method FinishCurrentRequest()
      modifies this
      ensures St() == Finish(dev, works, old(St()))
    {
      if current.Nothing? || dev.sectorSize == 0 {
        current := Nothing;
        return;
      }
      var g := current;
      var status := EIO;
      if BitAnd(g.deviceOffset, dev.sectorSize - 1) == 0 || BitAnd(g.length, dev.sectorSize - 1) == 0 {
        status := Execute(CommandOf(dev, g));
      }
      ghost var before := responses;
      for i := 0 to |g.tags|
        invariant current == g && issued == old(issued) + (if Goes(dev, g) then [CommandOf(dev, g)] else [])
        invariant responses == before + Replies(g, status)[..i]
      {
        responses := responses + [Response(g.kind, g.device, g.tags[i], status)];
      }
      assert Replies(g, status)[..|g.tags|] == Replies(g, status);
      current := Nothing;
    }

    /** The device driver's checks, then the device. */
    method Execute(c: Command) returns (status: Word64)
      modifies this`issued
      ensures issued == old(issued) + (if Accepted(dev, c) then [c] else [])
      ensures status == if !Accepted(dev, c) then ENOTSUP else if works(|old(issued)|) then OK else EIO
    {
      if c.start >= Capacity(dev) || c.count > Limit(dev) || (c.kind.Discard? && !(dev.discards && dev.wide)) {
        return ENOTSUP;
      }
      status := if works(|issued|) then OK else EIO;
      issued := issued + [c];
    }

    method ProcessRequest(r: Request)
      modifies this
      ensures St() == Process(dev, works, old(St()), r)
    {
      if !dev.valid {
        responses := responses + [Response(r.kind, r.device, r.tag, 1)];
        return;
      }
      if current.Group? && !Continues(current, r) {
        FinishCurrentRequest();
      }
      if current.Nothing? {
        current := Group(r.kind, r.device, r.deviceOffset, r.bufferOffset, r.length, [r.tag]);
      } else {
        current := current.(length := Plus(current.length, r.length), tags := current.tags + [r.tag]);
      }
    }
  }

  // ----- the requests of one transfer -----

  /** The first k requests of a transfer; visits tells ahead of which of them the
      driver finds the channel empty. */
  function Events(t: Transfer, visits: nat -> bool, k: nat): seq<Event> {
    if k == 0 then []
    else
      Events(t, visits, k - 1) + (if visits(k - 1) then [Drained] else []) + [Incoming(RequestAt(t, k - 1))]
  }

  /** All of them; afterwards the channel is empty. */
  function Service(dev: Device, works: nat -> bool, t: Transfer, visits: nat -> bool): State
    requires t.max > 0
  {
    Finish(dev, works, Run(dev, works, State(Nothing, [], []), Events(t, visits, Count(t))))
  }

  /** The requests among the first k that are not combined with the one before. */
  function Starts(visits: nat -> bool, k: nat): (g: seq<nat>)
    ensures k > 0 ==> g != [] && g[0] == 0
    ensures forall i :: 0 <= i < |g| ==> g[i] < k
    ensures forall i, j :: 0 <= i < j < |g| ==> g[i] < g[j]
  {
    if k == 0 then []
    else
      var g := Starts(visits, k - 1);
      if Begins(visits, g, k - 1) then g + [k - 1] else g
  }

  predicate Begins(visits: nat -> bool, g: seq<nat>, k: nat) {
    g == [] || visits(k) || k - g[|g| - 1] >= REQU_MAX
  }

  function Tags(a: nat, b: nat): (tags: seq<Word32>)
    requires a <= b
    ensures |tags| == b - a && forall i :: 0 <= i < b - a ==> tags[i] == Tag(a + i)
    decreases b - a
  {
    if a == b then [] else Tags(a, b - 1) + [Tag(b - 1)]
  }

  /** Requests a to b - 1, combined. */
  function GroupOf(t: Transfer, a: nat, b: nat): (g: Current)
    requires a < b
    ensures g.Group?
  {
    Group(t.kind, t.device, RequestAt(t, a).deviceOffset, RequestAt(t, a).bufferOffset,
          Bytes(Done(t, b) - Done(t, a), t.size), Tags(a, b))
  }

  function CommandsOf(dev: Device, t: Transfer, a: nat, b: nat): seq<Command>
    requires a < b && dev.sectorSize > 0
  {
    if Goes(dev, GroupOf(t, a, b)) then [CommandOf(dev, GroupOf(t, a, b))] else []
  }

  predicate Increasing(g: seq<nat>) {
    forall i, j :: 0 <= i < j < |g| ==> g[i] < g[j]
  }

  /** The commands of all groups but the last one. */
  function Closed(dev: Device, t: Transfer, g: seq<nat>): seq<Command>
    requires Increasing(g) && dev.sectorSize > 0
  {
    if |g| <= 1 then []
    else Closed(dev, t, g[..|g| - 1]) + CommandsOf(dev, t, g[|g| - 2], g[|g| - 1])
  }

  function Answered(dev: Device, works: nat -> bool, t: Transfer, a: nat, b: nat, issued: nat): seq<Response>
    requires a < b && dev.sectorSize > 0
  {
    Replies(GroupOf(t, a, b), Status(dev, GroupOf(t, a, b), works(issued)))
  }

  function ClosedReplies(dev: Device, works: nat -> bool, t: Transfer, g: seq<nat>): seq<Response>
    requires Increasing(g) && dev.sectorSize > 0
  {
    if |g| <= 1 then []
    else
      var front := g[..|g| - 1];
      ClosedReplies(dev, works, t, front)
        + Answered(dev, works, t, g[|g| - 2], g[|g| - 1], |Closed(dev, t, front)|)
  }

  /** The driver after k requests. */
  ghost predicate After(dev: Device, works: nat -> bool, t: Transfer, visits: nat -> bool, k: nat, s: State)
    requires dev.sectorSize > 0
  {
    var g := Starts(visits, k);
    && s.issued == Closed(dev, t, g) && s.responses == ClosedReplies(dev, works, t, g)
    && (if k == 0 then s.current.Nothing?
        else k - g[|g| - 1] <= REQU_MAX && s.current == GroupOf(t, g[|g| - 1], k))
  }

  /** The size of requests a to b - 1, in sectors. */
  function Size(t: Transfer, a: nat, b: nat): int {
    Done(t, b) - Done(t, a)
  }

  function InBytes(sectors: int, size: nat): (b: int)
    ensures sectors >= 0 ==> b >= 0
  {
    sectors * size
  }

  // ----- the requests are combined wherever nothing comes between them -----

  /** The offsets of a group and of the request behind it. */
  lemma GroupEnds(t: Transfer, a: nat, k: nat)
    requires t.max > 0 && t.size > 0 && NoWrap(t) && a < k < Count(t)
    ensures var g, r := GroupOf(t, a, k), RequestAt(t, k);
      && Plus(g.bufferOffset, g.length) == r.bufferOffset && Plus(g.deviceOffset, g.length) == r.deviceOffset
      && Plus(g.length, r.length) == GroupOf(t, a, k + 1).length && r.tag == Tag(k)
  {
    hide *;
    GroupRange(t, a, k);
    GroupRange(t, a, k + 1);
    RangeInBytes(t, k);
    DoneMonotone(t, k, k + 1);
    Parts(Done(t, a), Done(t, k), Done(t, k + 1), t.size);
    Sizes(t, a, k);
    Sums(t, a, k, InBytes(Done(t, a), t.size), InBytes(Size(t, a, k), t.size), InBytes(Done(t, k), t.size),
         InBytes(Size(t, k, k + 1), t.size));
  }

  lemma Sizes(t: Transfer, a: nat, k: nat)
    ensures Size(t, a, k) == Done(t, k) - Done(t, a) && Size(t, k, k + 1) == Done(t, k + 1) - Done(t, k)
    ensures Size(t, a, k + 1) == Done(t, k + 1) - Done(t, a)
  {
    hide Done;
  }

  /** The fields of a request in closed form. */
  lemma RangeInBytes(t: Transfer, k: nat)
    requires t.max > 0 && t.size > 0 && NoWrap(t) && k < Count(t)
    ensures var r := RequestAt(t, k);
      && r.bufferOffset == t.buffer + InBytes(Done(t, k), t.size)
      && r.deviceOffset == t.start + InBytes(Done(t, k), t.size)
      && r.length == InBytes(Size(t, k, k + 1), t.size)
  {
    RequestRange(t, k);
    SplitAt(t, k);
    hide Done, Count, NoWrap, Split, RequestAt;
  }

  lemma SplitAt(t: Transfer, k: nat)
    requires t.max > 0 && k < Count(t)
    ensures Split(t)[k] == RequestAt(t, k)
  {
    hide Count, RequestAt;
  }

  /** The sums that the driver compares, from those of whole numbers. */
  lemma Sums(t: Transfer, a: nat, k: nat, x: nat, length: nat, y: nat, next: nat)
    requires a < k && x + length == y
    requires GroupOf(t, a, k).deviceOffset == t.start + x && GroupOf(t, a, k).bufferOffset == t.buffer + x
    requires GroupOf(t, a, k).length == length && GroupOf(t, a, k + 1).length == length + next
    requires RequestAt(t, k).deviceOffset == t.start + y && RequestAt(t, k).bufferOffset == t.buffer + y
    requires RequestAt(t, k).length == next
    ensures var g, r := GroupOf(t, a, k), RequestAt(t, k);
      && Plus(g.bufferOffset, g.length) == r.bufferOffset && Plus(g.deviceOffset, g.length) == r.deviceOffset
      && Plus(g.length, r.length) == GroupOf(t, a, k + 1).length && r.tag == Tag(k)
  {
    hide *;
    RequestTag(t, k);
    PlusExact(t.start + x, length);
    PlusExact(t.buffer + x, length);
    PlusExact(length, next);
  }

  lemma RequestTag(t: Transfer, k: nat)
    ensures RequestAt(t, k).tag == Tag(k)
  {
    hide Tag, Bytes, Done, Plus;
  }

  lemma Parts(a: nat, b: nat, c: nat, size: nat)
    requires a <= b <= c
    ensures InBytes(a, size) + InBytes(b - a, size) == InBytes(b, size)
    ensures InBytes(b - a, size) + InBytes(c - b, size) == InBytes(c - a, size)
    ensures InBytes(a, size) <= InBytes(b, size) && InBytes(c - a, size) <= InBytes(c, size)
    ensures a < b && size > 0 ==> InBytes(a, size) < InBytes(b, size)
  {
    Scaled(a, b, size);
    Scaled(b, c, size);
    Scaled(a, c, size);
    Scaled(c - a, c, size);
    Scaled(b - a, c - a, size);
  }

  lemma DoneBelow(t: Transfer, k: nat)
    ensures Done(t, k) <= t.sectors
  {
  }

  /** Without wrap-around the fields of a group are the plain sums. */
  lemma GroupRange(t: Transfer, a: nat, b: nat)
    requires t.max > 0 && t.size > 0 && NoWrap(t) && a < b <= Count(t)
    ensures Done(t, a) < Done(t, b) <= t.sectors && 0 < Size(t, a, b)
    ensures var g, offset := GroupOf(t, a, b), InBytes(Done(t, a), t.size);
      && g.deviceOffset == t.start + offset && g.bufferOffset == t.buffer + offset && g.kind == t.kind
      && g.length == InBytes(Size(t, a, b), t.size) && t.buffer + offset + g.length < W64
  {
    hide *;
    RangeInBytes(t, a);
    Advances(t, a);
    DoneMonotone(t, a + 1, b);
    DoneBelow(t, b);
    Sizes(t, a, b);
    InRange(t, Done(t, a), Done(t, b));
    GroupFields(t, a, b);
  }

  lemma GroupFields(t: Transfer, a: nat, b: nat)
    requires a < b
    ensures var g := GroupOf(t, a, b);
      && g.deviceOffset == RequestAt(t, a).deviceOffset && g.bufferOffset == RequestAt(t, a).bufferOffset
      && g.kind == t.kind && g.length == Bytes(Size(t, a, b), t.size)
  {
    hide Bytes, Done;
  }

  lemma InRange(t: Transfer, x: nat, y: nat)
    requires NoWrap(t) && x <= y <= t.sectors
    ensures Bytes(y - x, t.size) == InBytes(y - x, t.size)
    ensures t.buffer + InBytes(x, t.size) + InBytes(y - x, t.size) < W64
  {
    NoWrapInBytes(t);
    Parts(x, y, t.sectors, t.size);
    Parts(0, y, t.sectors, t.size);
    InBytesExact(y - x, t.size);
    hide *;
  }

  lemma NoWrapInBytes(t: Transfer)
    requires NoWrap(t)
    ensures t.start + InBytes(t.sectors, t.size) < W64 && t.buffer + InBytes(t.sectors, t.size) < W64
  {
  }

  lemma InBytesExact(n: nat, size: nat)
    ensures InBytes(n, size) < W64 ==> Bytes(n, size) == InBytes(n, size)
  {
  }

  lemma Advances(t: Transfer, k: nat)
    requires t.max > 0 && k < Count(t)
    ensures Done(t, k) < Done(t, k + 1)
  {
    DoneGrows(t, k);
    NextDone(t, k, Min(t.sectors - Done(t, k), t.max));
    hide Count;
  }

  lemma FirstOfGroup(t: Transfer, k: nat)
    ensures Joined(Nothing, RequestAt(t, k)) == GroupOf(t, k, k + 1)
  {
    hide Done, Bytes;
    assert Tags(k, k + 1) == [Tag(k)];
  }

  lemma NextOfGroup(t: Transfer, a: nat, k: nat)
    requires t.max > 0 && t.size > 0 && NoWrap(t) && a < k < Count(t)
    ensures Joined(GroupOf(t, a, k), RequestAt(t, k)) == GroupOf(t, a, k + 1)
    ensures Continues(GroupOf(t, a, k), RequestAt(t, k)) <==> k - a != REQU_MAX
  {
    GroupEnds(t, a, k);
    hide Done, Bytes, Count, Plus;
    assert Tags(a, k + 1) == Tags(a, k) + [Tag(k)];
  }

  lemma ClosedNext(dev: Device, works: nat -> bool, t: Transfer, g: seq<nat>, k: nat)
    requires dev.sectorSize > 0 && g != [] && Increasing(g) && g[|g| - 1] < k
    ensures Increasing(g + [k])
    ensures Closed(dev, t, g + [k]) == Closed(dev, t, g) + CommandsOf(dev, t, g[|g| - 1], k)
    ensures ClosedReplies(dev, works, t, g + [k])
      == ClosedReplies(dev, works, t, g) + Answered(dev, works, t, g[|g| - 1], k, |Closed(dev, t, g)|)
  {
    LastOfAll(g, k);
    ClosedLast(dev, t, g + [k]);
    hide Closed, CommandsOf, Answered;
    RepliesLast(dev, works, t, g + [k]);
  }

  lemma LastOfAll(g: seq<nat>, k: nat)
    requires g != [] && Increasing(g) && g[|g| - 1] < k
    ensures var g' := g + [k];
      Increasing(g') && g'[..|g'| - 1] == g && g'[|g'| - 2] == g[|g| - 1] && g'[|g'| - 1] == k
  {
  }

  lemma ClosedLast(dev: Device, t: Transfer, g: seq<nat>)
    requires Increasing(g) && dev.sectorSize > 0 && |g| > 1
    ensures Closed(dev, t, g) == Closed(dev, t, g[..|g| - 1]) + CommandsOf(dev, t, g[|g| - 2], g[|g| - 1])
  {
    hide CommandsOf;
  }

  lemma RepliesLast(dev: Device, works: nat -> bool, t: Transfer, g: seq<nat>)
    requires Increasing(g) && dev.sectorSize > 0 && |g| > 1
    ensures ClosedReplies(dev, works, t, g) == ClosedReplies(dev, works, t, g[..|g| - 1])
      + Answered(dev, works, t, g[|g| - 2], g[|g| - 1], |Closed(dev, t, g[..|g| - 1])|)
  {
    hide Answered, Closed;
  }

  /** Finishing closes the last group. */
  lemma FinishCloses(dev: Device, works: nat -> bool, t: Transfer, g: seq<nat>, k: nat, s: State)
    requires dev.sectorSize > 0 && g != [] && Increasing(g) && g[|g| - 1] < k
    requires s == State(GroupOf(t, g[|g| - 1], k), Closed(dev, t, g), ClosedReplies(dev, works, t, g))
    ensures Increasing(g + [k])
    ensures Finish(dev, works, s)
      == State(Nothing, Closed(dev, t, g + [k]), ClosedReplies(dev, works, t, g + [k]))
  {
    ClosedNext(dev, works, t, g, k);
    hide GroupOf, Goes, Status, Replies, CommandOf, Closed, ClosedReplies;
  }

  lemma NothingClosed(dev: Device, works: nat -> bool, t: Transfer, k: nat)
    requires dev.sectorSize > 0
    ensures Closed(dev, t, [k]) == [] && ClosedReplies(dev, works, t, [k]) == []
    ensures Closed(dev, t, []) == [] && ClosedReplies(dev, works, t, []) == []
  {
  }

  lemma {:induction false} RunIsAfter(dev: Device, works: nat -> bool, t: Transfer, visits: nat -> bool, k: nat)
    requires dev.valid && dev.sectorSize > 0 && t.max > 0 && t.size > 0 && NoWrap(t) && k <= Count(t)
    ensures After(dev, works, t, visits, k, Run(dev, works, State(Nothing, [], []), Events(t, visits, k)))
  {
    hide *;
    if k == 0 {
      RunStarts(dev, works, t, visits);
    } else {
      RunNext(dev, works, t, visits, k - 1, State(Nothing, [], []));
      RunIsAfter(dev, works, t, visits, k - 1);
      AfterNext(dev, works, t, visits, k - 1, Run(dev, works, State(Nothing, [], []), Events(t, visits, k - 1)));
    }
  }

  lemma RunStarts(dev: Device, works: nat -> bool, t: Transfer, visits: nat -> bool)
    requires dev.sectorSize > 0
    ensures After(dev, works, t, visits, 0, Run(dev, works, State(Nothing, [], []), Events(t, visits, 0)))
  {
    NothingClosed(dev, works, t, 0);
    hide Closed, ClosedReplies;
  }

  function Visited(dev: Device, works: nat -> bool, visits: nat -> bool, k: nat, s: State): State {
    if visits(k) then Finish(dev, works, s) else s
  }

  lemma RunNext(dev: Device, works: nat -> bool, t: Transfer, visits: nat -> bool, k: nat, idle: State)
    ensures var s := Run(dev, works, idle, Events(t, visits, k));
      Run(dev, works, idle, Events(t, visits, k + 1))
      == Process(dev, works, Visited(dev, works, visits, k, s), RequestAt(t, k))
  {
    var evs, visit, last := Events(t, visits, k), if visits(k) then [Drained] else [], Incoming(RequestAt(t, k));
    assert (evs + visit + [last])[..|evs + visit|] == evs + visit;
    assert evs + [] == evs && (evs + [Drained])[..|evs|] == evs;
    hide Process, Finish, RequestAt;
  }

  lemma AfterNext(dev: Device, works: nat -> bool, t: Transfer, visits: nat -> bool, k: nat, s: State)
    requires dev.valid && dev.sectorSize > 0 && t.max > 0 && t.size > 0 && NoWrap(t) && k < Count(t)
    requires After(dev, works, t, visits, k, s)
    ensures After(dev, works, t, visits, k + 1,
                  Process(dev, works, Visited(dev, works, visits, k, s), RequestAt(t, k)))
  {
    hide *;
    var g := Starts(visits, k);
    FirstOfGroup(t, k);
    if k == 0 {
      FirstRequest(dev, works, t, visits, s);
    } else {
      GroupWaits(dev, works, t, visits, k, s);
      var a := g[|g| - 1];
      NextOfGroup(t, a, k);
      FinishCloses(dev, works, t, g, k, s);
      if Begins(visits, g, k) {
        NextBegins(dev, works, t, visits, k, s);
      } else {
        NextJoins(dev, works, t, visits, k, s);
      }
    }
  }

  lemma GroupWaits(dev: Device, works: nat -> bool, t: Transfer, visits: nat -> bool, k: nat, s: State)
    requires dev.sectorSize > 0 && k > 0 && After(dev, works, t, visits, k, s)
    ensures var g := Starts(visits, k);
      && g != [] && Increasing(g) && g[|g| - 1] < k
      && s == State(GroupOf(t, g[|g| - 1], k), Closed(dev, t, g), ClosedReplies(dev, works, t, g))
      && k - g[|g| - 1] <= REQU_MAX
  {
    hide Closed, ClosedReplies, GroupOf;
  }

  lemma FirstRequest(dev: Device, works: nat -> bool, t: Transfer, visits: nat -> bool, s: State)
    requires dev.valid && dev.sectorSize > 0 && After(dev, works, t, visits, 0, s)
    requires Joined(Nothing, RequestAt(t, 0)) == GroupOf(t, 0, 1)
    ensures After(dev, works, t, visits, 1, Process(dev, works, Visited(dev, works, visits, 0, s), RequestAt(t, 0)))
  {
    NothingClosed(dev, works, t, 0);
    NothingToFinish(dev, works, s);
    StartsNext(visits, 0);
    assert Starts(visits, 1) == [0];
    ProcessStarts(dev, works, s, RequestAt(t, 0));
    hide *;
    IsAfter(dev, works, t, visits, 1, Process(dev, works, s, RequestAt(t, 0)));
  }

  /** Request k starts a new group. */
  lemma NextBegins(dev: Device, works: nat -> bool, t: Transfer, visits: nat -> bool, k: nat, s: State)
    requires dev.valid && dev.sectorSize > 0 && k > 0 && Begins(visits, Starts(visits, k), k)
    requires var g := Starts(visits, k);
      && s.current == GroupOf(t, g[|g| - 1], k)
      && Joined(Nothing, RequestAt(t, k)) == GroupOf(t, k, k + 1)
      && (Continues(s.current, RequestAt(t, k)) <==> k - g[|g| - 1] != REQU_MAX) && k - g[|g| - 1] <= REQU_MAX
      && Finish(dev, works, s) == State(Nothing, Closed(dev, t, g + [k]), ClosedReplies(dev, works, t, g + [k]))
    ensures After(dev, works, t, visits, k + 1,
                  Process(dev, works, Visited(dev, works, visits, k, s), RequestAt(t, k)))
  {
    assert Starts(visits, k + 1) == Starts(visits, k) + [k];
    hide GroupOf, Finish, Joined, Continues, Closed, ClosedReplies, RequestAt, Starts;
  }

  /** Request k joins the group that waits. */
  lemma NextJoins(dev: Device, works: nat -> bool, t: Transfer, visits: nat -> bool, k: nat, s: State)
    requires dev.valid && dev.sectorSize > 0 && k > 0 && !Begins(visits, Starts(visits, k), k)
    requires var g := Starts(visits, k);
      && s == State(GroupOf(t, g[|g| - 1], k), Closed(dev, t, g), ClosedReplies(dev, works, t, g))
      && Joined(s.current, RequestAt(t, k)) == GroupOf(t, g[|g| - 1], k + 1)
      && (Continues(s.current, RequestAt(t, k)) <==> k - g[|g| - 1] != REQU_MAX)
    ensures After(dev, works, t, visits, k + 1,
                  Process(dev, works, Visited(dev, works, visits, k, s), RequestAt(t, k)))
  {
    StartsNext(visits, k);
    var s' := s.(current := GroupOf(t, Starts(visits, k)[|Starts(visits, k)| - 1], k + 1));
    assert Process(dev, works, Visited(dev, works, visits, k, s), RequestAt(t, k)) == s' by {
      hide GroupOf, Finish, Joined, Continues, Closed, ClosedReplies, RequestAt, Starts;
    }
    assert k + 1 - Starts(visits, k)[|Starts(visits, k)| - 1] <= REQU_MAX;
    hide *;
    IsAfter(dev, works, t, visits, k + 1, s');
  }

  lemma StartsNext(visits: nat -> bool, k: nat)
    ensures var g := Starts(visits, k); Starts(visits, k + 1) == if Begins(visits, g, k) then g + [k] else g
  {
    hide Begins;
  }

  lemma ProcessStarts(dev: Device, works: nat -> bool, s: State, r: Request)
    requires dev.valid && s.current.Nothing?
    ensures Process(dev, works, s, r) == s.(current := Joined(Nothing, r))
  {
    hide Finish, Joined;
  }

  lemma IsAfter(dev: Device, works: nat -> bool, t: Transfer, visits: nat -> bool, k: nat, s: State)
    requires dev.sectorSize > 0 && k > 0
    requires var g := Starts(visits, k);
      && s == State(GroupOf(t, g[|g| - 1], k), Closed(dev, t, g), ClosedReplies(dev, works, t, g))
      && k - g[|g| - 1] <= REQU_MAX
    ensures After(dev, works, t, visits, k, s)
  {
    hide Closed, ClosedReplies, GroupOf, Starts;
  }

  lemma NothingToFinish(dev: Device, works: nat -> bool, s: State)
    requires s.current.Nothing?
    ensures Finish(dev, works, s) == s
  {
  }

  /** The service of a transfer: one command for every group, one answer for
      every request. */
  lemma ServiceIsGroups(dev: Device, works: nat -> bool, t: Transfer, visits: nat -> bool)
    requires dev.valid && dev.sectorSize > 0 && t.max > 0 && t.size > 0 && NoWrap(t) && t.sectors > 0
    ensures Count(t) > 0
    ensures var g := Starts(visits, Count(t)) + [Count(t)];
      Increasing(g) && Service(dev, works, t, visits)
        == State(Nothing, Closed(dev, t, g), ClosedReplies(dev, works, t, g))
  {
    var n := Count(t);
    DoneGrows(t, 0);
    RunIsAfter(dev, works, t, visits, n);
    var s := Run(dev, works, State(Nothing, [], []), Events(t, visits, n));
    hide Count, GroupOf, Finish, Closed, ClosedReplies, Run, Events;
    FinishCloses(dev, works, t, Starts(visits, n), n, s);
  }

  // ----- every request is answered -----

  lemma {:induction false} RepliesTags(dev: Device, works: nat -> bool, t: Transfer, g: seq<nat>)
    requires Increasing(g) && dev.sectorSize > 0 && g != [] && g[0] == 0
    ensures AnswersOf(t, g[|g| - 1], ClosedReplies(dev, works, t, g))
  {
    hide *;
    if |g| == 1 {
      assert g == [0];
      NothingClosed(dev, works, t, 0);
      NoAnswers(t);
    } else {
      var front, k := g[..|g| - 1], g[|g| - 1];
      assert g == front + [k];
      Fronts(g);
      RepliesTags(dev, works, t, front);
      NextAnswers(dev, works, t, front, k);
    }
  }

  lemma NoAnswers(t: Transfer)
    ensures AnswersOf(t, 0, [])
  {
  }

  lemma Fronts(g: seq<nat>)
    requires Increasing(g) && |g| > 1
    ensures Increasing(g[..|g| - 1]) && g[|g| - 2] < g[|g| - 1]
  {
  }

  lemma NextAnswers(dev: Device, works: nat -> bool, t: Transfer, g: seq<nat>, k: nat)
    requires dev.sectorSize > 0 && g != [] && Increasing(g) && g[|g| - 1] < k
    requires AnswersOf(t, g[|g| - 1], ClosedReplies(dev, works, t, g))
    ensures Increasing(g + [k]) && AnswersOf(t, k, ClosedReplies(dev, works, t, g + [k]))
  {
    hide *;
    ClosedNext(dev, works, t, g, k);
    var issued := |Closed(dev, t, g)|;
    AnsweredTags(dev, works, t, g[|g| - 1], k, issued);
    MoreAnswers(t, g[|g| - 1], k, ClosedReplies(dev, works, t, g), Answered(dev, works, t, g[|g| - 1], k, issued));
  }

  /** One answer each for the first n requests, in their order. */
  ghost predicate AnswersOf(t: Transfer, n: nat, r: seq<Response>) {
    |r| == n && forall k :: 0 <= k < n ==> r[k].tag == Tag(k) && r[k].kind == t.kind && r[k].device == t.device
  }

  lemma AnsweredTags(dev: Device, works: nat -> bool, t: Transfer, a: nat, b: nat, issued: nat)
    requires a < b && dev.sectorSize > 0
    ensures var r := Answered(dev, works, t, a, b, issued);
      |r| == b - a && forall i :: 0 <= i < b - a ==>
        r[i].tag == Tag(a + i) && r[i].kind == t.kind && r[i].device == t.device
  {
    hide Tag, Status, Bytes, Done;
  }

  lemma MoreAnswers(t: Transfer, a: nat, b: nat, front: seq<Response>, next: seq<Response>)
    requires a < b && AnswersOf(t, a, front)
    requires |next| == b - a && forall i :: 0 <= i < b - a ==>
      next[i].tag == Tag(a + i) && next[i].kind == t.kind && next[i].device == t.device
    ensures AnswersOf(t, b, front + next)
  {
    hide Tag;
  }

  /** Each request of a transfer is answered exactly once, in the order sent. */
  lemma EveryRequestAnswered(dev: Device, works: nat -> bool, t: Transfer, visits: nat -> bool)
    requires dev.valid && dev.sectorSize > 0 && t.max > 0 && t.size > 0 && NoWrap(t) && t.sectors > 0
    ensures AnswersOf(t, Count(t), Service(dev, works, t, visits).responses)
  {
    ServiceIsGroups(dev, works, t, visits);
    RepliesTags(dev, works, t, Starts(visits, Count(t)) + [Count(t)]);
    hide Count, Service, ClosedReplies, Closed, AnswersOf;
  }

  // ----- which sectors are transferred -----

  /** Some command moves a sector from or to an address. */
  ghost predicate Moves(commands: seq<Command>, size: nat, sector: nat, address: nat) {
    exists i, j: nat :: 0 <= i < |commands| && Moved(commands[i], size, j, sector, address)
  }

  predicate Moved(c: Command, size: nat, j: nat, sector: nat, address: nat) {
    j < c.count && sector == c.start + j && address == c.address + InBytes(j, size)
  }

  /** The client asked for it. */
  ghost predicate Asked(dev: Device, t: Transfer, sector: nat, address: nat) {
    exists j: nat :: IsAsked(dev, t, j, sector, address)
  }

  predicate IsAsked(dev: Device, t: Transfer, j: nat, sector: nat, address: nat) {
    j < t.sectors && sector == dev.sectorOffset + t.start + j && address == dev.base + t.buffer + InBytes(j, t.size)
  }

  ghost predicate RightSectors(dev: Device, t: Transfer, commands: seq<Command>) {
    forall sector, address :: Moves(commands, t.size, sector, address) <==> Asked(dev, t, sector, address)
  }

  function Pow2(k: nat): nat {
    if k == 0 then 1 else 2 * Pow2(k - 1)
  }

  ghost predicate IsPower(n: nat) {
    exists k: nat :: n == Pow2(k)
  }

  /** The device is the one that the client asked about its sector size; the
      sectors are on the device and the buffer is in memory. */
  ghost predicate Fits(dev: Device, t: Transfer) {
    && dev.valid && dev.sectorSize == t.size && IsPower(t.size) && t.max > 0 && NoWrap(t) && !t.kind.Discard?
    && dev.sectorOffset + t.start + t.sectors <= Capacity(dev)
    && dev.sectorOffset + t.start + InBytes(t.sectors, t.size) < W64
    && dev.base + t.buffer + InBytes(t.sectors, t.size) < W64
  }

  lemma {:induction false} MaskOfMultiple(q: nat, k: nat)
    ensures Pow2(k) > 0 && BitAnd(q * Pow2(k), Pow2(k) - 1) == 0
  {
    if k == 0 {
      MaskOfOne(q);
    } else {
      MaskOfMultiple(q, k - 1);
      hide BitAnd;
      Halves(q * Pow2(k - 1), Pow2(k - 1));
      Doubled(q, Pow2(k - 1));
    }
  }

  lemma MaskOfOne(q: nat)
    ensures q * 1 == q && BitAnd(q, 0) == 0
  {
  }

  lemma Doubled(q: nat, n: nat)
    ensures q * (2 * n) == 2 * (q * n)
  {
  }

  lemma Halves(a: nat, b: nat)
    requires b > 0 && BitAnd(a, b - 1) == 0
    ensures BitAnd(2 * a, 2 * b - 1) == 0
  {
    assert (2 * a) / 2 == a && (2 * a) % 2 == 0 && (2 * b - 1) / 2 == b - 1;
  }

  /** The command of a group, if it is not too large. */
  lemma CommandRange(dev: Device, t: Transfer, a: nat, b: nat)
    requires Fits(dev, t) && a < b <= Count(t)
    ensures t.size > 0 && dev.sectorSize > 0
    ensures var c := CommandOf(dev, GroupOf(t, a, b));
      && c.start == dev.sectorOffset + t.start + InBytes(Done(t, a), t.size)
      && c.address == dev.base + t.buffer + InBytes(Done(t, a), t.size)
      && 0 < Size(t, a, b) && c.count == Size(t, a, b) % W32 && c.kind == t.kind
      && Aligned(dev, GroupOf(t, a, b))
  {
    hide *;
    FitsMeans(dev, t);
    GroupRange(t, a, b);
    WholeSectors(t.size, Size(t, a, b));
    Parts(Done(t, a), t.sectors, t.sectors, t.size);
    InMemory(dev, t, InBytes(Done(t, a), t.size));
    CommandFrom(dev, t, GroupOf(t, a, b), InBytes(Done(t, a), t.size), Size(t, a, b), InBytes(Size(t, a, b), t.size));
  }

  lemma FitsMeans(dev: Device, t: Transfer)
    requires Fits(dev, t)
    ensures t.max > 0 && t.size > 0 && dev.sectorSize == t.size && NoWrap(t) && IsPower(t.size)
  {
    WholeSectors(t.size, 0);
    hide NoWrap, IsPower;
  }

  lemma WholeSectors(size: nat, n: nat)
    requires IsPower(size)
    ensures size > 0 && InBytes(n, size) / size == n && BitAnd(InBytes(n, size), size - 1) == 0
  {
    var k: nat :| size == Pow2(k);
    MaskOfMultiple(n, k);
    Quotient(n, size);
    hide BitAnd, Pow2;
  }

  lemma InMemory(dev: Device, t: Transfer, offset: nat)
    requires Fits(dev, t) && offset <= InBytes(t.sectors, t.size)
    ensures dev.sectorOffset + t.start + offset < W64 && dev.base + t.buffer + offset < W64
  {
    hide InBytes, NoWrap, IsPower, Capacity;
  }

  lemma CommandFrom(dev: Device, t: Transfer, g: Current, offset: nat, n: nat, length: nat)
    requires dev.sectorSize == t.size > 0 && g.Group? && g.kind == t.kind
    requires g.deviceOffset == t.start + offset && g.bufferOffset == t.buffer + offset && g.length == length
    requires dev.sectorOffset + t.start + offset < W64 && dev.base + t.buffer + offset < W64
    requires length / t.size == n && BitAnd(length, t.size - 1) == 0
    ensures var c := CommandOf(dev, g);
      && c.start == dev.sectorOffset + t.start + offset && c.address == dev.base + t.buffer + offset
      && c.count == n % W32 && c.kind == t.kind && Aligned(dev, g)
  {
    PlusExact(t.start + offset, dev.sectorOffset);
    PlusExact(t.buffer + offset, dev.base);
    hide Plus, BitAnd;
  }

  lemma Quotient(q: nat, size: nat)
    requires size > 0
    ensures InBytes(q, size) / size == q
  {
    var d := (q * size) / size;
    assert d * size <= q * size < (d + 1) * size;
    if d != q {
      Scaled(if d < q then d + 1 else q + 1, if d < q then q else d, size);
    }
  }

  /** Each group that is not too large goes to the device, unless the wrong start
      is behind its end. */
  lemma GoesIf(dev: Device, t: Transfer, a: nat, b: nat)
    requires Fits(dev, t) && a < b <= Count(t)
    ensures t.size > 0 && dev.sectorSize > 0
    ensures Goes(dev, GroupOf(t, a, b)) <==>
      && Size(t, a, b) % W32 <= Limit(dev)
      && dev.sectorOffset + t.start + InBytes(Done(t, a), t.size) < Capacity(dev)
  {
    CommandRange(dev, t, a, b);
    IsReadOrWrite(dev, t);
    hide GroupOf, Done, Aligned, Count, CommandOf, InBytes, Fits, Size, Capacity, Limit;
  }

  lemma IsReadOrWrite(dev: Device, t: Transfer)
    requires Fits(dev, t)
    ensures !t.kind.Discard?
  {
    hide InBytes, NoWrap, IsPower, Capacity;
  }

  // ----- the commands, group by group -----

  lemma {:induction false} ClosedHas(dev: Device, t: Transfer, g: seq<nat>, c: Command)
    requires Increasing(g) && dev.sectorSize > 0
    ensures c in Closed(dev, t, g) <==>
      exists i :: 0 <= i < |g| - 1 && InGroup(dev, t, g, i, c)
  {
    hide CommandsOf;
    if |g| > 1 {
      var front, n := g[..|g| - 1], |g| - 1;
      ClosedLast(dev, t, g);
      ClosedHas(dev, t, front, c);
      hide Closed;
      forall i | 0 <= i < |front| - 1 ensures InGroup(dev, t, front, i, c) == InGroup(dev, t, g, i, c) {
      }
      assert c in CommandsOf(dev, t, g[n - 1], g[n]) <==> InGroup(dev, t, g, n - 1, c);
    }
  }

  ghost predicate InGroup(dev: Device, t: Transfer, g: seq<nat>, i: nat, c: Command)
    requires Increasing(g) && dev.sectorSize > 0 && i + 1 < |g|
  {
    c in CommandsOf(dev, t, g[i], g[i + 1])
  }

  /** The groups of a whole transfer. */
  ghost predicate Spans(t: Transfer, g: seq<nat>)
    requires t.max > 0
  {
    |g| >= 2 && Increasing(g) && g[0] == 0 && g[|g| - 1] == Count(t)
  }

  /** All groups are within the limit, and there is only one or sectors are
      bytes. */
  ghost predicate Faithful(dev: Device, t: Transfer, g: seq<nat>) {
    && (forall i :: 0 <= i < |g| - 1 ==> Size(t, g[i], g[i + 1]) <= Limit(dev))
    && (t.size == 1 || |g| == 2)
  }

  lemma Position(t: Transfer, g: seq<nat>, i: nat)
    requires t.max > 0 && Spans(t, g) && i < |g| - 1
    ensures Increasing(g) && g[i] < g[i + 1] <= Count(t)
    ensures Done(t, g[i]) < Done(t, g[i + 1]) <= t.sectors && 0 < Size(t, g[i], g[i + 1])
  {
    assert i + 1 < |g| - 1 ==> g[i + 1] < g[|g| - 1];
    Advances(t, g[i]);
    DoneMonotone(t, g[i] + 1, g[i + 1]);
    DoneBelow(t, g[i + 1]);
    hide Done, Count;
  }

  lemma SpansMeans(t: Transfer, g: seq<nat>)
    requires t.max > 0 && Spans(t, g)
    ensures |g| >= 2 && Increasing(g)
  {
    hide Count, Increasing;
  }

  /** The group that an asked sector belongs to. */
  lemma {:induction false} GroupFor(t: Transfer, g: seq<nat>, j: nat, n: nat) returns (i: nat)
    requires t.max > 0 && Spans(t, g) && n < |g| && j < Done(t, g[n])
    ensures i < n && Done(t, g[i]) <= j < Done(t, g[i + 1])
  {
    DoneGrows(t, 0);
    if j >= Done(t, g[n - 1]) {
      i := n - 1;
    } else {
      i := GroupFor(t, g, j, n - 1);
    }
    hide Done, Count;
  }

  lemma SameAddress(a: nat, b: nat, size: nat)
    requires size > 0 && InBytes(a, size) == InBytes(b, size)
    ensures a == b
  {
    Parts(if a < b then a else b, if a < b then b else a, if a < b then b else a, size);
    hide InBytes;
  }

  /** What a group's command moves, by position in the transfer. */
  lemma GroupMoves(dev: Device, t: Transfer, a: nat, b: nat, sector: nat, address: nat, j: nat)
    requires Fits(dev, t) && a < b <= Count(t)
    ensures t.size > 0 && dev.sectorSize > 0
    ensures var c := CommandOf(dev, GroupOf(t, a, b));
      Moved(c, t.size, j, sector, address) <==>
        && j < Size(t, a, b) % W32
        && sector == dev.sectorOffset + t.start + InBytes(Done(t, a), t.size) + j
        && address == dev.base + t.buffer + InBytes(Done(t, a) + j, t.size)
  {
    hide *;
    CommandRange(dev, t, a, b);
    Parts(Done(t, a), Done(t, a) + j, Done(t, a) + j, t.size);
    MovedBy(CommandOf(dev, GroupOf(t, a, b)), t.size, j, sector, address);
  }

  lemma MovedBy(c: Command, size: nat, j: nat, sector: nat, address: nat)
    ensures Moved(c, size, j, sector, address)
      <==> j < c.count && sector == c.start + j && address == c.address + InBytes(j, size)
  {
    hide InBytes;
  }

  /** Within the condition the commands move exactly what was asked for. */
  lemma GoodIsRight(dev: Device, t: Transfer, g: seq<nat>)
    requires Fits(dev, t) && Spans(t, g) && Faithful(dev, t, g)
    ensures dev.sectorSize > 0 && RightSectors(dev, t, Closed(dev, t, g))
  {
    CommandRange(dev, t, 0, g[|g| - 1]);
    var commands := Closed(dev, t, g);
    forall sector, address
      ensures Moves(commands, t.size, sector, address) <==> Asked(dev, t, sector, address)
    {
      hide Fits, Spans, Faithful, Closed, Moved, IsAsked;
      if Moves(commands, t.size, sector, address) {
        var i, j: nat :| 0 <= i < |commands| && Moved(commands[i], t.size, j, sector, address);
        MovedIsAsked(dev, t, g, commands[i], j, sector, address);
      }
      if Asked(dev, t, sector, address) {
        var j: nat :| IsAsked(dev, t, j, sector, address);
        AskedIsMoved(dev, t, g, j, sector, address);
      }
    }
  }

  /** In a good transfer every group starts at its own sector. */
  lemma GoodStart(dev: Device, t: Transfer, g: seq<nat>, i: nat)
    requires Fits(dev, t) && Spans(t, g) && Faithful(dev, t, g) && i < |g| - 1
    ensures g[i] < g[i + 1] <= Count(t) && t.size > 0 && dev.sectorSize > 0
    ensures InBytes(Done(t, g[i]), t.size) == Done(t, g[i])
    ensures Goes(dev, GroupOf(t, g[i], g[i + 1])) && Size(t, g[i], g[i + 1]) % W32 == Size(t, g[i], g[i + 1])
  {
    hide *;
    FitsMeans(dev, t);
    Position(t, g, i);
    StartsRight(dev, t, g, i);
    SmallWord(dev, Size(t, g[i], g[i + 1]));
    GoesIf(dev, t, g[i], g[i + 1]);
    OnDevice(dev, t, Done(t, g[i]));
  }

  lemma StartsRight(dev: Device, t: Transfer, g: seq<nat>, i: nat)
    requires t.max > 0 && Spans(t, g) && Faithful(dev, t, g) && i < |g| - 1
    ensures InBytes(Done(t, g[i]), t.size) == Done(t, g[i])
    ensures Size(t, g[i], g[i + 1]) <= Limit(dev) && Limit(dev) < W32
  {
    DoneGrows(t, 0);
    assert t.size == 1 || i == 0;
    hide Done, Count, Spans, Size;
  }

  lemma OnDevice(dev: Device, t: Transfer, k: nat)
    requires Fits(dev, t) && k < t.sectors
    ensures dev.sectorOffset + t.start + k < Capacity(dev)
  {
    hide InBytes, NoWrap, IsPower, Capacity;
  }

  lemma MovedIsAsked(dev: Device, t: Transfer, g: seq<nat>, c: Command, j: nat, sector: nat, address: nat)
    requires Fits(dev, t) && Spans(t, g) && Faithful(dev, t, g) && dev.sectorSize > 0
    requires c in Closed(dev, t, g) && Moved(c, t.size, j, sector, address)
    ensures Asked(dev, t, sector, address)
  {
    hide *;
    FitsMeans(dev, t);
    SpansMeans(t, g);
    var i := GroupOfCommand(dev, t, g, c);
    GoodStart(dev, t, g, i);
    Position(t, g, i);
    GroupMoves(dev, t, g[i], g[i + 1], sector, address, j);
    Sizes(t, g[i], g[i + 1]);
    AskedFor(dev, t, Done(t, g[i]) + j, sector, address);
  }

  lemma GroupOfCommand(dev: Device, t: Transfer, g: seq<nat>, c: Command) returns (i: nat)
    requires Increasing(g) && dev.sectorSize > 0 && c in Closed(dev, t, g)
    ensures i < |g| - 1 && g[i] < g[i + 1]
    ensures Goes(dev, GroupOf(t, g[i], g[i + 1])) && c == CommandOf(dev, GroupOf(t, g[i], g[i + 1]))
  {
    ClosedHas(dev, t, g, c);
    hide Closed, GroupOf, Goes, CommandOf;
    i :| 0 <= i < |g| - 1 && InGroup(dev, t, g, i, c);
  }

  lemma AskedFor(dev: Device, t: Transfer, j: nat, sector: nat, address: nat)
    requires j < t.sectors && sector == dev.sectorOffset + t.start + j
    requires address == dev.base + t.buffer + InBytes(j, t.size)
    ensures Asked(dev, t, sector, address)
  {
    hide InBytes;
    assert IsAsked(dev, t, j, sector, address);
  }

  lemma AskedIsMoved(dev: Device, t: Transfer, g: seq<nat>, j: nat, sector: nat, address: nat)
    requires Fits(dev, t) && Spans(t, g) && Faithful(dev, t, g) && dev.sectorSize > 0
    requires IsAsked(dev, t, j, sector, address)
    ensures Moves(Closed(dev, t, g), t.size, sector, address)
  {
    hide *;
    FitsMeans(dev, t);
    AskedMeans(dev, t, g, j, sector, address);
    var i := GroupFor(t, g, j, |g| - 1);
    GoodStart(dev, t, g, i);
    SpansMeans(t, g);
    Sizes(t, g[i], g[i + 1]);
    var c := CommandOf(dev, GroupOf(t, g[i], g[i + 1]));
    GroupMoves(dev, t, g[i], g[i + 1], sector, address, j - Done(t, g[i]));
    CommandGoes(dev, t, g, i);
    AtSomeIndex(Closed(dev, t, g), c, t.size, j - Done(t, g[i]), sector, address);
  }

  lemma AskedMeans(dev: Device, t: Transfer, g: seq<nat>, j: nat, sector: nat, address: nat)
    requires t.max > 0 && Spans(t, g) && IsAsked(dev, t, j, sector, address)
    ensures |g| >= 2 && j < Done(t, g[|g| - 1])
    ensures sector == dev.sectorOffset + t.start + j && address == dev.base + t.buffer + InBytes(j, t.size)
  {
    DoneGrows(t, 0);
    hide Done, Count, InBytes;
  }

  lemma CommandGoes(dev: Device, t: Transfer, g: seq<nat>, i: nat)
    requires Increasing(g) && dev.sectorSize > 0 && i < |g| - 1 && Goes(dev, GroupOf(t, g[i], g[i + 1]))
    ensures CommandOf(dev, GroupOf(t, g[i], g[i + 1])) in Closed(dev, t, g)
  {
    var c := CommandOf(dev, GroupOf(t, g[i], g[i + 1]));
    ClosedHas(dev, t, g, c);
    hide Closed, GroupOf, Goes, CommandOf;
    assert InGroup(dev, t, g, i, c);
  }

  lemma AtSomeIndex(commands: seq<Command>, c: Command, size: nat, j: nat, sector: nat, address: nat)
    requires c in commands && Moved(c, size, j, sector, address)
    ensures Moves(commands, size, sector, address)
  {
    hide Moved;
    var k :| 0 <= k < |commands| && commands[k] == c;
    assert Moved(commands[k], size, j, sector, address);
  }

  /** The part of the buffer that a group stands for is moved by its own command
      or not at all. */
  lemma OnlyOwnCommand(dev: Device, t: Transfer, g: seq<nat>, i: nat, j: nat, sector: nat)
    requires Fits(dev, t) && Spans(t, g) && i < |g| - 1 && dev.sectorSize > 0
    requires Done(t, g[i]) <= j < Done(t, g[i + 1])
    requires Moves(Closed(dev, t, g), t.size, sector, dev.base + t.buffer + InBytes(j, t.size))
    ensures g[i] < g[i + 1] <= Count(t) && Goes(dev, GroupOf(t, g[i], g[i + 1]))
    ensures j - Done(t, g[i]) < Size(t, g[i], g[i + 1]) % W32
    ensures sector == dev.sectorOffset + t.start + InBytes(Done(t, g[i]), t.size) + (j - Done(t, g[i]))
  {
    hide *;
    var address := dev.base + t.buffer + InBytes(j, t.size);
    FitsMeans(dev, t);
    var l, m := MovingGroup(dev, t, g, sector, address);
    Position(t, g, l);
    GroupMoves(dev, t, g[l], g[l + 1], sector, address, m);
    WordBelow(t, g[l], g[l + 1]);
    SameAddress(j, Done(t, g[l]) + m, t.size);
    OneGroup(t, g, i, l, j);
  }

  lemma WordBelow(t: Transfer, a: nat, b: nat)
    requires Done(t, a) <= Done(t, b)
    ensures Size(t, a, b) % W32 <= Size(t, a, b) == Done(t, b) - Done(t, a)
  {
    hide Done;
  }

  lemma MovingGroup(dev: Device, t: Transfer, g: seq<nat>, sector: nat, address: nat)
    returns (l: nat, m: nat)
    requires t.max > 0 && Spans(t, g) && dev.sectorSize > 0 && Moves(Closed(dev, t, g), t.size, sector, address)
    ensures l < |g| - 1 && g[l] < g[l + 1] && Goes(dev, GroupOf(t, g[l], g[l + 1]))
    ensures Moved(CommandOf(dev, GroupOf(t, g[l], g[l + 1])), t.size, m, sector, address)
  {
    hide Closed, GroupOf, Goes, CommandOf, Moved, Count, Done;
    var commands := Closed(dev, t, g);
    var k, n: nat :| 0 <= k < |commands| && Moved(commands[k], t.size, n, sector, address);
    l := GroupOfCommand(dev, t, g, commands[k]);
    m := n;
  }

  lemma OneGroup(t: Transfer, g: seq<nat>, i: nat, l: nat, j: nat)
    requires t.max > 0 && Spans(t, g) && i < |g| - 1 && l < |g| - 1
    requires Done(t, g[i]) <= j < Done(t, g[i + 1]) && Done(t, g[l]) <= j < Done(t, g[l + 1])
    ensures i == l
  {
    if i < l {
      assert i + 1 < l ==> g[i + 1] < g[l];
      DoneMonotone(t, g[i + 1], g[l]);
    } else if l < i {
      assert l + 1 < i ==> g[l + 1] < g[i];
      DoneMonotone(t, g[l + 1], g[i]);
    }
    hide Done;
  }

  /** Outside the condition some position of the transfer goes wrong. */
  lemma BadIsWrong(dev: Device, t: Transfer, g: seq<nat>)
    requires Fits(dev, t) && Spans(t, g) && !Faithful(dev, t, g)
    ensures dev.sectorSize > 0 && !RightSectors(dev, t, Closed(dev, t, g))
  {
    FitsMeans(dev, t);
    hide Fits, Spans, Size, Limit, Closed, RightSectors;
    if i :| 0 <= i < |g| - 1 && Size(t, g[i], g[i + 1]) > Limit(dev) {
      TooLargeIsWrong(dev, t, g, i);
    } else {
      LaterStartIsWrong(dev, t, g);
    }
  }

  /** What is right about position j of the transfer. */
  lemma IsMoved(dev: Device, t: Transfer, commands: seq<Command>, j: nat)
    requires RightSectors(dev, t, commands) && j < t.sectors
    ensures Moves(commands, t.size, dev.sectorOffset + t.start + j, dev.base + t.buffer + InBytes(j, t.size))
  {
    hide InBytes, Moves;
    AskedFor(dev, t, j, dev.sectorOffset + t.start + j, dev.base + t.buffer + InBytes(j, t.size));
  }

  lemma TooLargeIsWrong(dev: Device, t: Transfer, g: seq<nat>, i: nat)
    requires Fits(dev, t) && Spans(t, g) && i < |g| - 1 && dev.sectorSize > 0
    requires Size(t, g[i], g[i + 1]) > Limit(dev)
    ensures !RightSectors(dev, t, Closed(dev, t, g))
  {
    hide *;
    FitsMeans(dev, t);
    Position(t, g, i);
    GoesIf(dev, t, g[i], g[i + 1]);
    Sizes(t, g[i], g[i + 1]);
    var n := Size(t, g[i], g[i + 1]) % W32;
    BelowLimit(dev, Size(t, g[i], g[i + 1]));
    var j := if n <= Limit(dev) then Done(t, g[i]) + n else Done(t, g[i]);
    if RightSectors(dev, t, Closed(dev, t, g)) {
      IsMoved(dev, t, Closed(dev, t, g), j);
      OnlyOwnCommand(dev, t, g, i, j, dev.sectorOffset + t.start + j);
    }
  }

  lemma BelowLimit(dev: Device, n: nat)
    requires n > Limit(dev)
    ensures n % W32 <= Limit(dev) ==> n % W32 < n
  {
  }

  lemma LaterStartIsWrong(dev: Device, t: Transfer, g: seq<nat>)
    requires Fits(dev, t) && Spans(t, g) && dev.sectorSize > 0 && t.size > 1 && |g| > 2
    ensures !RightSectors(dev, t, Closed(dev, t, g))
  {
    hide *;
    FitsMeans(dev, t);
    Position(t, g, 0);
    Position(t, g, 1);
    var j := Done(t, g[1]);
    MoreBytes(j, t.size);
    if RightSectors(dev, t, Closed(dev, t, g)) {
      IsMoved(dev, t, Closed(dev, t, g), j);
      OnlyOwnCommand(dev, t, g, 1, j, dev.sectorOffset + t.start + j);
    }
  }

  lemma MoreBytes(j: nat, size: nat)
    requires j > 0 && size > 1
    ensures InBytes(j, size) > j
  {
    Scaled(1, size, j);
  }

  // ----- the main results -----

  lemma StartsCover(t: Transfer, visits: nat -> bool)
    requires t.max > 0 && t.sectors > 0
    ensures Spans(t, Starts(visits, Count(t)) + [Count(t)])
  {
    DoneGrows(t, 0);
    hide Count;
  }

  /** The driver gives the client the sectors it asked for if and only if no
      request starts a new group inside the transfer, or sectors are bytes, and
      no group is larger than the device allows. */
  lemma RightSectorsIff(dev: Device, works: nat -> bool, t: Transfer, visits: nat -> bool)
    requires Fits(dev, t) && t.sectors > 0
    ensures RightSectors(dev, t, Service(dev, works, t, visits).issued)
      <==> Faithful(dev, t, Starts(visits, Count(t)) + [Count(t)])
  {
    var g := Starts(visits, Count(t)) + [Count(t)];
    StartsCover(t, visits);
    CommandRange(dev, t, 0, g[|g| - 1]);
    ServiceIsGroups(dev, works, t, visits);
    hide *;
    if Faithful(dev, t, g) {
      GoodIsRight(dev, t, g);
    } else {
      BadIsWrong(dev, t, g);
    }
  }

  lemma {:induction false} StartsApart(visits: nat -> bool, k: nat)
    requires k > 0
    ensures k - Starts(visits, k)[|Starts(visits, k)| - 1] <= REQU_MAX
  {
    if k > 1 {
      StartsApart(visits, k - 1);
    }
  }

  /** Transfers of more requests than the driver combines go wrong, unless
      sectors are bytes. */
  lemma LongTransfersGoWrong(dev: Device, works: nat -> bool, t: Transfer, visits: nat -> bool)
    requires Fits(dev, t) && t.size > 1 && Count(t) > REQU_MAX
    ensures !RightSectors(dev, t, Service(dev, works, t, visits).issued)
  {
    DoneGrows(t, 0);
    StartsApart(visits, Count(t));
    var g := Starts(visits, Count(t));
    assert |g| != 1;
    hide *;
    RightSectorsIff(dev, works, t, visits);
    NotGood(dev, t, g);
  }

  lemma NotGood(dev: Device, t: Transfer, g: seq<nat>)
    requires t.max > 0 && |g| != 1 && t.size > 1
    ensures !Faithful(dev, t, g + [Count(t)])
  {
    hide Count;
  }

  /** With the limit that the driver itself reports, a transfer of more than one
      request is right only if sectors are bytes and every request is served on
      its own: combined requests exceed the limit. */
  lemma OwnLimitIff(dev: Device, works: nat -> bool, t: Transfer, visits: nat -> bool)
    requires Fits(dev, t) && t.sectors > 0 && t.max == Limit(dev)
    ensures RightSectors(dev, t, Service(dev, works, t, visits).issued)
      <==> t.sectors <= t.max || (t.size == 1 && |Starts(visits, Count(t))| == Count(t))
  {
    RightSectorsIff(dev, works, t, visits);
    var g, n := Starts(visits, Count(t)), Count(t);
    StartsCover(t, visits);
    hide *;
    SmallGroups(dev, t, g, n);
  }

  lemma SmallGroups(dev: Device, t: Transfer, g: seq<nat>, n: nat)
    requires t.max == Limit(dev) && t.sectors > 0 && n == Count(t) && Spans(t, g + [n])
    ensures Faithful(dev, t, g + [n]) <==> t.sectors <= t.max || (t.size == 1 && |g| == n)
  {
    var all := g + [n];
    OneRequestIff(t);
    forall i | 0 <= i < |all| - 1
      ensures Size(t, all[i], all[i + 1]) <= Limit(dev) <==> all[i + 1] == all[i] + 1
    {
      Position(t, all, i);
      SizeIff(t, all[i], all[i + 1]);
    }
    EachAlone(all);
    hide Done, Count;
  }

  lemma OneRequestIff(t: Transfer)
    requires t.max > 0 && t.sectors > 0
    ensures Count(t) > 0 && (t.sectors <= t.max <==> Count(t) == 1)
  {
    DoneGrows(t, 0);
    DoneGrows(t, 1);
    assert Done(t, 1) == Min(t.max, t.sectors);
    hide Count;
  }

  lemma SizeIff(t: Transfer, a: nat, b: nat)
    requires t.max > 0 && a < b <= Count(t)
    ensures Size(t, a, b) <= t.max <==> b == a + 1
  {
    DoneGrows(t, a);
    if b > a + 1 {
      DoneGrows(t, a + 1);
      Advances(t, a + 1);
      DoneMonotone(t, a + 2, b);
      FullRequest(t, a);
    }
    hide Done, Count;
  }

  lemma FullRequest(t: Transfer, a: nat)
    requires t.max > 0 && a + 1 < Count(t)
    ensures Done(t, a + 1) == Done(t, a) + t.max
  {
    DoneGrows(t, a + 1);
    assert (a + 1) * t.max == a * t.max + t.max;
    hide Count;
  }

  /** Steps of one each take as many as the distance. */
  lemma EachAlone(g: seq<nat>)
    requires |g| >= 2 && Increasing(g) && g[0] == 0
    ensures (forall i :: 0 <= i < |g| - 1 ==> g[i + 1] == g[i] + 1) <==> |g| - 1 == g[|g| - 1]
    ensures |g| - 1 <= g[|g| - 1]
  {
    StepsOfOne(g, |g| - 1);
    if |g| - 1 == g[|g| - 1] {
      forall i | 0 <= i < |g| - 1 ensures g[i + 1] == g[i] + 1 {
        StepsOfOne(g, i);
        StepsOfOne(g, i + 1);
        StepsBetween(g, i + 1, |g| - 1);
      }
    }
  }

  lemma {:induction false} StepsOfOne(g: seq<nat>, n: nat)
    requires n < |g| && Increasing(g) && g[0] == 0
    ensures n <= g[n]
    ensures (forall i :: 0 <= i < n ==> g[i + 1] == g[i] + 1) ==> g[n] == n
  {
    if n > 0 {
      StepsOfOne(g, n - 1);
    }
  }

  lemma {:induction false} StepsBetween(g: seq<nat>, a: nat, b: nat)
    requires a <= b < |g| && Increasing(g)
    ensures b - a <= g[b] - g[a]
  {
    if a < b {
      StepsBetween(g, a, b - 1);
    }
  }

  // ----- wrong sectors without an error -----

  lemma {:induction false} AllFine(dev: Device, works: nat -> bool, t: Transfer, g: seq<nat>)
    requires Increasing(g) && dev.sectorSize > 0 && forall i :: works(i)
    requires forall i :: 0 <= i < |g| - 1 ==> Goes(dev, GroupOf(t, g[i], g[i + 1]))
    ensures forall r :: r in ClosedReplies(dev, works, t, g) ==> r.status == OK
  {
    if |g| > 1 {
      var front, n := g[..|g| - 1], |g| - 1;
      forall i | 0 <= i < |front| - 1 ensures Goes(dev, GroupOf(t, front[i], front[i + 1])) {
        assert Goes(dev, GroupOf(t, g[i], g[i + 1]));
      }
      AllFine(dev, works, t, front);
      assert Goes(dev, GroupOf(t, g[n - 1], g[n]));
    }
    hide GroupOf, CommandOf, Aligned, Accepted;
  }

  /** If a new group starts inside the transfer, all groups are within the limit
      and the wrong sectors exist too, every answer is good: the client reports
      success for sectors that it did not ask for. */
  lemma WrongSectorsReportedGood(dev: Device, works: nat -> bool, t: Transfer, visits: nat -> bool)
    requires Fits(dev, t) && t.size > 1 && t.sectors > 0 && forall i :: works(i)
    requires dev.sectorOffset + t.start + InBytes(t.sectors, t.size) <= Capacity(dev)
    requires var g := Starts(visits, Count(t)) + [Count(t)];
      |g| > 2 && forall i :: 0 <= i < |g| - 1 ==> Size(t, g[i], g[i + 1]) <= Limit(dev)
    ensures var s := Service(dev, works, t, visits);
      && !RightSectors(dev, t, s.issued)
      && AnswersOf(t, Count(t), s.responses) && forall r :: r in s.responses ==> r.status == OK
  {
    var g := Starts(visits, Count(t)) + [Count(t)];
    StartsCover(t, visits);
    CommandRange(dev, t, 0, Count(t));
    hide Spans, Faithful, Service, Starts, Count, Goes, GroupOf, Done, NoWrap;
    assert !Faithful(dev, t, g) by { OnlyOne(dev, t, g); }
    forall i | 0 <= i < |g| - 1 ensures g[i] < g[i + 1] && Goes(dev, GroupOf(t, g[i], g[i + 1])) {
      GroupGoes(dev, t, g, i);
    }
    hide *;
    RightSectorsIff(dev, works, t, visits);
    EveryRequestAnswered(dev, works, t, visits);
    ServiceIsGroups(dev, works, t, visits);
    AllFine(dev, works, t, g);
  }

  lemma OnlyOne(dev: Device, t: Transfer, g: seq<nat>)
    requires t.size > 1 && |g| > 2
    ensures !Faithful(dev, t, g)
  {
  }

  lemma GroupGoes(dev: Device, t: Transfer, g: seq<nat>, i: nat)
    requires Fits(dev, t) && Spans(t, g) && i < |g| - 1 && Size(t, g[i], g[i + 1]) <= Limit(dev)
    requires dev.sectorOffset + t.start + InBytes(t.sectors, t.size) <= Capacity(dev)
    ensures g[i] < g[i + 1] && dev.sectorSize > 0 && Goes(dev, GroupOf(t, g[i], g[i + 1]))
  {
    hide *;
    FitsMeans(dev, t);
    Position(t, g, i);
    SmallWord(dev, Size(t, g[i], g[i + 1]));
    Sizes(t, g[i], g[i + 1]);
    GoesIf(dev, t, g[i], g[i + 1]);
    Parts(Done(t, g[i]), t.sectors, t.sectors, t.size);
  }

  lemma SmallWord(dev: Device, n: nat)
    requires n <= Limit(dev)
    ensures n % W32 == n
  {
  }
}
