/** The virtual memory layout that the Solo5 converter derives from an ELF
    binary: regions for its segments, RAM behind them, channels behind that. */
module Layout {

  const PAGE: nat := 4096
  const MIB: nat := 0x10_0000
  const CHANNEL_SIZE: nat := 0x10_0000

  /** A program header with the number of sections in its segment. */
  datatype Segment = Segment(load: bool, sections: nat, vaddr: nat, offset: nat, filesz: nat, memsz: nat)

  datatype Kind = File(offset: nat) | Fill | Ram | Reader | Writer
  datatype Region = Region(start: nat, size: nat, kind: Kind)

  function End(r: Region): nat {
    r.start + r.size
  }

  /** The remainder of the Python operator for a negative divisor: zero, or
      negative and above the divisor. */
  function FloorMod(n: int, m: int): (r: int)
    requires m < 0
    ensures m < r <= 0 && exists q: int :: n == q * m + r
  {
    var r := -((-n) % (-m));
    assert -n == ((-n) / (-m)) * (-m) - r;
    assert n == ((-n) / (-m)) * m + r;
    r
  }

  function RoundUp(n: nat): nat {
    n - FloorMod(n, -(PAGE as int))
  }

  /** Rounding up gives the least multiple of the page size that is enough. */
  lemma RoundUpIsLeast(n: nat)
    ensures RoundUp(n) % PAGE == 0 && n <= RoundUp(n) < n + PAGE
    ensures forall m: nat :: m % PAGE == 0 && m >= n ==> m >= RoundUp(n)
  {
  }

  lemma RoundUpMonotone(a: nat, b: nat)
    requires a <= b
    ensures RoundUp(a) <= RoundUp(b)
  {
    RoundUpIsLeast(a);
    RoundUpIsLeast(b);
    hide RoundUp;
  }

  predicate Used(s: Segment) {
    s.load && s.sections > 0
  }

  /** The regions of one segment: its file contents, and zeros up to its size in
      memory. */
  function SegmentRegions(s: Segment): seq<Region> {
    var file, memory := RoundUp(s.filesz), RoundUp(s.memsz);
    (if file > 0 then [Region(s.vaddr, file, File(s.offset))] else [])
    + (if file < memory then [Region(s.vaddr + file, memory - file, Fill)] else [])
  }

  function SegmentEnd(s: Segment): nat {
    s.vaddr + RoundUp(s.memsz)
  }

  function ElfRegions(segments: seq<Segment>): seq<Region> {
    if segments == [] then []
    else
      var last := segments[|segments| - 1];
      ElfRegions(segments[..|segments| - 1]) + (if Used(last) then SegmentRegions(last) else [])
  }

  /** Where the last segment ends. */
  function ElfEnd(segments: seq<Segment>): nat {
    if segments == [] then 0
    else
      var last := segments[|segments| - 1];
      if Used(last) then SegmentEnd(last) else ElfEnd(segments[..|segments| - 1])
  }

  // ----- the layout under construction -----

  class Component {
    var regions: seq<Region>
    var chanAddr: nat
    var rsp: int

    constructor ()
      ensures regions == []
    {
      regions, chanAddr, rsp := [], 0, 0;
    }

    method AddElfMemory(segments: seq<Segment>) returns (endAddr: nat)
      modifies this`regions
      ensures regions == old(regions) + ElfRegions(segments) && endAddr == ElfEnd(segments)
    {
      endAddr := 0;
      ghost var before := regions;
      for i := 0 to |segments|
        invariant regions == before + ElfRegions(segments[..i]) && endAddr == ElfEnd(segments[..i])
      {
        var s := segments[i];
        assert segments[..i + 1][..i] == segments[..i];
        if Used(s) {
          var file := RoundUp(s.filesz);
          if file > 0 {
            regions := regions + [Region(s.vaddr, file, File(s.offset))];
          }
          var memory := RoundUp(s.memsz);
          if file < memory {
            regions := regions + [Region(s.vaddr + file, memory - file, Fill)];
          }
          endAddr := s.vaddr + memory;
          assert regions == before + ElfRegions(segments[..i + 1]);
        }
      }
      assert segments[..|segments|] == segments;
    }

    method AddRamMemory(binaryEnd: nat, ramMb: nat) returns (end: nat)
      modifies this`regions, this`rsp
      ensures end == binaryEnd + ramMb * MIB && rsp == end - 8
      ensures regions == old(regions) + [Region(binaryEnd, ramMb * MIB, Ram)]
    {
      regions := regions + [Region(binaryEnd, ramMb * MIB, Ram)];
      end := binaryEnd + ramMb * MIB;
      rsp := end - 8;
    }

    method AddChannel()
      modifies this`regions, this`chanAddr
      ensures chanAddr == old(chanAddr) + 2 * CHANNEL_SIZE
      ensures regions == old(regions) + [Region(old(chanAddr), CHANNEL_SIZE, Reader),
                                         Region(old(chanAddr) + CHANNEL_SIZE, CHANNEL_SIZE, Writer)]
    {
      regions := regions + [Region(chanAddr, CHANNEL_SIZE, Reader)];
      chanAddr := chanAddr + CHANNEL_SIZE;
      regions := regions + [Region(chanAddr, CHANNEL_SIZE, Writer)];
      chanAddr := chanAddr + CHANNEL_SIZE;
    }

    /** The converter: binary, RAM, then two channels for each device. For
        segments in ascending order the regions come one behind the other. */
    method Convert(segments: seq<Segment>, ramMb: nat, devices: nat)
      requires regions == []
      modifies this
      ensures regions == ElfRegions(segments) + [Region(ElfEnd(segments), ramMb * MIB, Ram)]
        + Channels(ElfEnd(segments) + ramMb * MIB, devices)
      ensures rsp == ElfEnd(segments) + ramMb * MIB - 8
      ensures Ascending(segments) ==> Ordered(regions)
    {
      var end := AddElfMemory(segments);
      chanAddr := AddRamMemory(end, ramMb);
      ghost var start, before := chanAddr, regions;
      for i := 0 to devices
        invariant chanAddr == start + i * 2 * CHANNEL_SIZE && rsp == start - 8
        invariant regions == before + Channels(start, i)
      {
        AddChannel();
      }
      if Ascending(segments) {
        LayoutOrdered(segments, ramMb, devices);
      }
    }
  }

  function Channels(start: nat, devices: nat): seq<Region> {
    if devices == 0 then []
    else
      var addr := start + (devices - 1) * 2 * CHANNEL_SIZE;
      Channels(start, devices - 1)
      + [Region(addr, CHANNEL_SIZE, Reader), Region(addr + CHANNEL_SIZE, CHANNEL_SIZE, Writer)]
  }

  // ----- the regions do not overlap -----

  /** Segments that fit their memory, in ascending order of addresses (System V
      ABI, chapter 5, Program Header), none reaching into the next. */
  predicate Ascending(segments: seq<Segment>) {
    && (forall i :: 0 <= i < |segments| ==> segments[i].filesz <= segments[i].memsz)
    && forall i, j :: 0 <= i < j < |segments| && Used(segments[i]) && Used(segments[j]) ==>
         SegmentEnd(segments[i]) <= segments[j].vaddr
  }

  /** One behind the other, so that no two have an address in common. */
  predicate Ordered(regions: seq<Region>) {
    forall i, j :: 0 <= i < j < |regions| ==> End(regions[i]) <= regions[j].start
  }

  predicate Bounded(regions: seq<Region>, end: nat) {
    forall i :: 0 <= i < |regions| ==> End(regions[i]) <= end
  }

  predicate From(regions: seq<Region>, start: nat) {
    forall i :: 0 <= i < |regions| ==> start <= regions[i].start
  }

  lemma Append(a: seq<Region>, b: seq<Region>, middle: nat, end: nat)
    requires Ordered(a) && Ordered(b) && Bounded(a, middle) && From(b, middle) && Bounded(b, end) && middle <= end
    ensures Ordered(a + b) && Bounded(a + b, end)
  {
  }

  /** An address is in one of the regions of a segment exactly if it is in the
      page-rounded extent of the segment. */
  lemma SegmentTiled(s: Segment, x: nat)
    requires s.filesz <= s.memsz
    ensures s.vaddr <= x < SegmentEnd(s) <==>
      exists i :: 0 <= i < |SegmentRegions(s)| && In(SegmentRegions(s)[i], x)
    ensures Ordered(SegmentRegions(s)) && Bounded(SegmentRegions(s), SegmentEnd(s))
    ensures From(SegmentRegions(s), s.vaddr)
  {
    RoundUpMonotone(s.filesz, s.memsz);
    var file, memory, r := RoundUp(s.filesz), RoundUp(s.memsz), SegmentRegions(s);
    hide RoundUp;
    if s.vaddr <= x < SegmentEnd(s) {
      if x < s.vaddr + file {
        assert In(r[0], x);
      } else {
        assert In(r[|r| - 1], x);
      }
    }
  }

  predicate In(r: Region, x: nat) {
    r.start <= x < End(r)
  }

  lemma {:induction false} ElfOrdered(segments: seq<Segment>)
    requires Ascending(segments)
    ensures Ordered(ElfRegions(segments)) && Bounded(ElfRegions(segments), ElfEnd(segments))
  {
    if segments != [] {
      var front, last := segments[..|segments| - 1], segments[|segments| - 1];
      AscendingFront(segments);
      hide Ascending;
      ElfOrdered(front);
      if Used(last) {
        SegmentTiled(last, 0);
        EndsBefore(front, last.vaddr);
        SegmentEndBehind(last);
        AppendSegment(front, last);
        assert segments == front + [last];
        hide ElfRegions, SegmentRegions, SegmentEnd, Bounded, From, Ordered;
      }
    }
  }

  lemma AscendingFront(segments: seq<Segment>)
    requires Ascending(segments) && segments != []
    ensures var front, last := segments[..|segments| - 1], segments[|segments| - 1];
      && Ascending(front) && last.filesz <= last.memsz
      && (Used(last) ==>
            forall i :: 0 <= i < |front| && Used(front[i]) ==> SegmentEnd(front[i]) <= last.vaddr)
  {
    hide SegmentEnd, Used;
    assert forall i :: 0 <= i < |segments| - 1 ==> segments[..|segments| - 1][i] == segments[i];
  }

  /** The converter's end address is the highest one. */
  lemma {:induction false} EndIsHighest(segments: seq<Segment>, i: nat)
    requires Ascending(segments) && i < |segments| && Used(segments[i])
    ensures SegmentEnd(segments[i]) <= ElfEnd(segments)
  {
    var front, last := segments[..|segments| - 1], segments[|segments| - 1];
    AscendingFront(segments);
    if i < |front| {
      assert front[i] == segments[i];
      EndIsHighest(front, i);
      SegmentEndBehind(last);
    }
    hide Ascending, SegmentEnd;
  }

  lemma AppendSegment(front: seq<Segment>, last: Segment)
    requires Ordered(ElfRegions(front)) && Bounded(ElfRegions(front), ElfEnd(front))
    requires Used(last) && ElfEnd(front) <= last.vaddr <= SegmentEnd(last)
    requires Ordered(SegmentRegions(last)) && Bounded(SegmentRegions(last), SegmentEnd(last))
    requires From(SegmentRegions(last), last.vaddr)
    ensures ElfRegions(front + [last]) == ElfRegions(front) + SegmentRegions(last)
    ensures ElfEnd(front + [last]) == SegmentEnd(last)
    ensures Ordered(ElfRegions(front + [last])) && Bounded(ElfRegions(front + [last]), SegmentEnd(last))
  {
    assert (front + [last])[..|front|] == front;
    hide SegmentRegions, SegmentEnd, Bounded, From, Ordered;
    Loosened(ElfRegions(front), ElfEnd(front), last.vaddr);
    Append(ElfRegions(front), SegmentRegions(last), last.vaddr, SegmentEnd(last));
  }

  lemma SegmentEndBehind(s: Segment)
    ensures s.vaddr <= SegmentEnd(s)
  {
  }

  lemma Loosened(regions: seq<Region>, end: nat, more: nat)
    requires Bounded(regions, end) && end <= more
    ensures Bounded(regions, more)
  {
  }

  lemma {:induction false} EndsBefore(segments: seq<Segment>, x: nat)
    requires forall i :: 0 <= i < |segments| && Used(segments[i]) ==> SegmentEnd(segments[i]) <= x
    ensures ElfEnd(segments) <= x
  {
    if segments != [] {
      EndsBefore(segments[..|segments| - 1], x);
    }
  }

  lemma {:induction false} ChannelsOrdered(start: nat, devices: nat)
    ensures Ordered(Channels(start, devices)) && From(Channels(start, devices), start)
    ensures Bounded(Channels(start, devices), start + devices * 2 * CHANNEL_SIZE)
  {
    if devices > 0 {
      ChannelsOrdered(start, devices - 1);
    }
  }

  /** All regions of the layout, for any number of devices. */
  lemma LayoutOrdered(segments: seq<Segment>, ramMb: nat, devices: nat)
    requires Ascending(segments)
    ensures Ordered(ElfRegions(segments) + [Region(ElfEnd(segments), ramMb * MIB, Ram)]
                    + Channels(ElfEnd(segments) + ramMb * MIB, devices))
  {
    var end := ElfEnd(segments);
    var ram := [Region(end, ramMb * MIB, Ram)];
    ElfOrdered(segments);
    ChannelsOrdered(end + ramMb * MIB, devices);
    hide ElfRegions, ElfEnd, Channels;
    Append(ElfRegions(segments), ram, end, end + ramMb * MIB);
    Append(ElfRegions(segments) + ram, Channels(end + ramMb * MIB, devices), end + ramMb * MIB,
           end + ramMb * MIB + devices * 2 * CHANNEL_SIZE);
  }
}
