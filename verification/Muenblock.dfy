/** The block device client: transfers split into requests, and the responses
    that decide about their result. Words of 64 and 32 bits wrap around. */
module Muenblock {

  const W64: nat := 0x1_0000_0000_0000_0000
  const W32: nat := 0x1_0000_0000

  type Word64 = w: nat | w < W64
  type Word32 = w: nat | w < W32

  const FIRST_TAG: nat := 0x1000

  datatype Kind = Read | Write | Discard

  datatype Request = Request(
    kind: Kind, device: nat, tag: Word32, length: Word64, deviceOffset: Word64, bufferOffset: Word64)

  /** What Receive returns: its error flag and the response's status code. */
  datatype Answer = Answer(error: bool, status: Word64)

  datatype DeviceInfo = DeviceInfo(sectorSize: Word64, maxSectors: Word64)

  /** A transfer of sectors of the given size, at most max of them at once. */
  datatype Transfer = Transfer(
    kind: Kind, device: nat, start: Word64, buffer: Word64, sectors: Word64, size: Word64, max: Word64)

  // ----- splitting, in closed form -----

  function Min(a: nat, b: nat): nat {
    if a < b then a else b
  }

  /** The number of requests: sectors / max, rounded up. */
  function Count(t: Transfer): nat
    requires t.max > 0
  {
    (t.sectors + t.max - 1) / t.max
  }

  /** The sectors that the first k requests transfer. */
  function Done(t: Transfer, k: nat): nat {
    Min(k * t.max, t.sectors)
  }

  function RequestAt(t: Transfer, k: nat): Request {
    Request(t.kind, t.device, Tag(k),
            Bytes(Done(t, k + 1) - Done(t, k), t.size),
            Plus(t.start, Bytes(Done(t, k), t.size)),
            Plus(t.buffer, Bytes(Done(t, k), t.size)))
  }

  /** Products and sums of words. */
  function Bytes(sectors: int, size: nat): Word64 {
    (sectors * size) % W64
  }

  function Tag(k: nat): Word32 {
    (FIRST_TAG + k) % W32
  }

  function Next(k: nat): Word32 {
    (k + 1) % W32
  }

  function Plus(a: nat, b: nat): Word64 {
    (a + b) % W64
  }

  function Split(t: Transfer): (r: seq<Request>)
    requires t.max > 0
    ensures |r| == Count(t)
  {
    seq(Count(t), k requires k >= 0 => RequestAt(t, k))
  }

  lemma DoneGrows(t: Transfer, k: nat)
    ensures Done(t, k) <= Done(t, k + 1) <= Done(t, k) + t.max
    ensures Done(t, 0) == 0
    ensures t.max > 0 ==> (Done(t, k) < t.sectors <==> k < Count(t))
    ensures t.max > 0 ==> Done(t, Count(t)) == t.sectors
  {
    assert (k + 1) * t.max == k * t.max + t.max;
    if t.max > 0 {
      CountBounds(t.sectors, t.max, k);
      CountBounds(t.sectors, t.max, Count(t));
    }
  }

  lemma CountBounds(n: nat, max: nat, k: nat)
    requires max > 0
    ensures k * max < n <==> k < (n + max - 1) / max
  {
    var c := (n + max - 1) / max;
    assert c * max <= n + max - 1 < c * max + max;
    if k < c {
      assert (k + 1) * max <= c * max by { Monotone(k + 1, c, max); }
      assert (k + 1) * max == k * max + max;
    } else {
      Monotone(c, k, max);
    }
  }

  lemma Monotone(a: nat, b: nat, m: nat)
    requires a <= b
    ensures a * m <= b * m
  {
    assert b * m == a * m + (b - a) * m;
  }

  lemma ModAdd(a: nat, b: nat)
    ensures (a % W64 + b % W64) % W64 == (a + b) % W64
    ensures (a % W64 + b) % W64 == (a + b) % W64
  {
  }

  // ----- the client -----

  /** All answers from one position up to another are good. */
  ghost predicate AllGood(answers: nat -> Answer, from: nat, to: nat) {
    forall i: nat :: from <= i < to ==> Good(answers(i))
  }

  /** The answer before position taken is the first bad one. */
  ghost predicate StoppedAt(answers: nat -> Answer, from: nat, taken: nat, to: nat) {
    from < taken <= to && AllGood(answers, from, taken - 1) && !Good(answers(taken - 1))
  }

  predicate Good(a: Answer) {
    !a.error && a.status == 0
  }

  class Client {
    /** The devices of the channel; device numbers start at 0. */
    const devices: seq<DeviceInfo>
    /** What Receive will return, one after the other. */
    const answers: nat -> Answer
    /** All requests written to the request channel, and how many answers have
        been taken from the response channel. */
    var sent: seq<Request>
    var taken: nat

    constructor (devices: seq<DeviceInfo>, answers: nat -> Answer)
      ensures this.devices == devices && this.answers == answers && sent == [] && taken == 0
    {
      this.devices, this.answers := devices, answers;
      sent, taken := [], 0;
    }

    /** All answers were good and the result is the number of sectors, or the
        first bad one ended the transfer with result 0. */
    ghost predicate Concluded(from: nat, to: nat, sectors: Word64, result: Word64)
      reads this
    {
      if AllGood(answers, from, to) then result == sectors && taken == to
      else result == 0 && StoppedAt(answers, from, taken, to)
    }

    ghost predicate Discarded(device: nat, start: Word64, sectors: Word64, from: nat)
      requires device < |devices| && devices[device].maxSectors > 0
    {
      var t := Transfer(Discard, device, start, 0, sectors, devices[device].sectorSize, devices[device].maxSectors);
      AllGood(answers, from, from + Count(t) % W32)
    }

    /** Split a transfer into requests, send them all, then take one answer for
        each until one is bad. A limit of 0 sectors would never end. */
    method ReadWrite(device: nat, kind: Kind, start: Word64, buffer: Word64, sectors: Word64)
      returns (result: Word64)
      requires device < |devices| && sectors != 0 ==> devices[device].maxSectors > 0
      modifies this
      ensures device >= |devices| || sectors == 0 ==> result == 0 && sent == old(sent) && taken == old(taken)
      ensures device < |devices| && sectors > 0 ==>
        var t := Transfer(kind, device, start, buffer, sectors,
                          devices[device].sectorSize, devices[device].maxSectors);
        && sent == old(sent) + Split(t)
        && Concluded(old(taken), old(taken) + Count(t) % W32, sectors, result)
    {
      if device >= |devices| {
        return 0;
      }
      if sectors == 0 {
        return 0;
      }
      ghost var t := Transfer(kind, device, start, buffer, sectors,
                              devices[device].sectorSize, devices[device].maxSectors);
      var requests := SendAll(device, kind, start, buffer, sectors, t);
      result := TakeAll(requests, sectors);
    }

    method SendAll(device: nat, kind: Kind, start: Word64, buffer: Word64, sectors: Word64, ghost t: Transfer)
      returns (requests: Word32)
      requires device < |devices| && devices[device].maxSectors > 0
      requires t == Transfer(kind, device, start, buffer, sectors,
                             devices[device].sectorSize, devices[device].maxSectors)
      modifies this`sent
      ensures sent == old(sent) + Split(t) && requests == Count(t) % W32
    {
      var size, max := devices[device].sectorSize, devices[device].maxSectors;
      var cnt: Word64, offset: Word64 := sectors, 0;
      requests := 0;
      ghost var k: nat := 0;
      ghost var before := sent;
      StartsAt(t);
      hide *;
      while cnt != 0
        invariant Progress(t, k, cnt, offset, requests)
        invariant sent == before + Split(t)[..k]
        decreases cnt
      {
        var now: Word64 := if cnt > max then max else cnt;
        SplitNext(t, k, cnt, offset, requests, now);
        var request := Request(kind, device, Tag(requests), Bytes(now, size),
                               Plus(start, offset), Plus(buffer, offset));
        sent := sent + [request];
        cnt := cnt - now;
        requests := Next(requests);
        offset := Plus(offset, Bytes(now, size));
        k := k + 1;
      }
      EndsAt(t, k, offset, requests);
    }

    method TakeAll(requests: nat, sectors: Word64) returns (result: Word64)
      requires sectors > 0
      modifies this`taken
      ensures Concluded(old(taken), old(taken) + requests, sectors, result)
    {
      var left: nat := requests;
      while left != 0
        invariant left <= requests && taken == old(taken) + (requests - left)
        invariant AllGood(answers, old(taken), taken)
        decreases left
      {
        var answer := answers(taken);
        taken := taken + 1;
        left := left - 1;
        if answer.error || answer.status != 0 {
          assert !Good(answers(taken - 1));
          return 0;
        }
      }
      result := sectors;
    }

    /** Discard ends with 0 on success and with the wrapped difference if not. */
    method DiscardSectors(device: nat, start: Word64, sectors: Word64) returns (result: Word64)
      requires device < |devices| && sectors != 0 ==> devices[device].maxSectors > 0
      modifies this
      ensures result == 0 <==> sectors == 0 || (device < |devices| && Discarded(device, start, sectors, old(taken)))
      ensures result != 0 ==> result == W64 - sectors
    {
      result := ReadWrite(device, Discard, start, 0, sectors);
      result := (result + W64 - sectors) % W64;
    }
  }

  lemma NextDone(t: Transfer, k: nat, now: nat)
    requires t.max > 0 && k < Count(t) && now == Min(t.sectors - Done(t, k), t.max)
    ensures Done(t, k + 1) == Done(t, k) + now
  {
    DoneGrows(t, k);
    assert (k + 1) * t.max == k * t.max + t.max;
  }

  lemma NextOffset(t: Transfer, k: nat, now: nat)
    requires Done(t, k + 1) == Done(t, k) + now
    ensures Plus(Bytes(Done(t, k), t.size), Bytes(now, t.size)) == Bytes(Done(t, k + 1), t.size)
  {
    hide Done;
    assert Done(t, k + 1) * t.size == Done(t, k) * t.size + now * t.size;
    ModAdd(Done(t, k) * t.size, now * t.size);
  }

  /** The variables of the sending loop after k requests. */
  ghost predicate Progress(t: Transfer, k: nat, cnt: Word64, offset: Word64, requests: Word32)
    requires t.max > 0
  {
    k <= Count(t) && cnt == t.sectors - Done(t, k) && offset == Bytes(Done(t, k), t.size) && requests == k % W32
  }

  lemma StartsAt(t: Transfer)
    requires t.max > 0
    ensures Progress(t, 0, t.sectors, 0, 0) && Split(t)[..0] == []
  {
    DoneGrows(t, 0);
  }

  lemma EndsAt(t: Transfer, k: nat, offset: Word64, requests: Word32)
    requires t.max > 0 && Progress(t, k, 0, offset, requests)
    ensures Split(t)[..k] == Split(t) && requests == Count(t) % W32
  {
    DoneGrows(t, k);
  }

  lemma SplitNext(t: Transfer, k: nat, cnt: Word64, offset: Word64, requests: Word32, now: Word64)
    requires t.max > 0 && Progress(t, k, cnt, offset, requests) && cnt > 0
    requires now == if cnt > t.max then t.max else cnt
    ensures 0 < now <= cnt && k < Count(t)
    ensures Progress(t, k + 1, cnt - now, Plus(offset, Bytes(now, t.size)), Next(requests))
    ensures Split(t)[..k + 1] == Split(t)[..k] + [
      Request(t.kind, t.device, Tag(requests), Bytes(now, t.size), Plus(t.start, offset), Plus(t.buffer, offset))]
  {
    DoneGrows(t, k);
    NextDone(t, k, now);
    NextOffset(t, k, now);
    TagOfWord(k);
    SplitSnoc(t, k);
    DoneGrows(t, k + 1);
    hide Count, Done, Bytes, Plus, Tag, Next, Split;
    assert RequestAt(t, k) == Request(t.kind, t.device, Tag(requests), Bytes(now, t.size),
                                      Plus(t.start, offset), Plus(t.buffer, offset));
  }

  lemma TagOfWord(k: nat)
    ensures Tag(k % W32) == Tag(k) && Next(k % W32) == (k + 1) % W32
  {
  }

  lemma SplitSnoc(t: Transfer, k: nat)
    requires t.max > 0 && k < Count(t)
    ensures Split(t)[..k + 1] == Split(t)[..k] + [RequestAt(t, k)]
  {
  }

  // ----- what the requests cover -----

  /** The caller's obligation: no address of the transfer wraps around. */
  predicate NoWrap(t: Transfer) {
    t.start + t.sectors * t.size < W64 && t.buffer + t.sectors * t.size < W64
  }

  lemma Scaled(a: nat, b: nat, size: nat)
    requires a <= b
    ensures a * size <= b * size && b * size == a * size + (b - a) * size
    ensures a < b && size > 0 ==> a * size < b * size
  {
  }

  lemma BytesExact(n: nat, size: nat)
    requires n * size < W64
    ensures Bytes(n, size) == n * size
  {
  }

  lemma PlusExact(a: nat, b: nat)
    requires a + b < W64
    ensures Plus(a, b) == a + b
  {
  }

  /** Where request k starts and how long it is. */
  lemma RequestRange(t: Transfer, k: nat)
    requires t.max > 0 && t.size > 0 && NoWrap(t) && k < Count(t)
    ensures var r := Split(t)[k];
      && r.bufferOffset == t.buffer + Done(t, k) * t.size
      && r.deviceOffset == t.start + Done(t, k) * t.size
      && r.length == (Done(t, k + 1) - Done(t, k)) * t.size
      && 0 < r.length <= t.max * t.size && r.tag == (FIRST_TAG + k) % W32
  {
    DoneGrows(t, k);
    DoneGrows(t, k + 1);
    NextDone(t, k, Min(t.sectors - Done(t, k), t.max));
    var done, now := Done(t, k), Done(t, k + 1) - Done(t, k);
    hide Done, Count, Min;
    Scaled(done, t.sectors, t.size);
    Scaled(now, t.sectors, t.size);
    Scaled(now, t.max, t.size);
    Scaled(0, now, t.size);
    Scaled(0, done, t.size);
    RangeOf(t, k, done, now, done * t.size, now * t.size);
  }

  lemma RangeOf(t: Transfer, k: nat, done: nat, now: nat, offset: nat, length: nat)
    requires done == Done(t, k) && Done(t, k + 1) == done + now
    requires offset == done * t.size && length == now * t.size
    requires t.buffer + offset < W64 && t.start + offset < W64 && length < W64
    ensures RequestAt(t, k) == Request(t.kind, t.device, (FIRST_TAG + k) % W32,
                                       length, t.start + offset, t.buffer + offset)
  {
    BytesExact(now, t.size);
    BytesExact(done, t.size);
    PlusExact(t.start, Bytes(done, t.size));
    PlusExact(t.buffer, Bytes(done, t.size));
    hide Done, Bytes, Plus;
  }

  /** The requests lie one behind the other, on the device and in the buffer,
      from the start of the transfer to its end. */
  lemma RequestsTile(t: Transfer, k: nat)
    requires t.max > 0 && t.size > 0 && NoWrap(t) && k < Count(t)
    ensures var r := Split(t)[k];
      && (k == 0 ==> r.bufferOffset == t.buffer && r.deviceOffset == t.start)
      && (k + 1 < Count(t) ==> Split(t)[k + 1].bufferOffset == r.bufferOffset + r.length)
      && (k + 1 < Count(t) ==> Split(t)[k + 1].deviceOffset == r.deviceOffset + r.length)
      && (k + 1 == Count(t) ==> r.bufferOffset + r.length == t.buffer + t.sectors * t.size)
      && (k + 1 == Count(t) ==> r.deviceOffset + r.length == t.start + t.sectors * t.size)
  {
    RequestRange(t, k);
    DoneGrows(t, k);
    DoneGrows(t, Count(t));
    Scaled(Done(t, k), Done(t, k + 1), t.size);
    if k + 1 < Count(t) {
      RequestRange(t, k + 1);
    }
    hide Done, Count, Split;
  }

  predicate Covers(r: Request, x: nat) {
    r.bufferOffset <= x < r.bufferOffset + r.length
  }

  lemma {:induction false} CoveredBelow(t: Transfer, x: nat, k: nat) returns (j: nat)
    requires t.max > 0 && t.size > 0 && NoWrap(t) && k <= Count(t)
    requires t.buffer <= x < t.buffer + Done(t, k) * t.size
    ensures j < k && Covers(Split(t)[j], x)
  {
    DoneGrows(t, 0);
    assert k > 0;
    DoneGrows(t, k - 1);
    RequestRange(t, k - 1);
    Scaled(Done(t, k - 1), Done(t, k), t.size);
    hide Done, Count, Split;
    if x < t.buffer + Done(t, k - 1) * t.size {
      j := CoveredBelow(t, x, k - 1);
    } else {
      j := k - 1;
    }
  }

  lemma {:induction false} DoneMonotone(t: Transfer, j: nat, k: nat)
    requires j <= k
    ensures Done(t, j) <= Done(t, k)
  {
    Monotone(j, k, t.max);
  }

  /** Every byte of the transfer's buffer range is in exactly one request, and
      no request touches any other byte. */
  lemma EveryByteOnce(t: Transfer, x: nat)
    requires t.max > 0 && t.size > 0 && NoWrap(t)
    ensures t.buffer <= x < t.buffer + t.sectors * t.size
      <==> exists k :: 0 <= k < Count(t) && Covers(Split(t)[k], x)
    ensures forall j, k :: 0 <= j < k < Count(t) ==> !(Covers(Split(t)[j], x) && Covers(Split(t)[k], x))
  {
    DoneGrows(t, Count(t));
    if t.buffer <= x < t.buffer + t.sectors * t.size {
      var j := CoveredBelow(t, x, Count(t));
    }
    forall k | 0 <= k < Count(t) && Covers(Split(t)[k], x)
      ensures t.buffer <= x < t.buffer + t.sectors * t.size
    {
      RequestRange(t, k);
      DoneMonotone(t, k + 1, Count(t));
      DoneGrows(t, k);
      Scaled(0, Done(t, k), t.size);
      Scaled(Done(t, k), Done(t, k + 1), t.size);
      Scaled(Done(t, k + 1), t.sectors, t.size);
      hide Done, Split, Count;
    }
    forall j, k | 0 <= j < k < Count(t) ensures !(Covers(Split(t)[j], x) && Covers(Split(t)[k], x)) {
      RequestRange(t, j);
      RequestRange(t, k);
      DoneMonotone(t, j + 1, k);
      DoneGrows(t, j);
      Scaled(Done(t, j), Done(t, j + 1), t.size);
      Scaled(Done(t, j + 1), Done(t, k), t.size);
      hide Done, Split, Count;
    }
    hide Done, Split, Count;
  }

  /** Tags in flight differ, unless a transfer takes more requests than there
      are tags. */
  lemma TagsDifferIff(t: Transfer)
    requires t.max > 0
    ensures Count(t) <= W32 <==>
      forall j, k :: 0 <= j < k < Count(t) ==> Split(t)[j].tag != Split(t)[k].tag
  {
    hide Count, Tag;
    if Count(t) > W32 {
      TagOfWord(W32);
      assert Split(t)[0].tag == Split(t)[W32].tag;
    } else {
      forall j, k | 0 <= j < k < Count(t) ensures Split(t)[j].tag != Split(t)[k].tag {
        TagsDiffer(j, k);
      }
    }
  }

  lemma TagsDiffer(j: nat, k: nat)
    requires j < k < j + W32
    ensures Tag(j) != Tag(k)
  {
  }

  // ----- device offsets: bytes or sectors? -----

  /** Each request taken on its own, its device offset is the number of its first
      sector exactly for a single request or sectors of one byte. AhciServer says
      what this means for requests that are combined. */
  lemma SectorNumbersIff(t: Transfer)
    requires t.max > 0 && t.size > 0 && NoWrap(t)
    ensures t.sectors <= t.max || t.size == 1 <==>
      forall k :: 0 <= k < Count(t) ==> Split(t)[k].deviceOffset == t.start + Done(t, k)
  {
    forall k | 0 <= k < Count(t) ensures Split(t)[k].deviceOffset == t.start + Done(t, k) * t.size {
      RequestRange(t, k);
    }
    DoneGrows(t, 0);
    DoneGrows(t, 1);
    if t.sectors > t.max {
      assert Done(t, 1) == t.max < t.sectors;
      assert Split(t)[1].deviceOffset == t.start + t.max * t.size;
      if t.size > 1 {
        Scaled(1, t.size, t.max);
        assert t.max * t.size > t.max;
      }
    } else {
      forall k | 0 <= k < Count(t) ensures Done(t, k) == 0 {
        OneRequest(t, k);
      }
    }
    hide Split, Count;
  }

  lemma OneRequest(t: Transfer, k: nat)
    requires t.max > 0 && t.sectors <= t.max
    ensures k < Count(t) ==> Done(t, k) == 0
  {
    DoneGrows(t, k);
    if k > 0 {
      Monotone(1, k, t.max);
    }
    hide Count;
  }

  /** As a byte address, the reading of the request format, they are right
      exactly for a start at sector 0 or sectors of one byte. */
  lemma ByteAddressesIff(t: Transfer)
    requires t.max > 0 && t.size > 0 && NoWrap(t) && t.sectors > 0
    ensures t.start == 0 || t.size == 1 <==>
      forall k :: 0 <= k < Count(t) ==> AtByteAddress(t, Split(t)[k], k)
  {
    DoneGrows(t, 0);
    assert 0 < Count(t);
    hide Split, Count, Done, AtByteAddress, NoWrap;
    forall k | 0 <= k < Count(t)
      ensures AtByteAddress(t, Split(t)[k], k) <==> t.start == 0 || t.size == 1
    {
      ByteAddressIff(t, k);
    }
    assert AtByteAddress(t, Split(t)[0], 0) <==> t.start == 0 || t.size == 1;
  }

  predicate AtByteAddress(t: Transfer, r: Request, k: nat) {
    r.deviceOffset == (t.start + Done(t, k)) * t.size
  }

  lemma ByteAddressIff(t: Transfer, k: nat)
    requires t.max > 0 && t.size > 0 && NoWrap(t) && k < Count(t)
    ensures AtByteAddress(t, Split(t)[k], k) <==> t.start == 0 || t.size == 1
  {
    RequestRange(t, k);
    hide Split, Count, Done, NoWrap;
    Distribute(t.start, Done(t, k), t.size);
    StartScaled(t.start, t.size);
  }

  lemma Distribute(a: nat, b: nat, size: nat)
    ensures (a + b) * size == a * size + b * size
  {
  }

  lemma StartScaled(start: nat, size: nat)
    requires size > 0
    ensures start == start * size <==> start == 0 || size == 1
  {
    if start > 0 && size > 1 {
      Scaled(1, size, start);
    }
  }
}
