/** The UART driver's count of characters sent, and the transmitter's FIFO. */
module Uart {

  class Transmitter {
    const fifoSize: nat
    /** The driver's state. */
    var sendCharCount: nat
    /** The hardware: characters waiting, oldest first, and those transmitted. */
    var fifo: string
    var transmitted: string

    ghost predicate Valid()
      reads this
    {
      fifoSize > 0 && |fifo| <= sendCharCount <= fifoSize
    }

    constructor (fifoSize: nat)
      requires fifoSize > 0
      ensures Valid() && this.fifoSize == fifoSize && fifo == "" && transmitted == ""
    {
      this.fifoSize, sendCharCount, fifo, transmitted := fifoSize, 0, "", "";
    }

    /** At any moment the transmitter may have taken some characters. */
    method Drain(n: nat)
      modifies this`fifo, this`transmitted
      ensures transmitted + fifo == old(transmitted + fifo)
      ensures |fifo| == if n < |old(fifo)| then |old(fifo)| - n else 0
    {
      var k := if n < |fifo| then n else |fifo|;
      transmitted, fifo := transmitted + fifo[..k], fifo[k..];
    }

    /** Write one character; when the count has reached the size of the FIFO,
        first poll until it is empty. The transmitter takes drains(i) characters
        before poll i, and within the given number of polls all of them. */
    method PutChar(c: char, drains: nat -> nat, ghost polls: nat)
      requires Valid() && Total(drains, 0, polls) >= fifoSize
      modifies this
      ensures Valid() && 0 < |fifo|
      ensures transmitted + fifo == old(transmitted + fifo) + [c]
    {
      ghost var all := transmitted + fifo;
      if sendCharCount == fifoSize {
        var i: nat := 0;
        Drain(drains(i));
        while fifo != ""
          invariant i < polls || fifo == ""
          invariant Valid() && transmitted + fifo == all
          invariant |fifo| <= Total(drains, i + 1, polls)
          decreases polls - i
        {
          i := i + 1;
          Drain(drains(i));
        }
        sendCharCount := 0;
      }
      fifo := fifo + [c];
      sendCharCount := sendCharCount + 1;
    }
  }

  function Total(drains: nat -> nat, from: nat, to: nat): nat
    decreases to - from
  {
    if from >= to then 0 else drains(from) + Total(drains, from + 1, to)
  }
}
