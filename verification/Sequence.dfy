/** The SMPP sequence numbers of outgoing requests. */
module Sequence {

  const MIN_SEQUENCE := 0x00000001
  const MAX_SEQUENCE := 0x7FFFFFFF

  type SequenceNumber = n: int | MIN_SEQUENCE <= n <= MAX_SEQUENCE witness MIN_SEQUENCE

  function Next(n: SequenceNumber): SequenceNumber {
    if n == MAX_SEQUENCE then MIN_SEQUENCE else n + 1
  }

  class SimpleSequenceGenerator {
    var sequenceNumber: SequenceNumber

    constructor ()
      ensures sequenceNumber == MIN_SEQUENCE
    {
      sequenceNumber := MIN_SEQUENCE;
    }

    method NextSequence() returns (n: SequenceNumber)
      modifies this
      ensures n == sequenceNumber == Next(old(sequenceNumber))
    {
      if sequenceNumber == MAX_SEQUENCE {
        sequenceNumber := MIN_SEQUENCE;
      } else {
        sequenceNumber := sequenceNumber + 1;
      }
      n := sequenceNumber;
    }
  }

  /** The number drawn by the k-th call after the one that drew n. */
  function After(n: SequenceNumber, k: nat): SequenceNumber {
    if k == 0 then n else Next(After(n, k - 1))
  }

  lemma {:induction false} AfterIsModular(n: SequenceNumber, k: nat)
    ensures After(n, k) == (n - 1 + k) % MAX_SEQUENCE + 1
  {
    if k > 0 {
      AfterIsModular(n, k - 1);
      NextRemainder(n - 1 + (k - 1));
    }
  }

  lemma NextRemainder(x: nat)
    ensures (x + 1) % MAX_SEQUENCE == if x % MAX_SEQUENCE == MAX_SEQUENCE - 1 then 0 else x % MAX_SEQUENCE + 1
  {
  }

  lemma {:induction false} AfterAdds(n: SequenceNumber, j: nat, k: nat)
    ensures After(After(n, j), k) == After(n, j + k)
  {
    if k > 0 {
      AfterAdds(n, j, k - 1);
    }
  }

  /** Numbers run from 1 to 0x7FFFFFFF, one up at a time, and then start again at 1. */
  lemma NumbersRunUp(n: SequenceNumber)
    ensures 1 <= n <= 0x7FFFFFFF
    ensures Next(n) == if n == 0x7FFFFFFF then 1 else n + 1
  {
  }

  /** A number comes round exactly every 0x7FFFFFFF calls, never sooner. */
  lemma Period(n: SequenceNumber, k: nat)
    ensures After(n, k) == n <==> k % 0x7FFFFFFF == 0
  {
    AfterIsModular(n, k);
  }
}
