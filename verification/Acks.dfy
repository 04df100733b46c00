/** conn.go, readFull: counting received bytes and acknowledging them (RTMP 1.0
    specification, section 5.4.3). */
module Acks {
  import opened Results
  import opened RtmpWire

  /** At this many bytes both counters start again. */
  const RESET := 0xf000_0000

  datatype Account = Account(inBytes: uint32, inLastAck: uint32, window: uint32)

  const START := Account(0, 0, 0)

  /** A successful read, or a new window from the peer. */
  datatype Event = Read(n: nat) | Window(size: uint32)

  /** The counters after a read of n bytes, and the sequence number acknowledged if any. */
  function AfterRead(a: Account, n: nat): (Account, Option<uint32>) {
    var sum := Wrap(a.inBytes + n % 0x1_0000_0000);
    var b := if sum >= RESET then a.(inBytes := 0, inLastAck := 0) else a.(inBytes := sum);
    if b.window > 0 && Wrap(b.inBytes - b.inLastAck) >= b.window then
      (b.(inLastAck := b.inBytes), Some(b.inBytes))
    else (b, None)
  }

  function After(a: Account, e: Event): (Account, Option<uint32>) {
    match e
    case Read(n) => AfterRead(a, n)
    case Window(size) => (a.(window := size), None)
  }

  // ---- Runs

  /** No single read is longer than this; messages are below 2^24 bytes. */
  const LONGEST := 0x1000_0000

  ghost predicate Run(es: seq<Event>) {
    forall i | 0 <= i < |es| :: es[i].Read? ==> es[i].n <= LONGEST
  }

  function At(es: seq<Event>, i: nat): Account
    requires i <= |es|
  {
    if i == 0 then START else After(At(es, i - 1), es[i - 1]).0
  }

  /** What event i acknowledges. */
  function AckAt(es: seq<Event>, i: nat): Option<uint32>
    requires i < |es|
  {
    After(At(es, i), es[i]).1
  }

  // ---- What the counters should be

  /** The bytes received before event i since counting last started again. */
  function ReceivedBefore(es: seq<Event>, i: nat): nat
    requires i <= |es|
    decreases i, 0
  {
    if i == 0 then 0
    else if es[i - 1].Window? then ReceivedBefore(es, i - 1)
    else if Restarts(es, i - 1) then 0
    else ReceivedBefore(es, i - 1) + es[i - 1].n
  }

  predicate Restarts(es: seq<Event>, i: nat)
    requires i < |es|
    decreases i, 1
  {
    es[i].Read? && ReceivedBefore(es, i) + es[i].n >= RESET
  }

  /** The latest acknowledgement before event i since counting last started again. */
  function LatestAck(es: seq<Event>, i: nat): uint32
    requires i <= |es|
  {
    if i == 0 || Restarts(es, i - 1) then 0
    else if AckAt(es, i - 1).Some? then AckAt(es, i - 1).value
    else LatestAck(es, i - 1)
  }

  predicate InOrder(a: Account) {
    a.inLastAck <= a.inBytes < RESET
  }

  /** One read without any wrap-around. */
  lemma ReadExact(a: Account, n: nat)
    requires InOrder(a) && n <= LONGEST
    ensures a.inBytes + n < 0x1_0000_0000
    ensures var restart := a.inBytes + n >= RESET;
            var inBytes := if restart then 0 else a.inBytes + n;
            var unacked := if restart then 0 else inBytes - a.inLastAck;
            var ack := a.window > 0 && unacked >= a.window;
            AfterRead(a, n)
            == (Account(inBytes, if ack then inBytes else if restart then 0 else a.inLastAck, a.window),
                if ack then Some(inBytes) else None)
  {
  }

  /** In every run the counters are what they stand for, in order and below the reset
      threshold, and adding to them never wraps around. */
  lemma {:induction false} CountersExact(es: seq<Event>, i: nat)
    requires Run(es) && i <= |es|
    ensures At(es, i).inBytes == ReceivedBefore(es, i)
    ensures At(es, i).inLastAck == LatestAck(es, i)
    ensures InOrder(At(es, i))
    ensures i < |es| && es[i].Read? ==> At(es, i).inBytes + es[i].n < 0x1_0000_0000
  {
    hide AfterRead;
    if i > 0 {
      CountersExact(es, i - 1);
      if es[i - 1].Read? {
        ReadExact(At(es, i - 1), es[i - 1].n);
      }
    }
  }

  /** Each acknowledgement is the number of bytes received since counting last started. */
  lemma AckExact(es: seq<Event>, i: nat)
    requires Run(es) && i < |es|
    ensures AckAt(es, i).Some? ==> AckAt(es, i).value == ReceivedBefore(es, i + 1)
    ensures AckAt(es, i).Some?
       <==> && es[i].Read? && At(es, i).window > 0
            && ReceivedBefore(es, i + 1) - (if Restarts(es, i) then 0 else LatestAck(es, i)) >= At(es, i).window
  {
    hide AfterRead;
    if es[i].Read? {
      CountersExact(es, i);
      ReadExact(At(es, i), es[i].n);
    }
    CountersExact(es, i + 1);
  }

  /** After each read under a window, less than the window is unacknowledged. */
  lemma UnacknowledgedBounded(es: seq<Event>, i: nat)
    requires Run(es) && i < |es| && es[i].Read? && At(es, i).window > 0
    ensures 0 <= ReceivedBefore(es, i + 1) - LatestAck(es, i + 1) < At(es, i).window
  {
    hide AfterRead;
    if es[i].Read? {
      CountersExact(es, i);
      ReadExact(At(es, i), es[i].n);
    }
    CountersExact(es, i + 1);
  }

  lemma {:induction false} LatestAckGrows(es: seq<Event>, i: nat, j: nat)
    requires Run(es) && i <= j <= |es|
    requires forall k | i <= k < j :: !Restarts(es, k)
    ensures LatestAck(es, i) <= LatestAck(es, j)
    decreases j
  {
    hide AfterRead;
    if i < j {
      LatestAckGrows(es, i, j - 1);
      CountersExact(es, j - 1);
      if es[j - 1].Read? {
        ReadExact(At(es, j - 1), es[j - 1].n);
      }
    }
  }

  /** Acknowledgements increase strictly until counting starts again. */
  lemma AcksIncrease(es: seq<Event>, i: nat, j: nat)
    requires Run(es) && i < j < |es| && AckAt(es, i).Some? && AckAt(es, j).Some?
    requires forall k | i < k <= j :: !Restarts(es, k)
    ensures AckAt(es, i).value < AckAt(es, j).value
  {
    hide AfterRead, At, AckAt, ReceivedBefore;
    AckExact(es, j);
    AckExact(es, i);
    if Restarts(es, i) {
      RestartsSilent(es, i);
    }
    LatestAckGrows(es, i + 1, j);
  }

  /** A read that makes counting start again acknowledges nothing. */
  lemma RestartsSilent(es: seq<Event>, i: nat)
    requires Run(es) && i < |es| && Restarts(es, i)
    ensures AckAt(es, i).None?
  {
    hide AfterRead;
    CountersExact(es, i);
    ReadExact(At(es, i), es[i].n);
  }

  /** The bound is tight: just below the threshold a longer read wraps the counter
      around, and the bytes before it are forgotten without counting starting again. */
  lemma LongReadWraps(n: nat)
    requires LONGEST < n < 0x1_0000_0000
    ensures AfterRead(Account(RESET - 1, 0, 0), n).0.inBytes == n - LONGEST - 1
  {
  }
}
