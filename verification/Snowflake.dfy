/**
 The snowflake ID generator: a clock reading, two fixed numbers and a counter packed into
 64 bits.
 */
module Snowflake {
  import opened Powers
  import opened Bits

  const TWEPOCH: nat := 1514736000000
  const WORKER_ID_BITS: nat := 5
  const DATACENTER_ID_BITS: nat := 5
  const SEQUENCE_BITS: nat := 12
  const WORKER_ID_SHIFT: nat := SEQUENCE_BITS
  const DATACENTER_ID_SHIFT: nat := WORKER_ID_SHIFT + WORKER_ID_BITS
  const TIMESTAMP_LEFT_SHIFT: nat := DATACENTER_ID_SHIFT + DATACENTER_ID_BITS
  const TIMESTAMP_BITS: nat := 64 - TIMESTAMP_LEFT_SHIFT
  const SEQUENCE_MASK: nat := Pow(2, SEQUENCE_BITS) - 1

  /** The two fixed numbers of a generator. */
  datatype Origin = Origin(datacenterId: nat, workerId: nat) {
    /** What the fields are documented to hold; the setters do not check it. */
    predicate InRange() {
      datacenterId < Pow(2, DATACENTER_ID_BITS) && workerId < Pow(2, WORKER_ID_BITS)
    }
  }

  datatype State = State(lastTimestamp: nat, sequence: nat)

  /** `Blocked`: the clock readings ended while the generator waited for the next millisecond. */
  datatype Outcome = Id(value: nat) | ClockMovedBackwards(milliseconds: nat) | Blocked

  /** The return expression of `nextId`; the second and third shift are on 32-bit words. */
  function Packed(timestamp: nat, origin: Origin, sequence: nat): nat {
    Or(Or(Or(ShiftLeft(Minus(timestamp, TWEPOCH, 64), TIMESTAMP_LEFT_SHIFT, 64),
             ShiftLeft(origin.datacenterId, DATACENTER_ID_SHIFT, 32)),
          ShiftLeft(origin.workerId, WORKER_ID_SHIFT, 32)),
       sequence)
  }

  /** The first reading after `last`, or the number of readings. */
  function FirstLater(clock: seq<nat>, last: nat): (k: nat)
    ensures k <= |clock| && (k < |clock| ==> clock[k] > last)
    ensures forall i | 0 <= i < k :: clock[i] <= last
  {
    if clock == [] || clock[0] > last then 0 else 1 + FirstLater(clock[1..], last)
  }

  /** What one call does with the clock readings it gets. */
  function NextId(origin: Origin, s: State, clock: seq<nat>): (Outcome, State)
    requires clock != []
  {
    var now := clock[0];
    if now < s.lastTimestamp then (ClockMovedBackwards(s.lastTimestamp - now), s)
    else if now > s.lastTimestamp then (Id(Packed(now, origin, 0)), State(now, 0))
    else
      var sequence := And(s.sequence + 1, SEQUENCE_MASK);
      if sequence != 0 then (Id(Packed(now, origin, sequence)), State(now, sequence))
      else
        var k := FirstLater(clock[1..], s.lastTimestamp);
        if k == |clock| - 1 then (Blocked, State(s.lastTimestamp, 0))
        else (Id(Packed(clock[1 + k], origin, 0)), State(clock[1 + k], 0))
  }

  /** The generator as an object; `clock` are the readings that a call gets. */
  class SnowflakeIdWorker {
    var workerId: nat
    var datacenterId: nat
    var sequence: nat
    var lastTimestamp: nat

    function Value(): State
      reads this
    {
      State(lastTimestamp, sequence)
    }

    function From(): Origin
      reads this
    {
      Origin(datacenterId, workerId)
    }

    constructor ()
      ensures Value() == State(0, 0) && From() == Origin(0, 0)
    {
      workerId, datacenterId, sequence, lastTimestamp := 0, 0, 0, 0;
    }

    method SetWorkerId(id: nat)
      modifies this`workerId
      ensures workerId == id
    {
      workerId := id;
    }

    method SetDatacenterId(id: nat)
      modifies this`datacenterId
      ensures datacenterId == id
    {
      datacenterId := id;
    }

    /** `tilNextMillis`: the index of the reading it returns, or `|clock|` if none comes. */
    method TilNextMillis(clock: seq<nat>, from: nat, last: nat) returns (k: nat)
      requires from <= |clock|
      ensures k == from + FirstLater(clock[from..], last)
    {
      k := from;
      while k < |clock| && clock[k] <= last
        invariant from <= k <= |clock|
        invariant from + FirstLater(clock[from..], last) == k + FirstLater(clock[k..], last)
      {
        assert clock[k..][1..] == clock[k + 1..];
        k := k + 1;
      }
    }

    /** `nextId` */
    method GetNextId(clock: seq<nat>) returns (r: Outcome)
      requires clock != []
      modifies this`sequence, this`lastTimestamp
      ensures (r, Value()) == NextId(From(), old(Value()), clock)
    {
      hide And, Packed, FirstLater;
      var timestamp := clock[0];
      if timestamp < lastTimestamp {
        return ClockMovedBackwards(lastTimestamp - timestamp);
      }
      if lastTimestamp == timestamp {
        sequence := And(sequence + 1, SEQUENCE_MASK);
        if sequence == 0 {
          var k := TilNextMillis(clock, 1, lastTimestamp);
          if k == |clock| { return Blocked; }
          timestamp := clock[k];
        }
      } else {
        sequence := 0;
      }
      lastTimestamp := timestamp;
      return Id(Packed(timestamp, From(), sequence));
    }
  }

  // ----- the bit layout --------------------------------------------------------------

  /** The same fields by multiplication and addition. */
  function Layout(milliseconds: nat, origin: Origin, sequence: nat): nat {
    ((milliseconds * Pow(2, DATACENTER_ID_BITS) + origin.datacenterId) * Pow(2, WORKER_ID_BITS) + origin.workerId)
    * Pow(2, SEQUENCE_BITS) + sequence
  }

  /** For every clock reading the fields do not overlap, and the milliseconds since the epoch
      are kept modulo 2^42. */
  lemma PackedIsLayout(timestamp: nat, origin: Origin, sequence: nat)
    requires origin.InRange() && sequence <= SEQUENCE_MASK
    ensures Packed(timestamp, origin, sequence) ==
            Layout((timestamp - TWEPOCH) % Pow(2, TIMESTAMP_BITS), origin, sequence)
  {
    hide Or, Pow;
    PowersOfTwo();
    var a := (timestamp - TWEPOCH) % 0x400_0000_0000;
    WrapTwice(timestamp - TWEPOCH);
    OrOfFields(a, origin.datacenterId, origin.workerId, sequence);
  }

  lemma OrOfFields(a: nat, d: nat, w: nat, n: nat)
    requires d < 32 && w < 32 && n < 4096
    ensures Or(Or(Or(a * 4194304, d * 131072), w * 4096), n) == ((a * 32 + d) * 32 + w) * 4096 + n
  {
    hide Or, Pow;
    PowersOfTwo();
    OrDisjoint(a, d * 131072, 22);
    assert a * 4194304 + d * 131072 == (a * 32 + d) * 131072;
    OrDisjoint(a * 32 + d, w * 4096, 17);
    assert (a * 32 + d) * 131072 + w * 4096 == ((a * 32 + d) * 32 + w) * 4096;
    OrDisjoint((a * 32 + d) * 32 + w, n, 12);
  }

  lemma WrapTwice(x: int)
    ensures (x % 0x1_0000_0000_0000_0000) * 4194304 % 0x1_0000_0000_0000_0000 == (x % 0x400_0000_0000) * 4194304
  {
  }

  /** Reading the fields back. */
  function MillisecondsOf(id: nat): nat { id / Pow(2, TIMESTAMP_LEFT_SHIFT) }

  function OriginOf(id: nat): Origin {
    Origin(id / Pow(2, DATACENTER_ID_SHIFT) % Pow(2, DATACENTER_ID_BITS),
           id / Pow(2, WORKER_ID_SHIFT) % Pow(2, WORKER_ID_BITS))
  }

  function SequenceOf(id: nat): nat { id % Pow(2, SEQUENCE_BITS) }

  lemma LayoutRoundTrip(milliseconds: nat, origin: Origin, sequence: nat)
    requires origin.InRange() && sequence <= SEQUENCE_MASK
    ensures var id := Layout(milliseconds, origin, sequence);
            MillisecondsOf(id) == milliseconds && OriginOf(id) == origin && SequenceOf(id) == sequence
  {
    hide Pow;
    PowersOfTwo();
    var d, w := origin.datacenterId, origin.workerId;
    var a := milliseconds * 32 + d;
    var b := a * 32 + w;
    var id := b * 4096 + sequence;
    assert id / 4096 == b && id % 4096 == sequence;
    assert b / 32 == a && b % 32 == w;
    assert a / 32 == milliseconds && a % 32 == d;
    assert id / 131072 == a && id / 4194304 == milliseconds;
  }

  /** The clock readings for which the 42 bits suffice. */
  predicate InWindow(timestamp: nat) {
    TWEPOCH <= timestamp < TWEPOCH + Pow(2, TIMESTAMP_BITS)
  }

  /** An ID gives back everything it was made from, and fits into 64 bits. */
  lemma PackedRoundTrip(timestamp: nat, origin: Origin, sequence: nat)
    requires InWindow(timestamp) && origin.InRange() && sequence <= SEQUENCE_MASK
    ensures var id := Packed(timestamp, origin, sequence);
            && TWEPOCH + MillisecondsOf(id) == timestamp && OriginOf(id) == origin && SequenceOf(id) == sequence
            && id < Pow(2, 64)
  {
    hide Pow, Packed, MillisecondsOf, OriginOf, SequenceOf;
    PackedIsLayout(timestamp, origin, sequence);
    InsideWindow(timestamp);
    LayoutRoundTrip(timestamp - TWEPOCH, origin, sequence);
    PowersOfTwo();
  }

  /** Outside the window the IDs repeat: 2^42 milliseconds later everything comes again. */
  lemma PackedRepeats(timestamp: nat, origin: Origin, sequence: nat)
    requires origin.InRange() && sequence <= SEQUENCE_MASK
    ensures Packed(timestamp + Pow(2, TIMESTAMP_BITS), origin, sequence) == Packed(timestamp, origin, sequence)
  {
    hide Pow, Packed, Layout;
    PowersOfTwo();
    PackedIsLayout(timestamp, origin, sequence);
    PackedIsLayout(timestamp + Pow(2, TIMESTAMP_BITS), origin, sequence);
    assert (timestamp - TWEPOCH + 0x400_0000_0000) % 0x400_0000_0000 == (timestamp - TWEPOCH) % 0x400_0000_0000;
  }

  /** IDs of one generator are ordered like their time and counter. */
  lemma PackedOrder(t: nat, n: nat, t': nat, n': nat, origin: Origin)
    requires InWindow(t) && InWindow(t') && n <= SEQUENCE_MASK && n' <= SEQUENCE_MASK && origin.InRange()
    ensures Packed(t, origin, n) < Packed(t', origin, n') <==> t < t' || (t == t' && n < n')
  {
    hide Pow, Packed, Layout;
    PackedIsLayout(t, origin, n);
    PackedIsLayout(t', origin, n');
    InsideWindow(t);
    InsideWindow(t');
    LayoutOrder(t - TWEPOCH, n, t' - TWEPOCH, n', origin);
  }

  lemma InsideWindow(t: nat)
    requires InWindow(t)
    ensures (t - TWEPOCH) % Pow(2, TIMESTAMP_BITS) == t - TWEPOCH
  {
    hide Pow;
    PowersOfTwo();
  }

  lemma LayoutOrder(a: nat, n: nat, a': nat, n': nat, origin: Origin)
    requires n <= SEQUENCE_MASK && n' <= SEQUENCE_MASK && origin.InRange()
    ensures Layout(a, origin, n) < Layout(a', origin, n') <==> a < a' || (a == a' && n < n')
  {
    hide Pow;
    PowersOfTwo();
  }

  // ----- runs of one generator ----------------------------------------------------------

  /** The IDs that a sequence of calls returns; each call gets its own clock readings.  A
      blocked call never returns, and holds the lock. */
  function Ids(origin: Origin, s: State, calls: seq<seq<nat>>): (ids: seq<nat>)
    requires forall i | 0 <= i < |calls| :: calls[i] != []
    decreases |calls|
  {
    if calls == [] then []
    else
      match NextId(origin, s, calls[0])
      case (Id(id), s') => [id] + Ids(origin, s', calls[1..])
      case (ClockMovedBackwards(_), s') => Ids(origin, s', calls[1..])
      case (Blocked, _) => []
  }

  predicate ClockInWindow(clock: seq<nat>) {
    clock != [] && forall t <- clock :: InWindow(t)
  }

  predicate ClocksInWindow(calls: seq<seq<nat>>) {
    forall i | 0 <= i < |calls| :: ClockInWindow(calls[i])
  }

  /** The state of a generator whose clock stays in the window. */
  predicate Valid(s: State) {
    s.sequence <= SEQUENCE_MASK && (s == State(0, 0) || InWindow(s.lastTimestamp))
  }

  /** The new time is the first reading behind the old one. */
  predicate IsFirstLater(clock: seq<nat>, s: State, s': State) {
    exists k | 0 <= k < |clock| ::
      clock[k] == s'.lastTimestamp && s.lastTimestamp < clock[k] && forall i | 0 <= i < k :: clock[i] <= s.lastTimestamp
  }

  /** Everything about one call: it is refused exactly when the clock has moved back, and then
      changes nothing; an ID carries the new time and counter, which are later than before. */
  lemma OneCall(origin: Origin, s: State, clock: seq<nat>)
    requires Valid(s) && ClockInWindow(clock) && origin.InRange()
    ensures var (r, s') := NextId(origin, s, clock);
            && (r.ClockMovedBackwards? <==> clock[0] < s.lastTimestamp)
            && (r.ClockMovedBackwards? ==> s' == s && clock[0] + r.milliseconds == s.lastTimestamp)
            && Valid(s')
            && (r.Id? ==>
                  && r.value == Packed(s'.lastTimestamp, origin, s'.sequence)
                  && s'.lastTimestamp in clock
                  && ((s.lastTimestamp < s'.lastTimestamp && s'.sequence == 0) ||
                      (s.lastTimestamp == s'.lastTimestamp && s.sequence + 1 == s'.sequence))
                  && (s'.lastTimestamp != clock[0] ==> s.sequence == SEQUENCE_MASK && IsFirstLater(clock, s, s')))
            && (r.Blocked? ==> s.sequence == SEQUENCE_MASK && s' == State(s.lastTimestamp, 0) &&
                               forall t <- clock :: t <= s.lastTimestamp)
  {
    hide Pow, Packed, And;
    AndMask(s.sequence + 1, SEQUENCE_BITS);
    PowersOfTwo();
    if clock[0] == s.lastTimestamp && (s.sequence + 1) % 4096 == 0 {
      var k := FirstLater(clock[1..], s.lastTimestamp);
      if k == |clock| - 1 {
        forall t | t in clock ensures t <= s.lastTimestamp {
          var i :| 0 <= i < |clock| && clock[i] == t;
          if i > 0 { assert clock[1..][i - 1] == t; }
        }
      } else {
        assert clock[1 + k] == clock[1..][k] && clock[1 + k] in clock;
        assert forall i | 1 <= i < 1 + k :: clock[i] == clock[1..][i - 1];
      }
    }
  }

  /** The last ID that this state can stand for. */
  function Floor(origin: Origin, s: State): int {
    if s == State(0, 0) then -1 else Packed(s.lastTimestamp, origin, s.sequence)
  }

  /** Strictly increasing, and above the floor. */
  predicate IncreasingFrom(floor: int, ids: seq<nat>) {
    (forall i | 0 <= i < |ids| :: floor < ids[i]) && forall i, j | 0 <= i < j < |ids| :: ids[i] < ids[j]
  }

  /** 64-bit IDs with the two numbers of this generator. */
  predicate AllFrom(origin: Origin, ids: seq<nat>) {
    forall i | 0 <= i < |ids| :: OriginOf(ids[i]) == origin && ids[i] < Pow(2, 64)
  }

  /** Successive IDs of one generator are strictly increasing. */
  lemma {:induction false} IdsIncrease(origin: Origin, s: State, calls: seq<seq<nat>>)
    requires Valid(s) && origin.InRange() && ClocksInWindow(calls)
    ensures IncreasingFrom(Floor(origin, s), Ids(origin, s, calls))
    decreases |calls|
  {
    hide Pow, Packed, InWindow, NextId, IncreasingFrom, Floor;
    NoIds(Floor(origin, s));
    if calls != [] {
      var (r, s') := NextId(origin, s, calls[0]);
      assert ClockInWindow(calls[0]);
      OneCall(origin, s, calls[0]);
      IdsIncrease(origin, s', calls[1..]);
      if r.Id? {
        NewFloor(origin, s, s');
        Prepend(Floor(origin, s), r.value, Ids(origin, s', calls[1..]));
      }
    }
  }

  lemma NoIds(floor: int)
    ensures IncreasingFrom(floor, [])
  {
  }

  lemma Prepend(floor: int, id: nat, rest: seq<nat>)
    requires floor < id && IncreasingFrom(id, rest)
    ensures IncreasingFrom(floor, [id] + rest)
  {
  }

  /** Every ID is made of some clock reading, some counter and the two numbers. */
  lemma OneId(origin: Origin, s: State, clock: seq<nat>)
    requires clock != [] && NextId(origin, s, clock).0.Id?
    ensures var (r, s') := NextId(origin, s, clock);
            r.value == Packed(s'.lastTimestamp, origin, s'.sequence) && s'.sequence <= SEQUENCE_MASK
  {
    hide Pow, Packed, And;
    AndMask(s.sequence + 1, SEQUENCE_BITS);
    PowersOfTwo();
  }

  /** The fields of an ID in numbers: the milliseconds since 1514736000000 modulo 2^42 above five
      bits for the data center, five for the worker and twelve for the counter. */
  lemma FieldsInNumbers(origin: Origin, s: State, clock: seq<nat>)
    requires clock != [] && NextId(origin, s, clock).0.Id? && origin.datacenterId < 32 && origin.workerId < 32
    ensures var (r, s') := NextId(origin, s, clock);
            && r.value / 0x40_0000 == (s'.lastTimestamp - 1514736000000) % 0x400_0000_0000
            && r.value / 0x2_0000 % 32 == origin.datacenterId
            && r.value / 0x1000 % 32 == origin.workerId
            && r.value % 0x1000 == s'.sequence < 0x1000
  {
    hide Pow, Packed, And, NextId;
    OneId(origin, s, clock);
    PowersOfTwo();
    var s' := NextId(origin, s, clock).1;
    PackedIsLayout(s'.lastTimestamp, origin, s'.sequence);
    LayoutRoundTrip((s'.lastTimestamp - TWEPOCH) % Pow(2, TIMESTAMP_BITS), origin, s'.sequence);
  }

  /** An ID carries the two numbers of its generator, for every clock reading. */
  lemma PackedOrigin(timestamp: nat, origin: Origin, sequence: nat)
    requires origin.InRange() && sequence <= SEQUENCE_MASK
    ensures OriginOf(Packed(timestamp, origin, sequence)) == origin && Packed(timestamp, origin, sequence) < Pow(2, 64)
  {
    hide Pow, Packed, OriginOf, MillisecondsOf, SequenceOf;
    PowersOfTwo();
    PackedIsLayout(timestamp, origin, sequence);
    LayoutRoundTrip((timestamp - TWEPOCH) % Pow(2, TIMESTAMP_BITS), origin, sequence);
  }

  /** All IDs of a run carry the two numbers of their generator, whatever its clock and state. */
  lemma {:induction false} IdsFromOrigin(origin: Origin, s: State, calls: seq<seq<nat>>)
    requires origin.InRange() && forall i | 0 <= i < |calls| :: calls[i] != []
    ensures AllFrom(origin, Ids(origin, s, calls))
    decreases |calls|
  {
    hide Pow, Packed, OriginOf, NextId;
    if calls != [] {
      var (r, s') := NextId(origin, s, calls[0]);
      IdsFromOrigin(origin, s', calls[1..]);
      if r.Id? {
        OneId(origin, s, calls[0]);
        PackedOrigin(s'.lastTimestamp, origin, s'.sequence);
      }
    }
  }

  lemma NewFloor(origin: Origin, s: State, s': State)
    requires Valid(s) && Valid(s') && origin.InRange()
    requires s.lastTimestamp < s'.lastTimestamp || (s.lastTimestamp == s'.lastTimestamp && s.sequence < s'.sequence)
    requires InWindow(s'.lastTimestamp)
    ensures Floor(origin, s) < Floor(origin, s') == Packed(s'.lastTimestamp, origin, s'.sequence)
  {
    hide Pow, Packed;
    if s != State(0, 0) {
      PackedOrder(s.lastTimestamp, s.sequence, s'.lastTimestamp, s'.sequence, origin);
    }
  }

  /** At most 4096 IDs of a generator share a millisecond. */
  lemma FewPerMillisecond(origin: Origin, s: State, calls: seq<seq<nat>>, i: nat, j: nat)
    requires Valid(s) && origin.InRange() && ClocksInWindow(calls)
    requires i < j < |Ids(origin, s, calls)|
    requires MillisecondsOf(Ids(origin, s, calls)[i]) == MillisecondsOf(Ids(origin, s, calls)[j])
    ensures j - i < 4096
  {
    hide Pow;
    var ids := Ids(origin, s, calls);
    IdsIncrease(origin, s, calls);
    IdsFromOrigin(origin, s, calls);
    assert IncreasingFrom(-1, ids);
    Spread(ids, i, j);
    PowersOfTwo();
    SameFields(ids[i], ids[j]);
  }

  lemma {:induction false} Spread(ids: seq<nat>, i: nat, j: nat)
    requires i <= j < |ids| && IncreasingFrom(-1, ids)
    ensures ids[i] + (j - i) <= ids[j]
    decreases j
  {
    if i < j { Spread(ids, i, j - 1); }
  }

  lemma SameFields(x: nat, y: nat)
    requires MillisecondsOf(x) == MillisecondsOf(y) && OriginOf(x) == OriginOf(y) && x <= y
    ensures y - x < 4096
  {
    hide Pow;
    PowersOfTwo();
    SameQuotients(x, y);
  }

  lemma SameQuotients(x: nat, y: nat)
    requires x / 4194304 == y / 4194304 && x / 131072 % 32 == y / 131072 % 32 && x / 4096 % 32 == y / 4096 % 32
    requires x <= y
    ensures y - x < 4096
  {
    assert x / 131072 / 32 == x / 4194304 && y / 131072 / 32 == y / 4194304;
    assert x / 4096 / 32 == x / 131072 && y / 4096 / 32 == y / 131072;
  }

  /** Generators with different numbers never return the same ID, whatever their clocks. */
  lemma NoCollision(a: Origin, s: State, calls: seq<seq<nat>>, b: Origin, s': State, calls': seq<seq<nat>>)
    requires a.InRange() && b.InRange() && a != b
    requires forall i | 0 <= i < |calls| :: calls[i] != []
    requires forall i | 0 <= i < |calls'| :: calls'[i] != []
    ensures forall x, y | x in Ids(a, s, calls) && y in Ids(b, s', calls') :: x != y
  {
    hide Ids, OriginOf;
    IdsFromOrigin(a, s, calls);
    IdsFromOrigin(b, s', calls');
  }
}
