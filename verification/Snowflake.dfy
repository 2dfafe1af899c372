/**
 The id generator: milliseconds since an epoch, a node number and a counter, packed into one signed 64-bit word. The
 clock may return anything; the generator never goes back behind the time it last used.
 */
module Snowflake {
  import opened Options
  import opened Bits

  const NODE_BITS := 10
  const STEP_BITS := 12
  const NODE_MAX := 1023
  const STEP_MAX := 4095
  const TIME_SHIFT := 22
  const EPOCH := 1704067200000
  const TIME_LIMIT := 0x200_0000_0000   // 2^41

  lemma Constants()
    ensures Pow2(STEP_BITS) == 4096 && Pow2(NODE_BITS) == 1024 && Pow2(TIME_SHIFT) == 4194304
    ensures STEP_MAX == Pow2(STEP_BITS) - 1 && NODE_MAX == Pow2(NODE_BITS) - 1
    ensures TIME_SHIFT == NODE_BITS + STEP_BITS
  {
    assert Pow2(5) == 32 && Pow2(10) == 1024 && Pow2(12) == 4096;
    assert Pow2(15) == 32768 && Pow2(20) == 1048576 && Pow2(22) == 4194304;
  }

  datatype Clock = Clock(timestamp: int, node: int, step: int)

  /** The id of a time, a node and a step, with the shifts and ors of the source. */
  function Pack(now: int, node: int, step: int): int {
    Or(Or(ShiftLeft(Wrap(now - EPOCH), TIME_SHIFT), ShiftLeft(node, STEP_BITS)), step)
  }

  /** The first reading that is later. */
  function FirstAfter(timestamp: int, readings: seq<int>): Option<int> {
    if readings == [] then None
    else if readings[0] > timestamp then Some(readings[0])
    else FirstAfter(timestamp, readings[1..])
  }

  /** The step after this one within the same millisecond; zero when they are used up. */
  function NextStep(step: int): int {
    if step == STEP_MAX then 0 else step + 1
  }

  /**
   Where one call leaves the node, given what the clock reads during it; nowhere when the call still waits after the
   last reading.
   */
  function Next(c: Clock, readings: seq<int>): Option<Clock>
    requires readings != []
  {
    var now := if readings[0] < c.timestamp then c.timestamp else readings[0];
    if now != c.timestamp then Some(Clock(now, c.node, 0))
    else if NextStep(c.step) != 0 then Some(Clock(now, c.node, NextStep(c.step)))
    else
      match FirstAfter(c.timestamp, readings[1..])
      case Some(later) => Some(Clock(later, c.node, 0))
      case None => None
  }

  /** The milliseconds since the epoch, as far as the 42 bits above the other fields hold them. */
  function TimePart(now: int): int {
    (Wrap(now - EPOCH) + TIME_LIMIT) % (2 * TIME_LIMIT) - TIME_LIMIT
  }

  /** The id that a call returns, of where it leaves the node: the sum of its fields. */
  function IdOf(c: Clock): int {
    TimePart(c.timestamp) * 4194304 + c.node * 4096 + c.step
  }

  predicate FieldsFit(node: int, step: int) {
    0 <= node <= NODE_MAX && 0 <= step <= STEP_MAX
  }

  /** The loop that waits for the next millisecond. */
  method WaitForNext(timestamp: int, readings: seq<int>) returns (later: Option<int>)
    ensures later == FirstAfter(timestamp, readings)
  {
    var now, i := timestamp, 0;
    while now <= timestamp
      invariant 0 <= i <= |readings|
      invariant FirstAfter(timestamp, readings)
             == if now > timestamp then Some(now) else FirstAfter(timestamp, readings[i..])
      decreases |readings| - i
    {
      if i == |readings| {
        return None;
      }
      now := readings[i];
      assert readings[i..][1..] == readings[i + 1..];
      i := i + 1;
    }
    later := Some(now);
  }

  class Node {
    var timestamp: int
    var node: int
    var step: int

    ghost function View(): Clock
      reads this
    {
      Clock(timestamp, node, step)
    }

    constructor (node: int)
      requires 0 <= node <= NODE_MAX
      ensures View() == Clock(0, node, 0)
    {
      this.timestamp, this.node, this.step := 0, node, 0;
    }

    /** A node for this number, which has to fit into its ten bits. */
    static method NewNode(node: int) returns (n: Node?)
      ensures n == null <==> node < 0 || node > NODE_MAX
      ensures n != null ==> fresh(n) && n.View() == Clock(0, node, 0)
    {
      if node < 0 || node > NODE_MAX {
        return null;
      }
      n := new Node(node);
    }

    method Generate(readings: seq<int>) returns (id: Option<int>)
      requires readings != [] && FieldsFit(node, step)
      modifies this
      ensures FieldsFit(node, step)
      ensures
        match Next(old(View()), readings)
        case Some(after) => View() == after && id == Some(IdOf(after))
        case None => id == None && View() == old(View()).(step := 0)
      ensures readings[0] > old(timestamp) ==> id.Some? && timestamp == readings[0] && step == 0
      ensures readings[0] <= old(timestamp) && old(step) < 4095 ==>
        id.Some? && timestamp == old(timestamp) && step == old(step) + 1
      ensures readings[0] <= old(timestamp) && old(step) == 4095 ==>
        && (id.None? <==> forall r :: r in readings ==> r <= old(timestamp))
        && (id.Some? ==> timestamp > old(timestamp) && timestamp in readings && step == 0)
    {
      WaitingIs(timestamp, readings);
      var now := readings[0];
      if now < timestamp {
        now := timestamp;
      }
      if now == timestamp {
        StepIsNext(step);
        step := And(step + 1, STEP_MAX);
        if step == 0 {
          var later := WaitForNext(timestamp, readings[1..]);
          if later.None? {
            return None;
          }
          now := later.value;
        }
      } else {
        step := 0;
      }
      timestamp := now;
      PackIsSum(now, node, step);
      id := Some(Pack(now, node, step));
    }
  }

  // ---- The fields of an id ----

  /** The packed word is the sum of its fields. */
  lemma PackIsSum(now: int, node: int, step: int)
    requires FieldsFit(node, step)
    ensures Pack(now, node, step) == IdOf(Clock(now, node, step))
  {
    var t := TimePart(now);
    PackOfFields(now, node, step);
    OrNode(t, node);
    OrStep(t * 1024 + node, step);
    assert t * 4194304 + node * 4096 == (t * 1024 + node) * 4096;
  }

  lemma PackOfFields(now: int, node: int, step: int)
    requires FieldsFit(node, step)
    ensures Pack(now, node, step) == Or(Or(TimePart(now) * 4194304, node * 4096), step)
  {
    ShiftedTime(Wrap(now - EPOCH));
    ShiftedNode(node);
    SameOr(ShiftLeft(Wrap(now - EPOCH), TIME_SHIFT), TimePart(now) * 4194304,
           ShiftLeft(node, STEP_BITS), node * 4096, step);
  }

  lemma SameOr(v: int, v': int, w: int, w': int, step: int)
    requires v == v' && w == w'
    ensures Or(Or(v, w), step) == Or(Or(v', w'), step)
  {
  }

  lemma OrNode(t: int, node: int)
    requires -TIME_LIMIT <= t < TIME_LIMIT && 0 <= node <= NODE_MAX
    ensures Or(t * 4194304, node * 4096) == t * 4194304 + node * 4096
  {
    Constants();
    OrIsSumOfWords(t, 22, node * 4096);
  }

  lemma OrStep(t: int, step: int)
    requires -TIME_LIMIT * 1024 <= t < TIME_LIMIT * 1024 && 0 <= step <= STEP_MAX
    ensures Or(t * 4096, step) == t * 4096 + step
  {
    Constants();
    OrIsSumOfWords(t, 12, step);
  }

  /** Or-ing a small number into the free low bits of a word adds it. */
  lemma OrIsSumOfWords(t: int, k: nat, low: nat)
    requires k <= 63 && low < Pow2(k) && -HALF <= t * Pow2(k) && t * Pow2(k) + low < HALF
    requires t < 0 ==> t * Pow2(k) + low < 0
    ensures Or(t * Pow2(k), low) == t * Pow2(k) + low
  {
    var w := t * Pow2(k);
    UnsignedMultiple(t, k);
    var q := Unsigned(w) / Pow2(k);
    PowersOfWord();
    SignOfProduct(t, Pow2(k));
    OrIsSum(q, low, k, 64);
    WrapOfUnsigned(w, low);
    RemainderIs(low, WORD, 0, low);
  }

  lemma SignOfProduct(t: int, p: int)
    requires p > 0
    ensures t < 0 <==> t * p < 0
  {
    ProductGrows(t, p);
  }

  lemma UnsignedMultiple(t: int, k: nat)
    requires k <= 63
    ensures Pow2(k) > 0 && Unsigned(t * Pow2(k)) == (Unsigned(t * Pow2(k)) / Pow2(k)) * Pow2(k)
  {
    var p, r := Pow2(k), Pow2(64 - k);
    PowersOfWord();
    PowersAdd(k, 64 - k);
    PowIsPositive(k);
    var d := (t * p) / WORD;
    assert Unsigned(t * p) == t * p - d * (p * r);
    MultipleLess(t, d, p, r);
    RemainderIs(Unsigned(t * p), p, t - d * r, 0);
  }

  lemma MultipleLess(t: int, d: int, p: int, r: int)
    ensures t * p - d * (p * r) == (t - d * r) * p
  {
  }

  lemma {:induction false} PowIsPositive(k: nat)
    ensures Pow2(k) > 0
  {
    if k > 0 {
      PowIsPositive(k - 1);
    }
  }

  lemma PowersOfWord()
    ensures Pow2(64) == WORD
  {
    Constants();
    assert Pow2(24) == 16777216 && Pow2(32) == 0x1_0000_0000;
    PowersAdd(32, 32);
  }

  lemma {:induction false} PowersAdd(j: nat, k: nat)
    ensures Pow2(j + k) == Pow2(j) * Pow2(k)
  {
    if j > 0 {
      PowersAdd(j - 1, k);
    }
  }

  /** Shifting keeps the time modulo 2^42. */
  lemma ShiftedTime(time: int)
    requires -HALF <= time < HALF
    ensures ShiftLeft(time, TIME_SHIFT) == ((time + TIME_LIMIT) % (2 * TIME_LIMIT) - TIME_LIMIT) * 4194304
  {
    Constants();
    DoubledIsProduct(time, TIME_SHIFT);
    var q, r := (time + TIME_LIMIT) / (2 * TIME_LIMIT), (time + TIME_LIMIT) % (2 * TIME_LIMIT);
    assert time * 4194304 + HALF == q * WORD + r * 4194304;
    RemainderIs(time * 4194304 + HALF, WORD, q, r * 4194304);
  }

  lemma ShiftedNode(node: int)
    requires 0 <= node <= NODE_MAX
    ensures ShiftLeft(node, STEP_BITS) == node * 4096
  {
    Constants();
    DoubledIsProduct(node, STEP_BITS);
    SmallWord(node * 4096);
  }

  lemma WrapOfUnsigned(w: int, low: nat)
    requires -HALF <= w && w + low < HALF && (w < 0 ==> w + low < 0)
    ensures Wrap(Unsigned(w) + low) == w + low
  {
    if w >= 0 {
      RemainderIs(w, WORD, 0, w);
      RemainderIs(w + low + HALF, WORD, 0, w + low + HALF);
    } else {
      RemainderIs(w, WORD, -1, w + WORD);
      RemainderIs(w + WORD + low + HALF, WORD, 1, w + low + HALF);
    }
  }

  // ---- Reading the fields back ----

  /** The time in milliseconds since the epoch fits into the bits that are left for it. */
  predicate TimeFits(now: int) {
    EPOCH - TIME_LIMIT <= now < EPOCH + TIME_LIMIT
  }

  lemma TimePartIs(now: int)
    ensures -TIME_LIMIT <= TimePart(now) < TIME_LIMIT
    ensures TimeFits(now) ==> TimePart(now) == now - EPOCH
  {
    if TimeFits(now) {
      RemainderIs(now - EPOCH + HALF, WORD, 0, now - EPOCH + HALF);
      RemainderIs(now - EPOCH + TIME_LIMIT, 2 * TIME_LIMIT, 0, now - EPOCH + TIME_LIMIT);
    }
  }

  /** Node and step can be read back from every id, and the time exactly when it fits. */
  lemma FieldsAreRecovered(now: int, node: int, step: int)
    requires FieldsFit(node, step)
    ensures
      var id := Pack(now, node, step);
      && id % 4096 == step && (id / 4096) % 1024 == node
      && (id / 4194304 == now - EPOCH <==> TimeFits(now))
      && (TimeFits(now) ==> (id >= 0 <==> now >= EPOCH))
  {
    var t := TimePart(now);
    PackIsSum(now, node, step);
    TimePartIs(now);
    RemainderIs(t * 4194304 + node * 4096 + step, 4096, t * 1024 + node, step);
    RemainderIs(t * 1024 + node, 1024, t, node);
    RemainderIs(t * 4194304 + node * 4096 + step, 4194304, t, node * 4096 + step);
  }

  /** Ids of different nodes never collide, whatever their clocks say. */
  lemma NodesNeverCollide(now: int, node: int, step: int, now': int, node': int, step': int)
    requires FieldsFit(node, step) && FieldsFit(node', step') && node != node'
    ensures Pack(now, node, step) != Pack(now', node', step')
  {
    FieldsAreRecovered(now, node, step);
    FieldsAreRecovered(now', node', step');
  }

  // ---- Runs ----

  predicate IsClock(c: Clock) {
    FieldsFit(c.node, c.step) && c.timestamp >= 0
  }

  /**
   Where these calls leave the node, one after the other, each with the clock readings it sees, up to one that never
   returns.
   */
  function Clocks(c: Clock, calls: seq<seq<int>>): seq<Clock>
    decreases calls
  {
    if calls == [] || calls[0] == [] || Next(c, calls[0]).None? then []
    else [Next(c, calls[0]).value] + Clocks(Next(c, calls[0]).value, calls[1..])
  }

  function IdsOf(clocks: seq<Clock>): seq<int> {
    if clocks == [] then [] else [IdOf(clocks[0])] + IdsOf(clocks[1..])
  }

  /** The ids that these calls return. */
  function Ids(c: Clock, calls: seq<seq<int>>): seq<int> {
    IdsOf(Clocks(c, calls))
  }

  predicate ReadsBelow(calls: seq<seq<int>>, limit: int) {
    forall i :: 0 <= i < |calls| ==> forall j :: 0 <= j < |calls[i]| ==> calls[i][j] <= limit
  }

  predicate IsIncreasing(ids: seq<int>) {
    forall i, j :: 0 <= i < j < |ids| ==> ids[i] < ids[j]
  }

  lemma {:induction false} FirstAfterIs(timestamp: int, readings: seq<int>)
    ensures FirstAfter(timestamp, readings).Some? ==>
              FirstAfter(timestamp, readings).value in readings && FirstAfter(timestamp, readings).value > timestamp
  {
    if readings != [] && readings[0] <= timestamp {
      FirstAfterIs(timestamp, readings[1..]);
    }
  }

  /** There is no later reading exactly when all are as early. */
  lemma {:induction false} NoneAfterIff(timestamp: int, readings: seq<int>)
    ensures FirstAfter(timestamp, readings).None? <==> forall r :: r in readings ==> r <= timestamp
  {
    if readings != [] {
      NoneAfterIff(timestamp, readings[1..]);
      assert readings[0] in readings;
      assert forall r :: r in readings <==> r == readings[0] || r in readings[1..];
    }
  }

  lemma WaitingIs(timestamp: int, readings: seq<int>)
    requires readings != []
    ensures
      var later := FirstAfter(timestamp, readings[1..]);
      && (later.Some? ==> later.value in readings && later.value > timestamp)
      && (readings[0] <= timestamp ==> (later.None? <==> forall r :: r in readings ==> r <= timestamp))
  {
    FirstAfterIs(timestamp, readings[1..]);
    NoneAfterIff(timestamp, readings[1..]);
    assert forall r :: r in readings <==> r == readings[0] || r in readings[1..];
  }

  lemma StepIsNext(step: int)
    requires 0 <= step <= STEP_MAX
    ensures And(step + 1, STEP_MAX) == NextStep(step)
  {
    Constants();
    MaskWord(step + 1, STEP_MAX, 12);
    if step < STEP_MAX {
      RemainderIs(step + 1, 4096, 0, step + 1);
    } else {
      RemainderIs(step + 1, 4096, 1, 0);
    }
  }

  /** The clock shows the same millisecond throughout. */
  predicate AllRead(calls: seq<seq<int>>, now: int) {
    forall i :: 0 <= i < |calls| ==> calls[i] == [now]
  }

  lemma {:induction false} StepsGoOn(now: int, node: int, step: int, calls: seq<seq<int>>, i: nat)
    requires 0 <= step <= 4095 && AllRead(calls, now)
    ensures
      var clocks := Clocks(Clock(now, node, step), calls);
      && |clocks| == (if |calls| < 4095 - step then |calls| else 4095 - step)
      && (i < |clocks| ==> clocks[i] == Clock(now, node, step + 1 + i))
    decreases calls
  {
    if calls != [] && step < 4095 {
      assert calls[0] == [now] && AllRead(calls[1..], now);
      StepsGoOn(now, node, step + 1, calls[1..], if i > 0 then i - 1 else 0);
    }
  }

  /**
   In a new millisecond the calls return one after the other, with steps from 0 up, and there are 4096 of them: the
   next one waits for another millisecond.
   */
  lemma MillisecondHolds4096(c: Clock, now: int, calls: seq<seq<int>>, i: nat)
    requires now > c.timestamp && AllRead(calls, now)
    ensures
      var clocks := Clocks(c, calls);
      && |clocks| == (if |calls| < 4096 then |calls| else 4096)
      && (i < |clocks| ==> clocks[i] == Clock(now, c.node, i))
  {
    if calls != [] {
      assert calls[0] == [now] && AllRead(calls[1..], now);
      StepsGoOn(now, c.node, 0, calls[1..], if i > 0 then i - 1 else 0);
    }
  }

  /** The later of two moments of one node. */
  predicate IsBefore(c: Clock, d: Clock) {
    c.node == d.node && (c.timestamp < d.timestamp || (c.timestamp == d.timestamp && c.step < d.step))
  }

  predicate IsClockUpTo(c: Clock, limit: int) {
    IsClock(c) && c.timestamp <= limit
  }

  /** One call moves time and step forward. */
  lemma NextMovesOn(c: Clock, readings: seq<int>, limit: int)
    requires IsClockUpTo(c, limit) && readings != [] && Next(c, readings).Some?
    requires forall j :: 0 <= j < |readings| ==> readings[j] <= limit
    ensures IsClockUpTo(Next(c, readings).value, limit) && IsBefore(c, Next(c, readings).value)
  {
    FirstAfterIs(c.timestamp, readings[1..]);
  }

  ghost predicate AllAfter(c: Clock, clocks: seq<Clock>, limit: int) {
    forall i :: 0 <= i < |clocks| ==> IsClockUpTo(clocks[i], limit) && IsBefore(c, clocks[i])
  }

  ghost predicate InOrder(clocks: seq<Clock>) {
    forall i, j :: 0 <= i < j < |clocks| ==> IsBefore(clocks[i], clocks[j])
  }

  /** All moments of a run come one after the other. */
  lemma {:induction false} ClocksMoveOn(c: Clock, calls: seq<seq<int>>, limit: int)
    requires IsClockUpTo(c, limit) && ReadsBelow(calls, limit)
    ensures AllAfter(c, Clocks(c, calls), limit) && InOrder(Clocks(c, calls))
    decreases calls
  {
    if calls != [] && calls[0] != [] && Next(c, calls[0]).Some? {
      var next := Next(c, calls[0]).value;
      NextMovesOn(c, calls[0], limit);
      assert forall i :: 0 <= i < |calls| - 1 ==> calls[1..][i] == calls[i + 1];
      ClocksMoveOn(next, calls[1..], limit);
      OneMoreInFront(c, next, Clocks(next, calls[1..]), limit);
    }
  }

  lemma OneMoreInFront(c: Clock, next: Clock, rest: seq<Clock>, limit: int)
    requires IsClockUpTo(next, limit) && IsBefore(c, next) && AllAfter(next, rest, limit) && InOrder(rest)
    ensures AllAfter(c, [next] + rest, limit) && InOrder([next] + rest)
  {
    var all := [next] + rest;
    forall i | 0 <= i < |all| ensures IsClockUpTo(all[i], limit) && IsBefore(c, all[i]) {
      assert i > 0 ==> all[i] == rest[i - 1];
    }
  }

  /** A later moment gives a larger id, as long as the time fits. */
  lemma LaterIsLarger(c: Clock, d: Clock)
    requires IsClock(c) && IsClock(d) && TimeFits(c.timestamp) && TimeFits(d.timestamp) && IsBefore(c, d)
    ensures IdOf(c) < IdOf(d)
  {
    TimePartIs(c.timestamp);
    TimePartIs(d.timestamp);
  }

  lemma {:induction false} IdsAre(clocks: seq<Clock>, i: nat)
    ensures |IdsOf(clocks)| == |clocks|
    ensures i < |clocks| ==> IdsOf(clocks)[i] == IdOf(clocks[i])
  {
    if clocks != [] {
      IdsAre(clocks[1..], if i > 0 then i - 1 else 0);
    }
  }

  lemma IdsIncrease(c: Clock, calls: seq<seq<int>>, limit: int)
    requires IsClockUpTo(c, limit) && limit < EPOCH + TIME_LIMIT && ReadsBelow(calls, limit)
    ensures IsIncreasing(Ids(c, calls))
  {
    var clocks, ids := Clocks(c, calls), Ids(c, calls);
    ClocksMoveOn(c, calls, limit);
    IdsAre(clocks, 0);
    forall i, j | 0 <= i < j < |ids| ensures ids[i] < ids[j] {
      IdsAre(clocks, i);
      IdsAre(clocks, j);
      assert IsClockUpTo(clocks[i], limit) && IsClockUpTo(clocks[j], limit);
      LaterIsLarger(clocks[i], clocks[j]);
    }
  }

  /** Whatever the clock reads up to a limit, a new node's ids always increase. */
  ghost predicate AlwaysIncreases(limit: int) {
    forall node, calls ::
      0 <= node <= NODE_MAX && ReadsBelow(calls, limit) ==> IsIncreasing(Ids(Clock(0, node, 0), calls))
  }

  /** Two calls, the first in the last millisecond that fits, the second one millisecond later. */
  lemma WrappedIdIsSmaller(node: int)
    requires 0 <= node <= NODE_MAX
    ensures !IsIncreasing(Ids(Clock(0, node, 0), [[EPOCH + TIME_LIMIT - 1], [EPOCH + TIME_LIMIT]]))
  {
    var last := EPOCH + TIME_LIMIT - 1;
    var calls, first := [[last], [last + 1]], Clock(0, node, 0);
    var c, d := Clock(last, node, 0), Clock(last + 1, node, 0);
    assert calls[1..] == [[last + 1]] && [[last + 1]][1..] == [];
    assert Clocks(c, [[last + 1]]) == [d] + Clocks(d, []);
    assert Clocks(first, calls) == [c, d];
    IdsAre([c, d], 0);
    IdsAre([c, d], 1);
    WrapsToNegative(node);
  }

  lemma WrapsToNegative(node: int)
    requires 0 <= node <= NODE_MAX
    ensures IdOf(Clock(EPOCH + TIME_LIMIT, node, 0)) < 0 <= IdOf(Clock(EPOCH + TIME_LIMIT - 1, node, 0))
  {
    TimePartIs(EPOCH + TIME_LIMIT - 1);
    RemainderIs(TIME_LIMIT + HALF, WORD, 0, TIME_LIMIT + HALF);
    RemainderIs(2 * TIME_LIMIT, 2 * TIME_LIMIT, 1, 0);
  }

  /**
   Over every sequence of calls and clock readings, backward jumps and exhausted steps included, ids of one node
   increase strictly, exactly as long as no reading is 2^41 milliseconds past the epoch or later.
   */
  lemma IdsAlwaysIncreaseIff(limit: int)
    ensures AlwaysIncreases(limit) <==> limit < EPOCH + TIME_LIMIT
  {
    if limit < EPOCH + TIME_LIMIT {
      forall node, calls | 0 <= node <= NODE_MAX && ReadsBelow(calls, limit)
        ensures IsIncreasing(Ids(Clock(0, node, 0), calls))
      {
        IdsIncrease(Clock(0, node, 0), calls, if limit < 0 then 0 else limit);
      }
    } else {
      var calls := [[EPOCH + TIME_LIMIT - 1], [EPOCH + TIME_LIMIT]];
      WrappedIdIsSmaller(0);
      assert ReadsBelow(calls, limit);
      assert !IsIncreasing(Ids(Clock(0, 0, 0), calls));
    }
  }
}
