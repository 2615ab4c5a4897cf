/** The relay's growable cursor buffer, and the bounded FIFO it stands for. */
module RelayBuffer {
  import opened Bytes

  function Max(a: nat, b: nat): nat {
    if a >= b then a else b
  }

  /** Stored bytes, read cursor, allocated capacity, capacity limit. */
  datatype Ring = Ring(buf: seq<Byte>, start: nat, cap: nat, max: nat) {
    predicate Valid() {
      start <= |buf| <= cap && cap >= 1 && max >= 1
    }

    function Contents(): seq<Byte>
      requires Valid()
    {
      buf[start..]
    }

    function Len(): nat
      requires Valid()
    {
      |buf| - start
    }

    function Room(): nat
      requires Valid()
    {
      cap - Len()
    }

    function Compacted(): Ring
      requires Valid()
    {
      this.(buf := buf[start..], start := 0)
    }

    function Push(bytes: seq<Byte>): Ring
      requires Valid()
    {
      var n := Min(|bytes|, Room());
      var ready := if cap - |buf| < n then Compacted() else this;
      ready.(buf := ready.buf + bytes[..n])
    }

    function Eat(n: nat): Ring
      requires Valid()
    {
      var at := start + Min(n, Len());
      if at == |buf| then this.(buf := [], start := 0) else this.(start := at)
    }

    /** Growth asks for twice the capacity, up to the limit; the allocator may
        give `slack` more. */
    function Grown(slack: nat): Ring
      requires Valid()
    {
      if cap >= max then this else this.(cap := Max(Min(2 * cap, max), 1) + slack)
    }
  }

  /** Pushing appends what fits, and never outgrows the allocation. */
  lemma PushAppends(r: Ring, bytes: seq<Byte>)
    requires r.Valid()
    ensures var n := Min(|bytes|, r.Room());
            && r.Push(bytes).Valid()
            && r.Push(bytes).Contents() == r.Contents() + bytes[..n]
            && r.Push(bytes).cap == r.cap
            && r.Push(bytes).max == r.max
            && |r.Push(bytes).buf| <= r.cap
  {
    var n := Min(|bytes|, r.Room());
    assert (r.buf + bytes[..n])[r.start..] == r.buf[r.start..] + bytes[..n];
    assert (r.buf[r.start..] + bytes[..n])[0..] == r.buf[r.start..] + bytes[..n];
  }

  /** Consuming drops from the front. */
  lemma EatDrops(r: Ring, n: nat)
    requires r.Valid()
    ensures r.Eat(n).Valid() && r.Eat(n).cap == r.cap && r.Eat(n).max == r.max
    ensures r.Eat(n).Contents() == r.Contents()[Min(n, r.Len())..]
  {
  }

  /** Growing keeps the contents and only ever adds capacity. */
  lemma GrownKeeps(r: Ring, slack: nat)
    requires r.Valid()
    ensures r.Grown(slack).Valid() && r.Grown(slack).Contents() == r.Contents() && r.Grown(slack).max == r.max
    ensures r.cap < r.max ==> r.Grown(slack).cap > r.cap && r.Grown(slack).cap >= Min(2 * r.cap, r.max)
  {
  }

  // ------------------------------------------------------- refinement of a FIFO

  datatype Op = PushOp(bytes: seq<Byte>) | EatOp(n: nat) | GrowOp(slack: nat)

  /** What the caller sees of an operation. */
  datatype Reply = Pushed(n: nat) | Ate | Grew(ok: bool)

  /** A queue of bytes with a capacity. */
  datatype Fifo = Fifo(queue: seq<Byte>, cap: nat, max: nat)

  function RingStep(r: Ring, op: Op): (Ring, Reply)
    requires r.Valid()
  {
    match op
    case PushOp(bytes) => (r.Push(bytes), Pushed(Min(|bytes|, r.Room())))
    case EatOp(n) => (r.Eat(n), Ate)
    case GrowOp(slack) => (r.Grown(slack), Grew(r.cap < r.max))
  }

  function FifoStep(f: Fifo, op: Op): (Fifo, Reply)
    requires |f.queue| <= f.cap
  {
    match op
    case PushOp(bytes) =>
      var n := Min(|bytes|, f.cap - |f.queue|);
      (f.(queue := f.queue + bytes[..n]), Pushed(n))
    case EatOp(n) => (f.(queue := f.queue[Min(n, |f.queue|)..]), Ate)
    case GrowOp(slack) =>
      if f.cap < f.max then (f.(cap := Max(Min(2 * f.cap, f.max), 1) + slack), Grew(true)) else (f, Grew(false))
  }

  function AsFifo(r: Ring): Fifo
    requires r.Valid()
  {
    Fifo(r.Contents(), r.cap, r.max)
  }

  lemma StepRefines(r: Ring, op: Op)
    requires r.Valid()
    ensures RingStep(r, op).0.Valid()
    ensures FifoStep(AsFifo(r), op) == (AsFifo(RingStep(r, op).0), RingStep(r, op).1)
  {
    match op {
      case PushOp(bytes) => PushAppends(r, bytes);
      case EatOp(n) => EatDrops(r, n);
      case GrowOp(slack) => GrownKeeps(r, slack);
    }
  }

  ghost function RingReplies(r: Ring, ops: seq<Op>): seq<Reply>
    requires r.Valid()
    decreases |ops|
  {
    if ops == [] then
      []
    else
      StepRefines(r, ops[0]);
      [RingStep(r, ops[0]).1] + RingReplies(RingStep(r, ops[0]).0, ops[1..])
  }

  ghost function FifoReplies(f: Fifo, ops: seq<Op>): seq<Reply>
    requires |f.queue| <= f.cap
    decreases |ops|
  {
    if ops == [] then [] else [FifoStep(f, ops[0]).1] + FifoReplies(FifoStep(f, ops[0]).0, ops[1..])
  }

  ghost function RingAfter(r: Ring, ops: seq<Op>): Ring
    requires r.Valid()
    decreases |ops|
  {
    if ops == [] then
      r
    else
      StepRefines(r, ops[0]);
      RingAfter(RingStep(r, ops[0]).0, ops[1..])
  }

  ghost function FifoAfter(f: Fifo, ops: seq<Op>): Fifo
    requires |f.queue| <= f.cap
    decreases |ops|
  {
    if ops == [] then f else FifoAfter(FifoStep(f, ops[0]).0, ops[1..])
  }

  /** Every run of push, consume and grow is a run of the FIFO: same replies,
      same contents, same capacity. */
  lemma {:induction false} RingRefinesFifo(r: Ring, ops: seq<Op>)
    requires r.Valid()
    ensures RingReplies(r, ops) == FifoReplies(AsFifo(r), ops)
    ensures RingAfter(r, ops).Valid() && AsFifo(RingAfter(r, ops)) == FifoAfter(AsFifo(r), ops)
    decreases |ops|
  {
    if ops != [] {
      StepRefines(r, ops[0]);
      RingRefinesFifo(RingStep(r, ops[0]).0, ops[1..]);
    }
  }

  // ------------------------------------------------------------- bounded growth

  ghost function Grows(r: Ring, ops: seq<Op>): nat
    requires r.Valid()
    decreases |ops|
  {
    if ops == [] then
      0
    else
      StepRefines(r, ops[0]);
      var s := RingStep(r, ops[0]);
      (if s.1 == Grew(true) then 1 else 0) + Grows(s.0, ops[1..])
  }

  lemma DoubleUnder(p: nat, cap: nat, next: nat, max: nat)
    requires next >= 2 * cap && p * next < max
    ensures 2 * p * cap < max
  {
    assert p * (2 * cap) <= p * next;
  }

  lemma CapUnder(p: nat, next: nat, max: nat)
    requires p >= 1 && p * next < max
    ensures next < max
  {
    assert 1 * next <= p * next;
  }

  /** A buffer grows at most ceil(log2(max / initial)) times, on every run and
      whatever the allocator gives. */
  lemma {:induction false} GrowthBound(r: Ring, ops: seq<Op>)
    requires r.Valid()
    ensures Grows(r, ops) > 0 ==> Pow2(Grows(r, ops) - 1) * r.cap < r.max
    decreases |ops|
  {
    if ops != [] {
      StepRefines(r, ops[0]);
      var s := RingStep(r, ops[0]);
      GrowthBound(s.0, ops[1..]);
      var k := Grows(s.0, ops[1..]);
      match ops[0] {
        case PushOp(bytes) => PushAppends(r, bytes);
        case EatOp(n) => EatDrops(r, n);
        case GrowOp(slack) =>
          GrownKeeps(r, slack);
          if s.1 == Grew(true) {
            assert Pow2(0) == 1;
            if k > 0 {
              CapUnder(Pow2(k - 1), s.0.cap, r.max);
              DoubleUnder(Pow2(k - 1), r.cap, s.0.cap, r.max);
            }
          }
      }
    }
  }

  // ----------------------------------------------------------------- the object

  class RelayRingBuffer {
    var buf: seq<Byte>
    var start: nat
    var capacity: nat
    var maxCapacity: nat

    function View(): Ring
      reads this
    {
      Ring(buf, start, capacity, maxCapacity)
    }

    constructor (initialCapacity: nat, max: nat, slack: nat)
      ensures View() == Ring([], 0, Max(initialCapacity, 1) + slack, Max(max, Max(initialCapacity, 1)))
      ensures View().Valid()
    {
      var initial := Max(initialCapacity, 1);
      buf, start, capacity := [], 0, initial + slack;
      maxCapacity := Max(max, initial);
    }

    method Compact()
      requires View().Valid()
      modifies this`buf, this`start
      ensures View() == old(View()).Compacted() && View().Valid()
      ensures View().Contents() == old(View().Contents())
    {
      if start == 0 {
        assert buf[0..] == buf;
        return;
      }
      buf := buf[start..];
      start := 0;
      assert buf[0..] == buf;
    }

    method PushSlice(bytes: seq<Byte>) returns (n: nat)
      requires View().Valid()
      modifies this`buf, this`start
      ensures View() == old(View()).Push(bytes) && View().Valid()
      ensures n == Min(|bytes|, old(View().Room()))
      ensures View().Contents() == old(View().Contents()) + bytes[..n]
    {
      PushAppends(View(), bytes);
      n := Min(|bytes|, capacity - (|buf| - start));
      if n == 0 {
        assert buf + [] == buf;
        return;
      }
      if capacity - |buf| < n {
        Compact();
      }
      assert |buf| + n <= capacity;
      buf := buf + bytes[..n];
    }

    method Consume(n: nat)
      requires View().Valid()
      modifies this`buf, this`start
      ensures View() == old(View()).Eat(n) && View().Valid()
      ensures View().Contents() == old(View().Contents())[Min(n, old(View().Len()))..]
    {
      EatDrops(View(), n);
      start := start + Min(n, |buf| - start);
      if start == |buf| {
        buf, start := [], 0;
      }
    }

    method Grow(slack: nat) returns (grew: bool)
      requires View().Valid()
      modifies this`capacity
      ensures View() == old(View()).Grown(slack) && View().Valid()
      ensures grew <==> old(capacity < maxCapacity)
    {
      GrownKeeps(View(), slack);
      if capacity >= maxCapacity {
        return false;
      }
      var next := Max(Min(2 * capacity, maxCapacity), 1);
      capacity := next + slack;
      grew := true;
    }
  }
}
