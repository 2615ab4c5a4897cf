/** One-way pacing: after a free prefix and a burst, writes are spaced so that the
    average rate since pacing started stays below the limit. */
module RelayPacing {
  import opened Bytes

  const U64_MAX := 0xFFFF_FFFF_FFFF_FFFF
  const BUF_SIZE := 16 * 1024
  const NANOS := 1_000_000_000

  datatype Limit = Limit(afterBytes: nat, bytesPerSecond: nat, burstBytes: nat)

  /** One turn of the loop: bytes read, nanoseconds until they are written, and
      nanoseconds by which the sleep that follows overshoots. */
  datatype Turn = Turn(n: nat, writing: nat, late: nat)

  /** The state just after a write: all bytes so far, the time, and when pacing
      started. */
  datatype Point = Point(total: nat, now: nat, started: Option<nat>)

  function SaturatingAdd(a: nat, b: nat): nat {
    Min(a + b, U64_MAX)
  }

  function SaturatingSub(a: nat, b: nat): nat {
    if a >= b then a - b else 0
  }

  /** Bytes that count against the rate. */
  function Excess(limit: Limit, total: nat): nat {
    SaturatingSub(SaturatingSub(total, limit.afterBytes), limit.burstBytes)
  }

  /** The delay those bytes deserve, before it is clamped. */
  function Nanos(limit: Limit, total: nat): nat
    requires limit.bytesPerSecond > 0
  {
    Excess(limit, total) * NANOS / limit.bytesPerSecond
  }

  /** Neither the byte counter nor the delay has met its 64-bit ceiling. */
  predicate Unclamped(limit: Limit, total: nat)
    requires limit.bytesPerSecond > 0
  {
    total <= U64_MAX && Nanos(limit, total) <= U64_MAX
  }

  function Elapsed(p: Point): nat {
    if p.started.Some? then SaturatingSub(p.now, p.started.value) else 0
  }

  /** All bytes so far against prefix, burst, one buffer, and the rate over the
      time since pacing started plus one nanosecond. */
  predicate WithinRate(limit: Limit, p: Point) {
    p.total * NANOS <= (limit.afterBytes + limit.burstBytes + BUF_SIZE) * NANOS
                       + limit.bytesPerSecond * (Elapsed(p) + 1)
  }

  lemma MulMono(a: nat, b: nat, c: nat)
    requires a <= b
    ensures a * c <= b * c
  {
  }

  lemma DivMono(a: nat, b: nat, d: nat)
    requires a <= b && d > 0
    ensures a / d <= b / d
  {
    assert a == a / d * d + a % d && b == b / d * d + b % d;
    if a / d > b / d {
      MulMono(b / d + 1, a / d, d);
    }
  }

  lemma NanosMono(limit: Limit, a: nat, b: nat)
    requires a <= b && limit.bytesPerSecond > 0
    ensures Nanos(limit, a) <= Nanos(limit, b)
  {
    MulMono(Excess(limit, a), Excess(limit, b), NANOS);
    DivMono(Excess(limit, a) * NANOS, Excess(limit, b) * NANOS, limit.bytesPerSecond);
  }

  /** Waiting out the delay of the bytes sent so far pays for them. */
  lemma DelayPays(limit: Limit, total: nat, elapsed: nat)
    requires limit.bytesPerSecond > 0 && elapsed >= Nanos(limit, total)
    ensures Excess(limit, total) * NANOS <= limit.bytesPerSecond * (elapsed + 1)
  {
    var x := Excess(limit, total) * NANOS;
    var r := limit.bytesPerSecond;
    assert x == x / r * r + x % r;
    MulMono(x / r + 1, elapsed + 1, r);
  }

  lemma AddStep(limit: Limit, total: nat, n: nat, elapsed: nat)
    requires n <= BUF_SIZE && limit.bytesPerSecond > 0
    requires Excess(limit, total) * NANOS <= limit.bytesPerSecond * (elapsed + 1)
    ensures (total + n) * NANOS
         <= (limit.afterBytes + limit.burstBytes + BUF_SIZE) * NANOS + limit.bytesPerSecond * (elapsed + 1)
  {
    assert total <= limit.afterBytes + limit.burstBytes + Excess(limit, total);
  }

  /** What the loop knows when it goes back to reading. */
  ghost predicate Paid(limit: Limit, total: nat, paced: nat, now: nat, started: Option<nat>)
    requires limit.bytesPerSecond > 0
  {
    && paced == Min(total, U64_MAX)
    && (started.Some? ==> started.value <= now)
    && (Unclamped(limit, total) && Excess(limit, total) > 0 ==>
          started.Some? && now >= started.value + Nanos(limit, total))
  }

  lemma PaidWrite(limit: Limit, total: nat, paced: nat, now: nat, started: Option<nat>, n: nat, later: nat)
    requires limit.bytesPerSecond > 0 && n <= BUF_SIZE && now <= later
    requires Paid(limit, total, paced, now, started) && Unclamped(limit, total + n)
    ensures WithinRate(limit, Point(total + n, later, started))
  {
    NanosMono(limit, total, total + n);
    var elapsed := Elapsed(Point(total + n, later, started));
    if Excess(limit, total) > 0 {
      DelayPays(limit, total, elapsed);
    }
    assert 0 <= limit.bytesPerSecond * (elapsed + 1);
    AddStep(limit, total, n, elapsed);
  }

  /** Sleeping until the deadline pays for everything written so far. */
  lemma PaidSleep(limit: Limit, total: nat, paced: nat, now: nat, started: nat)
    requires limit.bytesPerSecond > 0 && started <= now
    requires paced == Min(total, U64_MAX)
    requires now >= started + Min(Nanos(limit, paced), U64_MAX)
    ensures Paid(limit, total, paced, now, Some(started))
  {
  }

  // ------------------------------------------------------------------- the loop

  /** A write after which the loop sleeps. */
  predicate Due(limit: Limit, p: Point) {
    limit.bytesPerSecond > 0 && Excess(limit, Min(p.total, U64_MAX)) > 0
  }

  /** When pacing started, once the write has been accounted for. */
  function StartAfter(limit: Limit, p: Point): Option<nat> {
    if Due(limit, p) && p.started.None? then Some(p.now) else p.started
  }

  /** When the loop goes back to reading. */
  function Resume(limit: Limit, p: Point, late: nat): nat {
    if Due(limit, p) then
      var until := StartAfter(limit, p).value + Min(Nanos(limit, Min(p.total, U64_MAX)), U64_MAX);
      (if p.now >= until then p.now else until) + late
    else
      p.now
  }

  /** The state just after the `i`-th write. */
  function PointAt(limit: Limit, turns: seq<Turn>, i: nat): Point
    requires i < |turns|
  {
    if i == 0 then
      Point(turns[0].n, turns[0].writing, None)
    else
      var p := PointAt(limit, turns, i - 1);
      Point(p.total + turns[i].n, Resume(limit, p, turns[i - 1].late) + turns[i].writing, StartAfter(limit, p))
  }

  lemma PaidAfter(limit: Limit, p: Point, late: nat)
    requires limit.bytesPerSecond > 0 && (p.started.Some? ==> p.started.value <= p.now)
    ensures Paid(limit, p.total, Min(p.total, U64_MAX), Resume(limit, p, late), StartAfter(limit, p))
  {
    if Due(limit, p) {
      PaidSleep(limit, p.total, Min(p.total, U64_MAX), Resume(limit, p, late), StartAfter(limit, p).value);
    }
  }

  /** The pacing bound: after every write, for all read sizes, writing times and
      sleeps, the total is within prefix, burst, rate and one buffer, as long as
      the 64-bit ceilings have not been met. */
  lemma {:induction false} PacingBound(limit: Limit, turns: seq<Turn>, i: nat)
    requires limit.bytesPerSecond > 0 && i < |turns|
    requires forall j :: 0 <= j < |turns| ==> turns[j].n <= BUF_SIZE
    ensures var p := PointAt(limit, turns, i);
            && (p.started.Some? ==> p.started.value <= p.now)
            && (Unclamped(limit, p.total) ==> WithinRate(limit, p))
    decreases i
  {
    var p := PointAt(limit, turns, i);
    if i == 0 {
      AddStep(limit, 0, p.total, 0);
    } else {
      var q := PointAt(limit, turns, i - 1);
      PacingBound(limit, turns, i - 1);
      PaidAfter(limit, q, turns[i - 1].late);
      if Unclamped(limit, p.total) {
        PaidWrite(limit, q.total, Min(q.total, U64_MAX), Resume(limit, q, turns[i - 1].late), StartAfter(limit, q),
                  turns[i].n, p.now);
      }
    }
  }

  /** The bytes that count are those beyond the free prefix and the burst. */
  lemma ExcessIs(limit: Limit, total: nat)
    ensures var free := limit.afterBytes + limit.burstBytes;
            Excess(limit, total) == if total <= free then 0 else total - free
  {
  }

  lemma QuotientPays(x: nat, r: nat)
    requires r > 0
    ensures x / r * r <= x < (x / r + 1) * r
  {
    assert x == x / r * r + x % r;
  }

  /** No sleep is too early or too long.  After a write within the free prefix and the
      burst the loop goes on at once.  After any other it sleeps, if at all, until a
      moment at which the limit has not yet allowed more than what was written, counted
      from the first such write. */
  lemma SleepsNoLonger(limit: Limit, turns: seq<Turn>, i: nat)
    requires limit.bytesPerSecond > 0 && i + 1 < |turns|
    ensures var p, q := PointAt(limit, turns, i), PointAt(limit, turns, i + 1);
            var free := limit.afterBytes + limit.burstBytes;
            var slept := q.now - turns[i + 1].writing - p.now;
            && (Min(p.total, U64_MAX) <= free ==> slept == 0 && q.started == p.started)
            && (Min(p.total, U64_MAX) > free ==>
                  && q.started == Some(if p.started.Some? then p.started.value else p.now)
                  && slept >= turns[i].late
                  && (slept > turns[i].late && p.total <= U64_MAX ==>
                        (p.now + slept - turns[i].late - q.started.value) * limit.bytesPerSecond
                        <= (p.total - free) * NANOS))
  {
    var p := PointAt(limit, turns, i);
    ExcessIs(limit, Min(p.total, U64_MAX));
    if Due(limit, p) {
      var nanos := Nanos(limit, Min(p.total, U64_MAX));
      QuotientPays(Excess(limit, Min(p.total, U64_MAX)) * NANOS, limit.bytesPerSecond);
      MulMono(Min(nanos, U64_MAX), nanos, limit.bytesPerSecond);
    }
  }

  /** The accounting and the sleep after one write. */
  method Pace(limit: Limit, p: Point, before: nat, n: nat, late: nat)
    returns (pacedBytes: nat, paceStarted: Option<nat>, now: nat)
    requires limit.bytesPerSecond > 0 && n <= p.total && before == Min(p.total - n, U64_MAX)
    ensures pacedBytes == Min(p.total, U64_MAX)
    ensures paceStarted == StartAfter(limit, p) && now == Resume(limit, p, late)
  {
    paceStarted, now := p.started, p.now;
    pacedBytes := SaturatingAdd(before, n);
    var delayedBytes := SaturatingSub(SaturatingSub(pacedBytes, limit.afterBytes), limit.burstBytes);
    if delayedBytes > 0 {
      if paceStarted.None? {
        paceStarted := Some(now);
      }
      var delay := Min(delayedBytes * NANOS / limit.bytesPerSecond, U64_MAX);
      var until := paceStarted.value + delay;
      now := (if now >= until then now else until) + late;
    }
  }

  /** The rest of the `i`-th turn, after its write. */
  method EndTurn(limit: Limit, turns: seq<Turn>, i: nat, p: Point, before: nat)
    returns (pacedBytes: nat, paceStarted: Option<nat>, now: nat)
    requires i < |turns| && p == PointAt(limit, turns, i) && turns[i].n <= p.total
    requires limit.bytesPerSecond > 0 ==> before == Min(p.total - turns[i].n, U64_MAX)
    ensures limit.bytesPerSecond > 0 ==> pacedBytes == Min(p.total, U64_MAX)
    ensures i + 1 < |turns| ==>
              PointAt(limit, turns, i + 1)
              == Point(p.total + turns[i + 1].n, now + turns[i + 1].writing, paceStarted)
  {
    if limit.bytesPerSecond > 0 {
      pacedBytes, paceStarted, now := Pace(limit, p, before, turns[i].n, turns[i].late);
    } else {
      pacedBytes, paceStarted, now := before, p.started, p.now;
    }
  }

  /** The states after the first writes. */
  ghost predicate Recorded(limit: Limit, turns: seq<Turn>, points: seq<Point>) {
    |points| <= |turns| && forall i :: 0 <= i < |points| ==> points[i] == PointAt(limit, turns, i)
  }

  lemma RecordOne(limit: Limit, turns: seq<Turn>, points: seq<Point>, p: Point)
    requires Recorded(limit, turns, points) && |points| < |turns| && p == PointAt(limit, turns, |points|)
    ensures Recorded(limit, turns, points + [p])
  {
    var more := points + [p];
    forall i | 0 <= i < |more|
      ensures more[i] == PointAt(limit, turns, i)
    {
      assert i < |points| ==> more[i] == points[i];
    }
  }

  /** The paced copy loop passes through these states. */
  method CopyPaced(limit: Limit, turns: seq<Turn>) returns (points: seq<Point>)
    ensures |points| == |turns| && Recorded(limit, turns, points)
  {
    points := [];
    var now: nat := 0;
    var paceStarted: Option<nat> := None;
    var pacedBytes: nat := 0;
    var total: nat := 0;
    for i := 0 to |turns|
      invariant |points| == i && Recorded(limit, turns, points)
      invariant limit.bytesPerSecond > 0 ==> pacedBytes == Min(total, U64_MAX)
      invariant i < |turns| ==>
                  PointAt(limit, turns, i) == Point(total + turns[i].n, now + turns[i].writing, paceStarted)
    {
      total := total + turns[i].n;
      var p := Point(total, now + turns[i].writing, paceStarted);
      RecordOne(limit, turns, points, p);
      points := points + [p];
      pacedBytes, paceStarted, now := EndTurn(limit, turns, i, p, pacedBytes);
    }
  }
}
