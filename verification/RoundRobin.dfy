/** Round-robin selection from a shared ticket counter that wraps. */
module RoundRobin {
  import opened Bytes

  /** Tickets are taken modulo the size of the counter. */
  const WRAP := 0x1_0000_0000_0000_0000

  function AliveCount(alive: seq<bool>): nat {
    if alive == [] then 0 else AliveCount(alive[..|alive| - 1]) + if alive[|alive| - 1] then 1 else 0
  }

  /** How many alive members come before this one. */
  function Rank(alive: seq<bool>, i: nat): nat
    requires i <= |alive|
  {
    AliveCount(alive[..i])
  }

  lemma RankStep(alive: seq<bool>, i: nat)
    requires i < |alive|
    ensures Rank(alive, i + 1) == Rank(alive, i) + if alive[i] then 1 else 0
  {
    assert alive[..i + 1][..i] == alive[..i];
  }

  lemma {:induction false} RankMonotone(alive: seq<bool>, i: nat, j: nat)
    requires i <= j <= |alive|
    ensures Rank(alive, i) <= Rank(alive, j)
    decreases j - i
  {
    if i < j {
      RankStep(alive, i);
      RankMonotone(alive, i + 1, j);
    }
  }

  /** Alive members have different ranks. */
  lemma RankInjective(alive: seq<bool>, i: nat, j: nat)
    requires i < |alive| && j < |alive| && alive[i] && alive[j] && Rank(alive, i) == Rank(alive, j)
    ensures i == j
  {
    if i < j {
      RankStep(alive, i);
      RankMonotone(alive, i + 1, j);
    } else if j < i {
      RankStep(alive, j);
      RankMonotone(alive, j + 1, i);
    }
  }

  /** nth_alive_index: the alive member with `n` alive members before it. */
  method NthAliveIndex(alive: seq<bool>, n: nat) returns (found: Option<nat>)
    ensures found.Some? ==> found.value < |alive| && alive[found.value] && Rank(alive, found.value) == n
    ensures found.None? <==> AliveCount(alive) <= n
  {
    var idx := 0;
    assert alive[..|alive|] == alive;
    for i := 0 to |alive|
      invariant idx == Rank(alive, i) <= n
    {
      RankStep(alive, i);
      if alive[i] {
        if idx == n {
          RankMonotone(alive, i + 1, |alive|);
          return Some(i);
        }
        idx := idx + 1;
      }
    }
    return None;
  }

  /** The slot a ticket picks among `n` alive members. */
  function Slot(ticket: nat, n: nat): nat
    requires n >= 1
  {
    ticket % WRAP % n
  }

  /** The balancer's ticket counter. */
  class Tickets {
    var counter: nat

    /** pick_member_index for RoundRobin: the next ticket names a slot, and the
        slot an alive member; with none alive, the first member. */
    method Pick(alive: seq<bool>) returns (picked: Option<nat>)
      requires counter < WRAP
      modifies this
      ensures counter < WRAP
      ensures AliveCount(alive) == 0 ==>
                counter == old(counter) && picked == (if alive == [] then None else Some(0))
      ensures AliveCount(alive) > 0 ==>
                && counter == (old(counter) + 1) % WRAP
                && picked.Some? && picked.value < |alive| && alive[picked.value]
                && Rank(alive, picked.value) == Slot(old(counter), AliveCount(alive))
    {
      var n := Count(alive);
      if n == 0 {
        return if alive == [] then None else Some(0);
      }
      var slot := counter % n;
      assert counter % WRAP == counter;
      counter := (counter + 1) % WRAP;
      picked := NthAliveIndex(alive, slot);
    }

    method Count(alive: seq<bool>) returns (n: nat)
      ensures n == AliveCount(alive)
    {
      n := 0;
      assert alive[..|alive|] == alive;
      for i := 0 to |alive|
        invariant n == Rank(alive, i)
      {
        RankStep(alive, i);
        if alive[i] {
          n := n + 1;
        }
      }
    }
  }

  // ------------------------------------------------------------------ arithmetic

  lemma AtLeastOnce(q: int, n: int)
    requires q >= 1 && n >= 1
    ensures q * n >= n
  {
    assert (q - 1) * n >= 0;
  }

  lemma SmallMultiple(q: int, n: int)
    requires n >= 1 && -n < q * n < n
    ensures q == 0
  {
    var minus := -q;
    assert minus * n == -(q * n);
    if q >= 1 {
      AtLeastOnce(q, n);
    } else if q <= -1 {
      AtLeastOnce(minus, n);
    }
  }

  lemma ModUnique(a: int, q: int, n: int, r: nat)
    requires n >= 1 && a == q * n + r && r < n
    ensures a % n == r
  {
    var d := a / n - q;
    assert a == a / n * n + a % n;
    assert d * n == r - a % n;
    SmallMultiple(d, n);
  }

  lemma SameResidue(a: nat, b: nat, n: int)
    requires n >= 1 && a % n == b % n && -n < a - b < n
    ensures a == b
  {
    assert a == a / n * n + a % n && b == b / n * n + b % n;
    var d := a / n - b / n;
    assert d * n == a - b;
    SmallMultiple(d, n);
  }

  /** Going forward by `(r - a) mod n` reaches residue `r`. */
  lemma Reach(a: nat, r: nat, n: nat) returns (k: nat)
    requires n >= 1 && r < n
    ensures k < n && (a + k) % n == r
  {
    k := (r - a) % n;
    var q := (r - a) / n;
    assert r - a == q * n + k;
    assert a + k == (-q) * n + r by {
      assert (-q) * n == -(q * n);
    }
    ModUnique(a + k, -q, n, r);
  }

  // -------------------------------------------------------------------- fairness

  /** The slot of the `k`-th ticket from `t` on. */
  function SlotAt(t: nat, k: nat, n: nat): nat
    requires n >= 1
  {
    Slot(t + k, n)
  }

  ghost predicate Named(t: nat, n: nat, slot: nat)
    requires n >= 1
  {
    exists k :: 0 <= k < n && SlotAt(t, k, n) == slot
  }

  /** The `n` tickets from `t` on name every slot exactly once. */
  ghost predicate Fair(t: nat, n: nat)
    requires n >= 1
  {
    && (forall s :: 0 <= s < n ==> Named(t, n, s))
    && (forall j, k :: 0 <= j < k < n ==> SlotAt(t, j, n) != SlotAt(t, k, n))
  }

  lemma SlotBeforeWrap(x: nat, n: nat)
    requires n >= 1 && x < WRAP
    ensures Slot(x, n) == x % n
  {
  }

  lemma SlotAfterWrap(x: nat, n: nat)
    requires n >= 1 && WRAP <= x < 2 * WRAP
    ensures Slot(x, n) == (x - WRAP) % n
  {
    ModUnique(x, 1, WRAP, x - WRAP);
  }

  /** The tickets' slots are what they would be with an unbounded counter. */
  ghost predicate Plain(t: nat, n: nat)
    requires n >= 1
  {
    forall k :: 0 <= k < n ==> SlotAt(t, k, n) == (t + k) % n
  }

  lemma PlainNames(t: nat, n: nat, s: nat)
    requires s < n && Plain(t, n)
    ensures Named(t, n, s)
  {
    var k := Reach(t, s, n);
    assert SlotAt(t, k, n) == s;
  }

  lemma PlainDiffers(t: nat, n: nat, j: nat, k: nat)
    requires j < k < n && Plain(t, n)
    ensures SlotAt(t, j, n) != SlotAt(t, k, n)
  {
    assert SlotAt(t, j, n) == (t + j) % n && SlotAt(t, k, n) == (t + k) % n;
    if (t + j) % n == (t + k) % n {
      SameResidue(t + j, t + k, n);
    }
  }

  lemma PlainIsFair(t: nat, n: nat)
    requires n >= 1 && Plain(t, n)
    ensures Fair(t, n)
  {
    forall s | 0 <= s < n
      ensures Named(t, n, s)
    {
      PlainNames(t, n, s);
    }
    forall j, k | 0 <= j < k < n
      ensures SlotAt(t, j, n) != SlotAt(t, k, n)
    {
      PlainDiffers(t, n, j, k);
    }
  }

  lemma FairBeforeWrap(t: nat, n: nat)
    requires n >= 1 && t + n <= WRAP
    ensures Fair(t, n)
  {
    forall k | 0 <= k < n
      ensures SlotAt(t, k, n) == (t + k) % n
    {
      SlotBeforeWrap(t + k, n);
    }
    PlainIsFair(t, n);
  }

  lemma AddMultiple(y: nat, q: nat, n: int)
    requires n >= 1
    ensures (y + q * n) % n == y % n
  {
    assert y == y / n * n + y % n;
    assert (y / n + q) * n == y / n * n + q * n;
    ModUnique(y + q * n, y / n + q, n, y % n);
  }

  /** Across the wrap, when the count divides the counter's size. */
  lemma FairAcrossWrap(t: nat, n: nat)
    requires 1 <= n <= WRAP && t < WRAP && WRAP % n == 0
    ensures Fair(t, n)
  {
    forall k | 0 <= k < n
      ensures SlotAt(t, k, n) == (t + k) % n
    {
      if t + k < WRAP {
        SlotBeforeWrap(t + k, n);
      } else {
        SlotAfterWrap(t + k, n);
        var q := WRAP / n;
        assert WRAP == q * n;
        AddMultiple(t + k - WRAP, q, n);
      }
    }
    PlainIsFair(t, n);
  }

  /** Across the wrap otherwise, some slot comes up twice: the tickets before the
      wrap end in slot `WRAP % n - 1`, and those after it start at 0. */
  lemma UnfairAcrossWrap(t: nat, n: nat)
    requires 1 <= n <= WRAP && t < WRAP < t + n && WRAP % n != 0
    ensures !Fair(t, n)
  {
    var r := WRAP % n;
    var after := t + n - WRAP;
    var back := if r <= after then 1 else r - after + 1;
    var twice := r - back;
    RepeatedSlot(WRAP - back, twice, n, r, back);
    var j, k := WRAP - back - t, WRAP + twice - t;
    assert SlotAt(t, j, n) == SlotAt(t, k, n);
  }

  lemma RepeatedSlot(x: nat, twice: nat, n: nat, r: nat, back: nat)
    requires 1 <= n <= WRAP && r == WRAP % n && 1 <= back <= r && twice == r - back && x == WRAP - back
    ensures Slot(x, n) == twice && Slot(WRAP + twice, n) == twice
  {
    var q := WRAP / n;
    assert WRAP == q * n + r;
    ModUnique(x, q, n, twice);
    SlotBeforeWrap(x, n);
    SlotAfterWrap(WRAP + twice, n);
    ModUnique(twice, 0, n, twice);
  }

  /** Round-robin fairness, exactly: `n` consecutive tickets pick each of the `n`
      alive slots once if and only if they do not cross a wrap of the counter, or
      `n` divides the counter's size. */
  lemma FairIff(t: nat, n: nat)
    requires 1 <= n <= WRAP && t < WRAP
    ensures Fair(t, n) <==> t + n <= WRAP || WRAP % n == 0
  {
    if t + n <= WRAP {
      FairBeforeWrap(t, n);
    } else if WRAP % n == 0 {
      FairAcrossWrap(t, n);
    } else {
      UnfairAcrossWrap(t, n);
    }
  }

  /** A ticket picks a member when its slot is the member's rank. */
  predicate Picks(alive: seq<bool>, t: nat, k: nat, i: nat)
    requires i < |alive| && AliveCount(alive) >= 1
  {
    alive[i] && SlotAt(t, k, AliveCount(alive)) == Rank(alive, i)
  }

  /** In terms of members: with a fixed set of alive members, each of them is the
      pick of exactly one of those tickets, and no ticket picks two. */
  lemma EachMemberOnce(alive: seq<bool>, t: nat, i: nat)
    requires i < |alive| && alive[i] && AliveCount(alive) >= 1 && Fair(t, AliveCount(alive))
    ensures exists k :: 0 <= k < AliveCount(alive) && Picks(alive, t, k, i)
    ensures forall j, k :: 0 <= j < k < AliveCount(alive) && Picks(alive, t, j, i) ==> !Picks(alive, t, k, i)
    ensures forall j, k :: 0 <= j < |alive| && 0 <= k && Picks(alive, t, k, i) && Picks(alive, t, k, j) ==> j == i
  {
    RankStep(alive, i);
    RankMonotone(alive, i + 1, |alive|);
    assert alive[..|alive|] == alive;
    var n := AliveCount(alive);
    assert Named(t, n, Rank(alive, i));
    var at :| 0 <= at < n && SlotAt(t, at, n) == Rank(alive, i);
    assert Picks(alive, t, at, i);
    forall j, k | 0 <= j < |alive| && 0 <= k && Picks(alive, t, k, i) && Picks(alive, t, k, j)
      ensures j == i
    {
      RankInjective(alive, i, j);
    }
  }
}
