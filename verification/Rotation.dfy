/** The round robin over the secondary register groups: one group a tick, on a counter that wraps. */
module Rotation {

  type Int32 = x: int | -0x8000_0000 <= x < 0x8000_0000

  const GROUPS := ["now_grid", "now_inverter", "now_backup", "now_battery", "now_pv"]

  /** The bit pattern of a signed number read as an unsigned one: uint32(v). */
  function Unsigned(v: Int32): (u: nat)
    ensures u < 0x1_0000_0000
  {
    if v < 0 then v + 0x1_0000_0000 else v
  }

  /** Addition on 32 bits: the largest number is followed by the smallest. */
  function Incremented(v: Int32): Int32 {
    if v == 0x7FFF_FFFF then -0x8000_0000 else v + 1
  }

  function SecondaryIndex(v: Int32): (i: nat)
    ensures i < |GROUPS|
  {
    Unsigned(v) % |GROUPS|
  }

  /** The counter at the n-th tick of a run. */
  function CounterAt(n: nat): Int32 {
    if n == 0 then 0 else Incremented(CounterAt(n - 1))
  }

  /** The group polled at the n-th tick. */
  function PolledAt(n: nat): (i: nat)
    ensures i < |GROUPS|
  {
    SecondaryIndex(CounterAt(n))
  }

  lemma {:induction false} CountsModulo(n: nat)
    ensures Unsigned(CounterAt(n)) == n % 0x1_0000_0000
  {
    if n > 0 {
      CountsModulo(n - 1);
      AddModulo(n - 1, 1);
    }
  }

  lemma AddModulo(n: nat, k: nat)
    requires k < 0x1_0000_0000
    ensures
      var u := n % 0x1_0000_0000 + k;
      (n + k) % 0x1_0000_0000 == if u < 0x1_0000_0000 then u else u - 0x1_0000_0000
  {
    var q := n / 0x1_0000_0000;
    assert n + k == q * 0x1_0000_0000 + (n % 0x1_0000_0000 + k);
  }

  /** One of the `count` ticks from n on polls group g. */
  ghost predicate PolledWithin(n: nat, count: nat, g: nat) {
    exists k :: n <= k < n + count && PolledAt(k) == g
  }

  lemma PolledByCount(n: nat)
    ensures PolledAt(n) == n % 0x1_0000_0000 % 5
  {
    CountsModulo(n);
  }

  /** No five consecutive ticks from n on contain the step from the largest counter to zero. */
  predicate AwayFromWrap(n: nat) {
    n % 0x1_0000_0000 + 5 <= 0x1_0000_0000
  }

  lemma NextTicks(n: nat, k: nat)
    requires k < 6
    ensures
      var u := n % 0x1_0000_0000 + k;
      PolledAt(n + k) == (if u < 0x1_0000_0000 then u else u - 0x1_0000_0000) % 5
  {
    PolledByCount(n + k);
    AddModulo(n, k);
  }

  lemma FiveAwayFromWrap(n: nat, g: nat)
    requires AwayFromWrap(n) && g < |GROUPS|
    ensures PolledWithin(n, 5, g)
  {
    var u := n % 0x1_0000_0000;
    var r := u % 5;
    var k := if r <= g then g - r else g + 5 - r;
    NextTicks(n, k);
    assert (u + k) % 5 == g;
  }

  /** Across the wrap index 0 comes twice in a row, and this group is missed. */
  lemma FiveAcrossWrap(n: nat)
    requires !AwayFromWrap(n)
    ensures !PolledWithin(n, 5, 5 - (0x1_0000_0000 - n % 0x1_0000_0000))
  {
    var j := 0x1_0000_0000 - n % 0x1_0000_0000;
    forall k | n <= k < n + 5 ensures PolledAt(k) != 5 - j {
      NextTicks(n, k - n);
    }
  }

  /** Five consecutive ticks poll all five groups exactly when they do not span the wrap of the counter. */
  lemma FiveTicksPollAll(n: nat)
    ensures (forall g: nat :: g < |GROUPS| ==> PolledWithin(n, 5, g)) <==> AwayFromWrap(n)
  {
    if AwayFromWrap(n) {
      forall g: nat | g < |GROUPS| ensures PolledWithin(n, 5, g) {
        FiveAwayFromWrap(n, g);
      }
    } else {
      FiveAcrossWrap(n);
    }
  }

  /** Any six consecutive ticks poll all five groups, wrap or no wrap. */
  lemma SixTicksPollAll(n: nat, g: nat)
    requires g < |GROUPS|
    ensures PolledWithin(n, 6, g)
  {
    var u := n % 0x1_0000_0000;
    if AwayFromWrap(n) {
      FiveAwayFromWrap(n, g);
    } else {
      var j := 0x1_0000_0000 - u;
      var k := if g <= 5 - j then j + g else g - (5 - j) - 1;
      NextTicks(n, k);
      assert PolledAt(n + k) == g;
    }
  }

  /** The polling loop's counter, and how often it has ticked. */
  class Poller {
    var counter: Int32
    ghost var ticks: nat

    ghost predicate Valid()
      reads this
    {
      counter == CounterAt(ticks)
    }

    constructor ()
      ensures Valid() && ticks == 0
    {
      counter, ticks := 0, 0;
    }

    /** One tick: the groups come in turn, counted from the start modulo 2^32. */
    method Step() returns (group: string)
      requires Valid()
      modifies this
      ensures Valid() && ticks == old(ticks) + 1
      ensures group == GROUPS[PolledAt(old(ticks))] == GROUPS[old(ticks) % 0x1_0000_0000 % 5]
    {
      PolledByCount(ticks);
      group := GROUPS[SecondaryIndex(counter)];
      counter, ticks := Incremented(counter), ticks + 1;
    }
  }
}
