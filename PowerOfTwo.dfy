/**
 * Powers of two, as in HW2/power2n.py: two plain recursive definitions and a
 * recursive definition that memoises its results in a 10000-cell table.
 */
module PowerOfTwo {
  import opened Wrappers

  /** b raised to the power e, Python's `b ** e` on naturals. */
  function Pow(b: nat, e: nat): nat
  {
    if e == 0 then 1 else b * Pow(b, e - 1)
  }

  /** `power2n2a`: 2^n as the sum of two copies of 2^(n-1). */
  function Power2n2a(n: nat): nat
  {
    if n == 0 then 1 else Power2n2a(n - 1) + Power2n2a(n - 1)
  }

  /** `power2n2b`: 2^n as twice 2^(n-1). */
  function Power2n2b(n: nat): nat
  {
    if n == 0 then 1 else 2 * Power2n2b(n - 1)
  }

  lemma {:induction false} Power2n2aIsPow(n: nat)
    ensures Power2n2a(n) == Pow(2, n)
  {
    if n != 0 {
      Power2n2aIsPow(n - 1);
    }
  }

  lemma {:induction false} Power2n2bIsPow(n: nat)
    ensures Power2n2b(n) == Pow(2, n)
  {
    if n != 0 {
      Power2n2bIsPow(n - 1);
    }
  }

  /** The two recursive definitions agree everywhere. */
  lemma {:induction false} Power2n2aEqualsPower2n2b(n: nat)
    ensures Power2n2a(n) == Power2n2b(n)
  {
    Power2n2aIsPow(n);
    Power2n2bIsPow(n);
  }

  /** The number of cells of the `lookup` table. */
  const TableSize: nat := 10000

  /**
   * The global `lookup` table of the memoised `power2n`: None for a power
   * not yet computed, Some(2^k) in cell k once it is.
   */
  class Memo {
    var lookup: array<Option<nat>>

    /** Cell 0 holds 1, every filled cell k holds 2^k, and the filled cells
        form a prefix of the table. */
    ghost predicate Valid()
      reads this, lookup
    {
      && lookup.Length == TableSize
      && lookup[0] == Some(1)
      && (forall k :: 0 <= k < lookup.Length && lookup[k].Some? ==> lookup[k].value == Pow(2, k))
      && (forall i, j :: 0 <= i <= j < lookup.Length && lookup[j].Some? ==> lookup[i].Some?)
    }

    /** `lookup = [None] * 10000; lookup[0] = 1` */
    constructor ()
      ensures Valid() && fresh(lookup)
      ensures lookup[0] == Some(1)
      ensures forall k :: 0 < k < lookup.Length ==> lookup[k] == None
    {
      var t := new Option<nat>[TableSize](_ => None);
      t[0] := Some(1);
      lookup := t;
    }

    /**
     * The memoised `power2n`: returns the cached cell when it is filled, and
     * otherwise computes power2n(n - 1) twice, stores their sum in cell n and
     * returns it.
     */
    method Power2n(n: nat) returns (r: nat)
      requires Valid() && n < lookup.Length
      modifies lookup
      ensures Valid()
      ensures r == Pow(2, n)
      ensures forall k :: 0 <= k <= n ==> lookup[k] == Some(Pow(2, k))
      ensures forall k :: n < k < lookup.Length ==> lookup[k] == old(lookup[k])
      ensures old(lookup[n]).Some? ==> r == old(lookup[n]).value && lookup[..] == old(lookup[..])
      decreases n
    {
      if lookup[n].Some? {
        return lookup[n].value;
      }
      var a := Power2n(n - 1);
      var b := Power2n(n - 1);
      lookup[n] := Some(a + b);
      r := lookup[n].value;
    }
  }
}
