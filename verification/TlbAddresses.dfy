/** Where a page walk reads. */
module TlbAddresses {
  import opened Words
  import opened Memory
  import opened Tlb

  /** Reducing twice is reducing once, to the smaller of two powers of two. */
  lemma ReduceTwice(x: nat, d: nat, k: nat, e: nat)
    requires k > 0 && d > 0 && e == k * d
    ensures x % e % d == x % d
  {
    var q, r := x / e, x % e;
    assert (q * k + r / d) * d == q * e + r / d * d;
    DivModUnique(x, d, q * k + r / d, r % d);
  }

  lemma PageBase(page: nat)
    ensures page * 0x1000 % TWO32 == page % 0x10_0000 * 0x1000
  {
    DivModUnique(page * 0x1000, TWO32, page / 0x10_0000, page % 0x10_0000 * 0x1000);
  }

  lemma SecondTableAddress(first: nat, va: nat)
    ensures SecondAddress(first, va) == first % 0x10_0000 * 0x1000 + 4 * (va / 0x1000 % 0x400 % 0x100)
  {
    ReduceTwice(first, 0x10_0000, 0x800, 0x8000_0000);
    ReduceTwice(va / 0x1000, 0x100, 4, 0x400);
    PageBase(first % 0x8000_0000);
  }

  /** Where the two reads of a walk go, for any address: the ten upper bits index the first table, the next ten, less
      their top two, the second, whose 4 KB page number is taken modulo 2^20. */
  lemma WalkReadsAt(ptbr: nat, t: Table, m: Mem, va: nat, junk: Quad)
    requires t.Valid()
    ensures var r := Update(ptbr, t, m, va, START, junk);
      r.Walk? && r.mem == Read(m, (ptbr + 4 * (va / 0x40_0000)) % 0x1_0000_0000, 4).mem
    ensures EntryValid(t.cachedSecond) ==>
      var r := Update(ptbr, t, m, va, HELD, junk);
      r.Walk? ==> r.mem == Read(m, t.cachedSecond % 0x10_0000 * 0x1000 + 4 * (va / 0x1000 % 0x400 % 0x100), 4).mem
  {
    SecondTableAddress(t.cachedSecond, va);
  }
}
