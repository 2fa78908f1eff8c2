/** What several modules share: the constants of param.h, mmu.h and memlayout.h, and a few helpers. */
module Params {
  /** Blocks that one file system call may log. */
  const MAXOPBLOCKS: nat := 10
  const PGSIZE: nat := 4096
  const KERNBASE: nat := 0x8000_0000

  datatype Option<T> = None | Some(value: T)

  function Min(a: nat, b: nat): nat {
    if a < b then a else b
  }

  function Max(a: nat, b: nat): nat {
    if a > b then a else b
  }

  lemma OneMore(m: nat, a: nat, b: nat)
    ensures a < b ==> m * a + m <= m * b
  {
    if a < b {
      var c := b - a - 1;
      assert b == a + 1 + c;
      assert m * b == m * a + m + m * c;
    }
  }
}
