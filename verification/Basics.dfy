/** Small types shared by every component: options, results and machine words. */
module Basics {

  datatype Option<+T> = None | Some(value: T)

  datatype Result<+T, +E> = Ok(value: T) | Err(error: E)

  const U64_MAX := 0xFFFF_FFFF_FFFF_FFFF

  /** Rust's `u64`; every operation on it states its overflow behaviour. */
  type u64 = n: int | 0 <= n <= U64_MAX

  type Bytes = seq<bv8>

  /** For how many blocks undo logs and old trie roots are kept. */
  const UNDO_WINDOW: nat := 8

  /** `u64::saturating_add`. */
  function SatAdd(a: u64, b: u64): u64 {
    if a + b <= U64_MAX then a + b else U64_MAX
  }

  /** `u64::saturating_sub`. */
  function SatSub(a: u64, b: u64): u64 {
    if a < b then 0 else a - b
  }

  lemma {:induction false} Associative<T>(a: seq<T>, b: seq<T>, c: seq<T>)
    ensures a + b + c == a + (b + c)
  {
  }

  lemma {:induction false} SubsetCard<T>(a: set<T>, b: set<T>)
    requires a <= b
    ensures |a| <= |b| && (|a| == |b| ==> a == b)
  {
    if a != {} {
      var x :| x in a;
      SubsetCard(a - {x}, b - {x});
    } else if b != {} {
      var x :| x in b;
      assert |b| == |b - {x}| + 1;
    }
  }
}
