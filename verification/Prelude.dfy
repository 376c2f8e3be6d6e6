/** Machine integers, byte strings and the failure types shared by every module. */
module Prelude {
  /** Rust's unsigned integers; the modules spell out wrap-around and saturation themselves. */
  type u8 = n: int | 0 <= n < 0x100
  type u16 = n: int | 0 <= n < 0x1_0000
  type u32 = n: int | 0 <= n < 0x1_0000_0000
  type u64 = n: int | 0 <= n < 0x1_0000_0000_0000_0000

  const U32_MAX: u32 := 0xFFFF_FFFF
  const U64_MAX: u64 := 0xFFFF_FFFF_FFFF_FFFF

  /** A Rust `str` or `[u8]`: every operation of the source on host names is byte-wise. */
  type Bytes = seq<u8>

  type ClientId = nat
  type RuleId = u64

  datatype Option<+T> = None | Some(value: T)

  datatype Result<+T, +E> = Ok(value: T) | Err(error: E) {
    predicate IsFailure() { Err? }

    function PropagateFailure<U>(): (r: Result<U, E>)
      requires Err?
    {
      Err(error)
    }

    function Extract(): (v: T)
      requires Ok?
    {
      value
    }
  }

  datatype Protocol = Tcp | Udp

  /** The elements of a sequence are pairwise different. */
  ghost predicate Distinct<T>(s: seq<T>) {
    forall i, j :: 0 <= i < j < |s| ==> s[i] != s[j]
  }

  /** A sequence enumerates a set, each element once. */
  ghost predicate Lists<T(!new)>(s: seq<T>, elements: set<T>) {
    Distinct(s) && forall x :: x in s <==> x in elements
  }

  lemma ListsAppend<T(!new)>(s: seq<T>, elements: set<T>, x: T)
    requires Lists(s, elements) && x !in elements
    ensures Lists(s + [x], elements + {x})
  {
  }

  lemma ListsSet<T(!new)>(s: seq<T>, elements: set<T>)
    requires Lists(s, elements)
    ensures (set x | x in s) == elements
  {
  }

  lemma {:induction false} SubsetSize<T>(a: set<T>, b: set<T>)
    requires a <= b
    ensures |a| <= |b|
  {
    if a != {} {
      var x :| x in a;
      SubsetSize(a - {x}, b - {x});
    }
  }
}
