/**
 * Machine words, little-endian decoding and the two failure shapes the
 * library uses: `Option` for "absent" (an RVA of 0) and `Outcome` for a
 * Rust panic (a failed `assert!`, an `unwrap()` of `None`, an index out of
 * range).
 */
module Bytes {

  type u8 = x: int | 0 <= x < 0x100
  type u16 = x: int | 0 <= x < 0x1_0000
  type u32 = x: int | 0 <= x < 0x1_0000_0000
  type u64 = x: int | 0 <= x < 0x1_0000_0000_0000_0000

  const BADRVA: u32 := 0

  datatype Option<+T> = None | Some(value: T)

  /** The result of a computation that may panic. */
  datatype Outcome<+T> = Done(value: T) | Panic {
    predicate IsFailure() { Panic? }
    function PropagateFailure<U>(): Outcome<U> requires Panic? { Panic }
    function Extract(): T requires Done? { value }
  }

  /** `acc` followed by the items of `o`; a panic stays a panic. */
  function Prepend<T>(acc: seq<T>, o: Outcome<seq<T>>): Outcome<seq<T>>
  {
    match o
    case Panic => Panic
    case Done(s) => Done(acc + s)
  }

  /** An empty accumulator adds nothing. */
  lemma PrependNothing<T>(o: Outcome<seq<T>>)
    ensures Prepend([], o) == o
  {
    if o.Done? {
      assert [] + o.value == o.value;
    }
  }

  /** Moving one item from the pending outcome onto the accumulator. */
  lemma PrependStep<T>(acc: seq<T>, x: T, o: Outcome<seq<T>>)
    ensures Prepend(acc, Prepend([x], o)) == Prepend(acc + [x], o)
  {
    if o.Done? {
      assert acc + ([x] + o.value) == (acc + [x]) + o.value;
    }
  }

  /** Wrapping (release-build) arithmetic on the fixed-width integers. */
  function Wrap16(x: int): u16 { x % 0x1_0000 }
  function Wrap32(x: int): u32 { x % 0x1_0000_0000 }
  function Wrap64(x: int): u64 { x % 0x1_0000_0000_0000_0000 }

  /** Wrapping is the identity on values already in range. */
  lemma Wrap32InRange(x: int)
    requires 0 <= x < 0x1_0000_0000
    ensures Wrap32(x) == x
  {
  }

  function U16At(s: seq<u8>, off: nat): (r: u16)
    requires off + 2 <= |s|
  {
    (s[off] as int) + 0x100 * (s[off + 1] as int)
  }

  function U32At(s: seq<u8>, off: nat): (r: u32)
    requires off + 4 <= |s|
  {
    (U16At(s, off) as int) + 0x1_0000 * (U16At(s, off + 2) as int)
  }

  function U64At(s: seq<u8>, off: nat): (r: u64)
    requires off + 8 <= |s|
  {
    (U32At(s, off) as int) + 0x1_0000_0000 * (U32At(s, off + 4) as int)
  }

  /** The bytes of a little-endian u16 and u32, used to build images in proofs. */
  function LeBytes16(x: u16): (r: seq<u8>)
    ensures |r| == 2 && U16At(r, 0) == x
  {
    [x % 0x100, x / 0x100]
  }

  function LeBytes32(x: u32): (r: seq<u8>)
    ensures |r| == 4 && U32At(r, 0) == x
  {
    var r := LeBytes16(x % 0x1_0000) + LeBytes16(x / 0x1_0000);
    assert U16At(r, 0) == x % 0x1_0000 && U16At(r, 2) == x / 0x1_0000;
    r
  }

  /** Decoding depends only on the bytes read. */
  lemma U16AtFrame(s: seq<u8>, t: seq<u8>, off: nat)
    requires off + 2 <= |s| && off + 2 <= |t|
    requires s[off..off + 2] == t[off..off + 2]
    ensures U16At(s, off) == U16At(t, off)
  {
    assert s[off] == s[off..off + 2][0] && s[off + 1] == s[off..off + 2][1];
    assert t[off] == t[off..off + 2][0] && t[off + 1] == t[off..off + 2][1];
  }

  lemma U32AtFrame(s: seq<u8>, t: seq<u8>, off: nat)
    requires off + 4 <= |s| && off + 4 <= |t|
    requires s[off..off + 4] == t[off..off + 4]
    ensures U32At(s, off) == U32At(t, off)
  {
    assert s[off..off + 2] == s[off..off + 4][..2] && t[off..off + 2] == t[off..off + 4][..2];
    assert s[off + 2..off + 4] == s[off..off + 4][2..] && t[off + 2..off + 4] == t[off..off + 4][2..];
    U16AtFrame(s, t, off);
    U16AtFrame(s, t, off + 2);
  }

  /** Decoding at `off` of a sequence is decoding at `off - k` of its suffix at `k`. */
  lemma U16AtShift(s: seq<u8>, k: nat, off: nat)
    requires k <= off && off + 2 <= |s|
    ensures U16At(s, off) == U16At(s[k..], off - k)
  {
  }

  lemma U32AtShift(s: seq<u8>, k: nat, off: nat)
    requires k <= off && off + 4 <= |s|
    ensures U32At(s, off) == U32At(s[k..], off - k)
  {
    U16AtShift(s, k, off);
    U16AtShift(s, k, off + 2);
  }

  /** Decoding inside a common prefix gives the same value. */
  lemma U16AtPrefix(s: seq<u8>, t: seq<u8>, n: nat, off: nat)
    requires n <= |s| && n <= |t| && s[..n] == t[..n] && off + 2 <= n
    ensures U16At(s, off) == U16At(t, off)
  {
    assert s[off] == s[..n][off] && t[off] == t[..n][off];
    assert s[off + 1] == s[..n][off + 1] && t[off + 1] == t[..n][off + 1];
  }

  lemma U32AtPrefix(s: seq<u8>, t: seq<u8>, n: nat, off: nat)
    requires n <= |s| && n <= |t| && s[..n] == t[..n] && off + 4 <= n
    ensures U32At(s, off) == U32At(t, off)
  {
    U16AtPrefix(s, t, n, off);
    U16AtPrefix(s, t, n, off + 2);
  }
}
