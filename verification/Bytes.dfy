/** Machine integers, byte strings and the little-endian encoding every wire format here uses. */
module Bytes {

  type byte = b: int | 0 <= b < 0x100
  type u16 = n: int | 0 <= n < 0x1_0000
  type u32 = n: int | 0 <= n < 0x1_0000_0000
  type u64 = n: int | 0 <= n < 0x1_0000_0000_0000_0000
  type i32 = n: int | -0x8000_0000 <= n < 0x8000_0000

  /** A vector: its length is a machine word. */
  type Vec<T> = s: seq<T> | |s| < 0x1_0000_0000_0000_0000

  type Digest = s: seq<byte> | |s| == 32 witness seq(32, _ => 0)

  /** Double SHA-256, kept uninterpreted: every definition takes the hash as a parameter. */
  type Hasher = seq<byte> -> Digest

  lemma Assoc(a: seq<byte>, b: seq<byte>, c: seq<byte>)
    ensures a + b + c == a + (b + c)
  {
  }

  function Zeros(n: nat): (s: seq<byte>)
    ensures |s| == n && forall i :: 0 <= i < n ==> s[i] == 0
  {
    seq(n, _ => 0)
  }

  function Pow256(w: nat): (p: nat)
    ensures p > 0
  {
    if w == 0 then 1 else 256 * Pow256(w - 1)
  }

  lemma Widths()
    ensures Pow256(1) == 0x100 && Pow256(2) == 0x1_0000
    ensures Pow256(4) == 0x1_0000_0000 && Pow256(8) == 0x1_0000_0000_0000_0000
  {
    assert Pow256(3) == 0x100_0000 && Pow256(5) == 0x100_0000_0000;
  }

  /** The low `w` bytes of `n`, least significant first. */
  function ToLE(n: nat, w: nat): (s: seq<byte>)
    ensures |s| == w
  {
    if w == 0 then [] else [n % 256] + ToLE(n / 256, w - 1)
  }

  function FromLE(s: seq<byte>): (n: nat)
    ensures n < Pow256(|s|)
  {
    if s == [] then 0 else s[0] + 256 * FromLE(s[1..])
  }

  lemma {:induction false} FromToLE(n: nat, w: nat)
    requires n < Pow256(w)
    ensures FromLE(ToLE(n, w)) == n
  {
    if w > 0 {
      FromToLE(n / 256, w - 1);
      assert ToLE(n, w)[1..] == ToLE(n / 256, w - 1);
    }
  }

  lemma {:induction false} ToFromLE(s: seq<byte>)
    ensures ToLE(FromLE(s), |s|) == s
  {
    if s != [] {
      ToFromLE(s[1..]);
      assert FromLE(s) % 256 == s[0] && FromLE(s) / 256 == FromLE(s[1..]);
    }
  }

  /** The number whose digits in base 256 are the first `k` bytes, least significant first. */
  function DigitSum(s: seq<byte>, k: nat): nat
    requires k <= |s|
  {
    if k == 0 then 0 else DigitSum(s, k - 1) + s[k - 1] * Pow256(k - 1)
  }

  lemma {:induction false} LastDigit(s: seq<byte>, b: byte)
    ensures FromLE(s + [b]) == FromLE(s) + b * Pow256(|s|)
  {
    if s == [] {
      assert [b][1..] == [];
    } else {
      assert (s + [b])[1..] == s[1..] + [b];
      LastDigit(s[1..], b);
      assert b * Pow256(|s|) == 256 * (b * Pow256(|s| - 1));
    }
  }

  /** Byte `i` counts for 256 to the power `i`: the order of the bytes, and not only that writing and
      reading agree on one. */
  lemma {:induction false} FromLEIsDigitSum(s: seq<byte>, k: nat)
    requires k <= |s|
    ensures FromLE(s[..k]) == DigitSum(s, k)
  {
    if k > 0 {
      FromLEIsDigitSum(s, k - 1);
      assert s[..k] == s[..k - 1] + [s[k - 1]];
      LastDigit(s[..k - 1], s[k - 1]);
    }
  }

  /** Two's complement, as `i32::to_le_bytes` and `i32::from_le_bytes` see it. */
  function Unsigned(n: i32): u32 {
    if n < 0 then n + 0x1_0000_0000 else n
  }

  function Signed(n: u32): i32 {
    if n >= 0x8000_0000 then n - 0x1_0000_0000 else n
  }

  /** `copy_from_slice` into part of an array. */
  method CopyInto(a: array<byte>, at: nat, src: seq<byte>)
    requires at + |src| <= a.Length
    modifies a
    ensures forall k :: 0 <= k < |src| ==> a[at + k] == src[k]
    ensures forall k :: 0 <= k < at || at + |src| <= k < a.Length ==> a[k] == old(a[k])
  {
    for i := 0 to |src|
      invariant forall k :: 0 <= k < i ==> a[at + k] == src[k]
      invariant forall k :: 0 <= k < at || at + i <= k < a.Length ==> a[k] == old(a[k])
    {
      a[at + i] := src[i];
    }
  }

  lemma TwosComplement(n: i32, u: u32)
    ensures Unsigned(n) == n % 0x1_0000_0000 && Signed(u) % 0x1_0000_0000 == u
  {
  }
}
