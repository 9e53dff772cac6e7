/**
 * Byte-level vocabulary shared by both firmware revisions: bytes, 16-bit
 * words, the little-endian in-memory layout of a `uint16_t` on the ESP8266,
 * the `HTONS` byte swap, and C strings copied into zero-filled buffers.
 */
module Bytes {

  type byte = x: int | 0 <= x < 0x100
  type uint16 = x: int | 0 <= x < 0x1_0000

  /** The two bytes a `uint16_t` occupies in memory on the (little-endian) host. */
  function LE16(n: uint16): (r: seq<byte>)
    ensures |r| == 2 && (r[0] as int) + 0x100 * (r[1] as int) == n
  {
    [n % 0x100, n / 0x100]
  }

  /** The value of a `uint16_t` read from two bytes in host (little-endian) order. */
  function ReadLE16(lo: byte, hi: byte): (n: uint16)
    ensures LE16(n) == [lo, hi]
  {
    lo + 0x100 * hi
  }

  /** The value of a big-endian byte pair, `(hi << 8) | lo`. */
  function ReadBE16(hi: byte, lo: byte): (n: uint16)
    ensures n / 0x100 == hi && n % 0x100 == lo
  {
    hi * 0x100 + lo
  }

  /**
   * `HTONS(n)`: `(uint16_t)((n << 8) | (n >> 8))`. The left shift drops the
   * high byte once truncated to 16 bits, so the two halves never overlap and
   * the `|` is a sum.
   */
  function Htons(n: uint16): (r: uint16)
    ensures r / 0x100 == n % 0x100 && r % 0x100 == n / 0x100
  {
    (n % 0x100) * 0x100 + n / 0x100
  }

  /** Swapping twice gives back the original value. */
  lemma HtonsInvolution(n: uint16)
    ensures Htons(Htons(n)) == n
  {
    var r := Htons(n);
    assert r / 0x100 == n % 0x100 && r % 0x100 == n / 0x100;
  }

  /** Storing `HTONS(n)` little-endian puts `n` on the wire high byte first. */
  lemma HtonsStoresBigEndian(n: uint16)
    ensures LE16(Htons(n)) == [n / 0x100, n % 0x100]
  {
  }

  function Pow2(k: nat): (p: nat)
    ensures p >= 1
  {
    if k == 0 then 1 else 2 * Pow2(k - 1)
  }

  /**
   * The C operator `|` on non-negative integers, one bit at a time. An or
   * never clears a bit of either operand and never exceeds their sum.
   */
  function BitOr(a: nat, b: nat): (r: nat)
    ensures a <= r <= a + b && b <= r
    decreases a + b
  {
    if a == 0 then b
    else if b == 0 then a
    else 2 * BitOr(a / 2, b / 2) + (if a % 2 == 1 || b % 2 == 1 then 1 else 0)
  }

  /** The C operator `&` on non-negative integers: never more than either operand. */
  function BitAnd(a: nat, b: nat): (r: nat)
    ensures r <= a && r <= b
    decreases a + b
  {
    if a == 0 || b == 0 then 0
    else 2 * BitAnd(a / 2, b / 2) + (if a % 2 == 1 && b % 2 == 1 then 1 else 0)
  }

  /** Bit `k` of `c`, counting from the least significant. */
  function Bit(c: nat, k: nat): bool {
    if k == 0 then c % 2 == 1 else Bit(c / 2, k - 1)
  }

  /** Masking with `1 << k` keeps exactly bit `k`: `c & (1 << k)` is `1 << k` or 0. */
  lemma {:induction false} BitAndPow2(c: nat, k: nat)
    ensures BitAnd(c, Pow2(k)) == if Bit(c, k) then Pow2(k) else 0
  {
    if k == 0 {
      assert BitAnd(c / 2, 0) == 0;
    } else {
      var h := Pow2(k - 1);
      assert Pow2(k) == 2 * h && (2 * h) / 2 == h && (2 * h) % 2 == 0;
      BitAndPow2(c / 2, k - 1);
    }
  }

  /** Or-ing `b < 2^k` into a multiple of `2^k` is addition: `(a << k) | b == (a << k) + b`. */
  lemma {:induction false} BitOrDisjoint(a: nat, b: nat, k: nat)
    requires b < Pow2(k)
    ensures BitOr(a * Pow2(k), b) == a * Pow2(k) + b
  {
    if k == 0 || a == 0 || b == 0 {
    } else {
      var h := Pow2(k - 1);
      assert a * Pow2(k) == 2 * (a * h);
      assert (a * Pow2(k)) / 2 == a * h && (a * Pow2(k)) % 2 == 0;
      BitOrDisjoint(a, b / 2, k - 1);
    }
  }

  predicate IsAscii(s: string) {
    forall i | 0 <= i < |s| :: s[i] as int < 0x100
  }

  /** The bytes of an ASCII string, without a terminator. */
  function Ascii(s: string): (r: seq<byte>)
    requires IsAscii(s)
    ensures |r| == |s| && forall i | 0 <= i < |s| :: r[i] == s[i] as int
  {
    seq(|s|, i requires 0 <= i < |s| => s[i] as int)
  }

  /**
   * An `n`-byte buffer that was zero before `strcpy(buf, s)`: the characters
   * of `s`, its terminating NUL, then the zeros that were already there.
   */
  function CStringField(s: string, n: nat): (r: seq<byte>)
    requires IsAscii(s) && |s| < n
    ensures |r| == n && r[..|s|] == Ascii(s)
    ensures forall i | |s| <= i < n :: r[i] == 0
  {
    Ascii(s) + seq(n - |s|, _ => 0)
  }
}

/** An optional value, for replies that may or may not be sent. */
module Options {
  datatype Option<T> = None | Some(value: T)
}
