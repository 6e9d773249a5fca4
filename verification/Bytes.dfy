/** Bytes, C strings and the integer widths of the node's structures. */
module Bytes {

  type Byte = x: int | 0 <= x < 256

  /** A NUL-terminated string, without its terminator. */
  type CString = s: seq<Byte> | 0 !in s

  /** unsigned long long */
  type U64 = x: int | 0 <= x < U64_LIMIT

  /** time_t */
  type Time = x: int | -0x8000_0000_0000_0000 <= x < 0x8000_0000_0000_0000

  /** An SHA-256 digest. */
  type Digest = d: seq<Byte> | |d| == 32 witness seq(32, _ => 0)

  const U64_LIMIT := 0x1_0000_0000_0000_0000

  /** The conversion (ull_t)time of a time_t. */
  function ToU64(t: Time): U64 { if t < 0 then t + U64_LIMIT else t }

  /** The conversion (time_t)n, which undoes it. */
  function ToTime(n: U64): Time { if n < 0x8000_0000_0000_0000 then n else n - U64_LIMIT }

  /** The same number modulo 2^64, and back. */
  lemma TimeReturns(t: Time)
    ensures ToTime(ToU64(t)) == t && (ToU64(t) - t) % U64_LIMIT == 0
  {
  }

  /** Byte i of the buffer that holds s, its terminator included; 0 stands for what lies behind. */
  function CharAt(s: CString, i: nat): Byte { if i < |s| then s[i] else 0 }

  /**
   memcmp(a, b, n) == 0. Every caller's n ends at or before the first terminator
   or first difference, so what lies behind the buffers is never decisive.
   */
  predicate SameBytes(a: CString, b: CString, n: nat) {
    forall i | 0 <= i < n :: CharAt(a, i) == CharAt(b, i)
  }

  /** Over strlen(a) bytes the comparison asks whether a is a prefix of b, nothing more. */
  lemma SameBytesOverLength(a: CString, b: CString)
    ensures SameBytes(a, b, |a|) <==> a <= b
  {
    if |a| > |b| {
      assert CharAt(a, |b|) != CharAt(b, |b|);
    } else {
      assert forall i | 0 <= i < |a| :: CharAt(a, i) == a[i] && CharAt(b, i) == b[i];
    }
  }

  /** Over any length that reaches past a's terminator, or the longer string, it is equality. */
  lemma SameBytesPastEnd(a: CString, b: CString, n: nat)
    requires n > |a| || (n >= |a| && n >= |b|)
    ensures SameBytes(a, b, n) <==> a == b
  {
    if |a| < |b| {
      assert CharAt(a, |a|) != CharAt(b, |a|);
    } else if |b| < |a| {
      assert CharAt(a, |b|) != CharAt(b, |b|);
    } else {
      assert forall i | 0 <= i < |a| :: CharAt(a, i) == a[i] && CharAt(b, i) == b[i];
    }
  }
}
