/** The decimal conversions of printf that the node hashes: %llu, %0wllu and %0wld. */
module Decimal {
  import opened Bytes

  const ZERO: Byte := 48
  const MINUS: Byte := 45

  predicate IsDigit(b: Byte) { 48 <= b <= 57 }

  /** %llu */
  function Dec(n: nat): (s: CString)
    ensures |s| >= 1 && forall b | b in s :: IsDigit(b)
  {
    if n < 10 then [48 + n] else Dec(n / 10) + [48 + n % 10]
  }

  function Fill(k: int): (s: CString)
    ensures |s| == if k < 0 then 0 else k
    ensures forall b | b in s :: b == ZERO
  {
    if k <= 0 then [] else [ZERO] + Fill(k - 1)
  }

  /** %0wllu */
  function PadDec(w: nat, n: nat): (s: CString)
    ensures |s| >= w && |s| >= |Dec(n)| && forall b | b in s :: IsDigit(b)
  {
    Fill(w - |Dec(n)|) + Dec(n)
  }

  /** %0wld */
  function PadSigned(w: nat, t: int): (s: CString) {
    if t >= 0 then PadDec(w, t) else [MINUS] + PadDec(if w == 0 then 0 else w - 1, -t)
  }

  /** The number a string of digits stands for. */
  function Value(s: seq<Byte>): int {
    if s == [] then 0 else
      var digit: int := s[|s| - 1];
      10 * Value(s[..|s| - 1]) + (digit - 48)
  }

  function Pow10(k: nat): (r: nat)
    ensures r > 0
  {
    if k == 0 then 1 else 10 * Pow10(k - 1)
  }

  lemma {:induction false} ValueOfDec(n: nat)
    ensures Value(Dec(n)) == n
  {
    if n >= 10 {
      ValueOfDec(n / 10);
      assert Dec(n)[..|Dec(n)| - 1] == Dec(n / 10);
    }
  }

  lemma {:induction false} ValueIgnoresFill(k: nat, s: seq<Byte>)
    ensures Value(Fill(k) + s) == Value(s)
    decreases |s|, k
  {
    if s != [] {
      var r := Fill(k) + s;
      assert r[..|r| - 1] == Fill(k) + s[..|s| - 1];
      ValueIgnoresFill(k, s[..|s| - 1]);
    } else if k > 0 {
      FillSnoc(k);
      assert (Fill(k) + s)[..k - 1] == Fill(k - 1) + s;
      ValueIgnoresFill(k - 1, s);
    }
  }

  lemma {:induction false} FillSnoc(k: nat)
    requires k > 0
    ensures Fill(k) == Fill(k - 1) + [ZERO]
  {
    if k > 1 {
      FillSnoc(k - 1);
    }
  }

  lemma ValueOfPadDec(w: nat, n: nat)
    ensures Value(PadDec(w, n)) == n
  {
    ValueOfDec(n);
    var k := w - |Dec(n)|;
    if k >= 0 {
      ValueIgnoresFill(k, Dec(n));
    } else {
      assert PadDec(w, n) == Dec(n);
    }
  }

  /** %0wllu loses nothing: equal fields come from equal numbers. */
  lemma PadDecInjective(w: nat, m: nat, n: nat)
    requires PadDec(w, m) == PadDec(w, n)
    ensures m == n
  {
    ValueOfPadDec(w, m);
    ValueOfPadDec(w, n);
  }

  /** A number takes at most w digits exactly when it is below 10^w. */
  lemma {:induction false} DecLength(n: nat, w: nat)
    requires w > 0
    ensures |Dec(n)| <= w <==> n < Pow10(w)
  {
    if w == 1 {
      assert Pow10(1) == 10;
    } else if n >= 10 {
      DecLength(n / 10, w - 1);
    } else {
      Pow10AtLeast10(w);
    }
  }

  lemma {:induction false} Pow10AtLeast10(w: nat)
    requires w > 0
    ensures Pow10(w) >= 10
  {
    if w > 1 {
      Pow10AtLeast10(w - 1);
    }
  }

  /** The field %0wllu has exactly w characters just when the number is below 10^w. */
  lemma PadDecLength(w: nat, n: nat)
    requires w > 0
    ensures |PadDec(w, n)| == w <==> n < Pow10(w)
  {
    DecLength(n, w);
  }

  /** A number that overflows its field is written in full, and any other fills it with zeros in front. */
  lemma PadDecFills(w: nat, n: nat)
    ensures Value(PadDec(w, n)) == n
    ensures |PadDec(w, n)| == if |Dec(n)| < w then w else |Dec(n)|
    ensures n > 0 ==> Dec(n)[0] != ZERO
  {
    ValueOfPadDec(w, n);
    NoLeadingZero(n);
  }

  lemma {:induction false} NoLeadingZero(n: nat)
    ensures n > 0 ==> Dec(n)[0] != ZERO
  {
    if n >= 10 {
      NoLeadingZero(n / 10);
    }
  }

  /** %0wld of a negative number is a sign, and its amount in the rest of the field. */
  lemma PadSignedReads(w: nat, t: int)
    requires 0 < w
    ensures |PadSigned(w, t)| >= w
    ensures t < 0 ==> PadSigned(w, t)[0] == MINUS && Value(PadSigned(w, t)[1..]) + t == 0
    ensures t >= 0 ==> Value(PadSigned(w, t)) == t
  {
    hide Value, Dec, PadDec;
    if t < 0 {
      ValueOfPadDec(w - 1, -t);
      assert PadSigned(w, t)[1..] == PadDec(w - 1, -t);
    } else {
      ValueOfPadDec(w, t);
    }
  }

  /** len_of_proof: the decimal length, except that 0 counts as no digit at all. */
  method LenOfProof(proof: U64) returns (len: nat)
    ensures len == ProofLength(proof)
    ensures if proof == 0 then len == 0 else len > 0 && Pow10(len - 1) <= proof < Pow10(len)
  {
    ProofLengthIs(proof);
    len := 0;
    var tmp := proof;
    while tmp != 0
      invariant 0 <= tmp && len + ProofLength(tmp) == ProofLength(proof)
    {
      DropDigit(tmp);
      tmp := tmp / 10;
      len := len + 1;
    }
  }

  function ProofLength(proof: nat): nat {
    if proof == 0 then 0 else |Dec(proof)|
  }

  lemma ProofLengthIs(proof: nat)
    ensures var len := ProofLength(proof);
            if proof == 0 then len == 0 else len > 0 && Pow10(len - 1) <= proof < Pow10(len)
  {
    if proof > 0 {
      var len := |Dec(proof)|;
      DecLength(proof, len);
      if len > 1 {
        DecLength(proof, len - 1);
      }
    }
  }

  lemma DropDigit(n: nat)
    requires n > 0
    ensures ProofLength(n) == 1 + ProofLength(n / 10)
  {
  }
}
