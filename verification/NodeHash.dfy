/** sha256() of Projet/Hash/sha256.c on a C string: the function that stands for H in the node. */
module NodeHash {
  import opened Bytes
  import Fips180
  import Sha256
  import WordSums

  function ToOctets(s: seq<Byte>): (r: seq<Fips180.Octet>)
    ensures |r| == |s|
  {
    if s == [] then [] else ToOctets(s[..|s| - 1]) + [WordSums.OctetOf(s[|s| - 1])]
  }

  function FromOctet(o: Fips180.Octet): Byte { o as int }

  function FromOctets(o: seq<Fips180.Octet>): (r: seq<Byte>)
    ensures |r| == |o|
  {
    if o == [] then [] else FromOctets(o[..|o| - 1]) + [FromOctet(o[|o| - 1])]
  }

  /** The node's hash function. */
  function Hash(txt: CString): Digest {
    FromOctets(Fips180.Sha256(ToOctets(txt)))
  }

  lemma {:induction false} OctetsAt(s: seq<Byte>, i: nat)
    requires i < |s|
    ensures ToOctets(s)[i] == WordSums.OctetOf(s[i])
  {
    hide WordSums.OctetOf;
    if i < |s| - 1 {
      OctetsAt(s[..|s| - 1], i);
    }
  }

  /** The octets are the bytes, in their order. */
  lemma ToOctetsKeepsBytes(s: seq<Byte>, i: nat)
    requires i < |s|
    ensures ToOctets(s)[i] as int == s[i]
  {
    hide *;
    OctetsAt(s, i);
    WordSums.OctetReads(s[i]);
  }

  lemma {:induction false} FromOctetsAt(o: seq<Fips180.Octet>, i: nat)
    requires i < |o|
    ensures FromOctets(o)[i] == FromOctet(o[i])
  {
    hide FromOctet;
    if i < |o| - 1 {
      FromOctetsAt(o[..|o| - 1], i);
    }
  }

  lemma FromOctetIs(o: Fips180.Octet)
    ensures FromOctet(o) == o as int
  {
  }

  lemma FromOctetsKeepsBytes(o: seq<Fips180.Octet>, i: nat)
    requires i < |o|
    ensures FromOctets(o)[i] == o[i] as int
  {
    hide *;
    FromOctetsAt(o, i);
    FromOctetIs(o[i]);
  }

  /** m is the text, octet by octet. */
  predicate Spells(m: seq<Fips180.Octet>, txt: seq<Byte>) {
    |m| == |txt| && forall i | 0 <= i < |txt| :: m[i] as int == txt[i]
  }

  /** There is one such message. */
  lemma SpelledOnce(m: seq<Fips180.Octet>, txt: seq<Byte>)
    requires Spells(m, txt)
    ensures m == ToOctets(txt)
  {
    hide ToOctets;
    forall i | 0 <= i < |txt|
      ensures m[i] == ToOctets(txt)[i]
    {
      ToOctetsKeepsBytes(txt, i);
      WordSums.SameOctet(m[i], ToOctets(txt)[i]);
    }
  }

  lemma ToOctetsSpells(txt: seq<Byte>)
    ensures Spells(ToOctets(txt), txt)
  {
    hide ToOctets;
    forall i | 0 <= i < |txt|
      ensures ToOctets(txt)[i] as int == txt[i]
    {
      ToOctetsKeepsBytes(txt, i);
    }
  }

  // sha256: the digest of FIPS 180-4 of the message that spells the text
  method HashText(txt: CString) returns (buf: array<Fips180.Octet>)
    requires |txt| < Sha256.U32_LIMIT
    ensures FromOctets(buf[..]) == Hash(txt)
    ensures forall m | Spells(m, txt) :: buf[..] == Fips180.Sha256(m)
  {
    hide Spells, ToOctets;
    var ctx := new Sha256.Context();
    ctx.Update(ToOctets(txt));
    assert ctx.message == ToOctets(txt);
    buf := ctx.Final();
    forall m | Spells(m, txt)
      ensures m == ToOctets(txt)
    {
      SpelledOnce(m, txt);
    }
  }
}
