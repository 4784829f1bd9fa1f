/**
 * A stand-in for the integer coder of the external `coders` package, which is
 * not part of this model. Identifiers (users, guilds) are unsigned 64-bit
 * integers and are written as eight big-endian bytes. Nothing else in the
 * model depends on the byte order: only on the round trip proved below.
 */
module Coders {

  type byte = x: int | 0 <= x < 256

  /** Width of an encoded identifier, in bytes. */
  const ID_WIDTH: nat := 8

  function Pow256(k: nat): (r: nat)
    ensures r >= 1
  {
    if k == 0 then 1 else 256 * Pow256(k - 1)
  }

  /** Unsigned 64-bit identifiers, as the chat platform hands them out. */
  type Id = x: int | 0 <= x < 0x1_0000_0000_0000_0000

  /** The last k base-256 digits of n, most significant first. */
  function EncodeN(n: nat, k: nat): (r: seq<byte>)
    ensures |r| == k
  {
    if k == 0 then [] else EncodeN(n / 256, k - 1) + [n % 256]
  }

  /** The big-endian value of a byte string. */
  function DecodeN(s: seq<byte>): (r: nat)
    ensures r < Pow256(|s|)
  {
    if s == [] then 0 else DecodeN(s[..|s| - 1]) * 256 + s[|s| - 1]
  }

  function EncodeId(id: Id): (r: seq<byte>)
    ensures |r| == ID_WIDTH
  {
    EncodeN(id, ID_WIDTH)
  }

  function DecodeId(s: seq<byte>): nat
  {
    DecodeN(s)
  }

  lemma {:induction false} DecodeEncodeN(n: nat, k: nat)
    requires n < Pow256(k)
    ensures DecodeN(EncodeN(n, k)) == n
  {
    if k > 0 {
      assert n / 256 < Pow256(k - 1);
      DecodeEncodeN(n / 256, k - 1);
      var e := EncodeN(n, k);
      assert e[..|e| - 1] == EncodeN(n / 256, k - 1);
    }
  }

  /** Appending a digit below 256 is undone by division and remainder by 256. */
  lemma DigitSplit(q: nat, r: nat)
    requires r < 256
    ensures (q * 256 + r) / 256 == q && (q * 256 + r) % 256 == r
  {
  }

  lemma {:induction false} EncodeDecodeN(s: seq<byte>)
    ensures EncodeN(DecodeN(s), |s|) == s
  {
    if s != [] {
      var init := s[..|s| - 1];
      DigitSplit(DecodeN(init), s[|s| - 1] as nat);
      EncodeDecodeN(init);
      assert s == init + [s[|s| - 1]];
    }
  }

  /** Decoding an encoded identifier gives the identifier back. */
  lemma IdRoundTrip(id: Id)
    ensures DecodeId(EncodeId(id)) == id
  {
    assert Pow256(ID_WIDTH) == 0x1_0000_0000_0000_0000;
    DecodeEncodeN(id, ID_WIDTH);
  }

  /** Every eight-byte string is the encoding of exactly one identifier. */
  lemma FieldRoundTrip(s: seq<byte>)
    requires |s| == ID_WIDTH
    ensures DecodeId(s) < 0x1_0000_0000_0000_0000
    ensures EncodeId(DecodeId(s) as Id) == s
  {
    assert Pow256(ID_WIDTH) == 0x1_0000_0000_0000_0000;
    EncodeDecodeN(s);
  }

  /** Distinct identifiers have distinct encodings. */
  lemma EncodeIdInjective(a: Id, b: Id)
    ensures EncodeId(a) == EncodeId(b) <==> a == b
  {
    if EncodeId(a) == EncodeId(b) {
      IdRoundTrip(a);
      IdRoundTrip(b);
    }
  }
}
