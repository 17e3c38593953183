/**
 * Little-endian byte order, as the `byteorder` crate's `LittleEndian` reads
 * and writes it: the least significant byte sits at the lowest offset.
 * `Encode` and `Decode` are each other's inverse; `Splice` is what an
 * in-place write does to a byte sequence.
 */
module LittleEndian {

  type Byte = b: nat | b < 0x100

  function Pow256(n: nat): (p: nat)
    ensures p >= 1
  {
    if n == 0 then 1 else 0x100 * Pow256(n - 1)
  }

  /** The `n` low-order bytes of `v`, least significant first. */
  function Encode(v: nat, n: nat): (bs: seq<Byte>)
    ensures |bs| == n
  {
    if n == 0 then [] else [v % 0x100] + Encode(v / 0x100, n - 1)
  }

  /** The number a little-endian byte sequence denotes. */
  function Decode(bs: seq<Byte>): (v: nat)
    ensures v < Pow256(|bs|)
  {
    if bs == [] then 0 else bs[0] + 0x100 * Decode(bs[1..])
  }

  lemma {:induction false} DecodeEncode(v: nat, n: nat)
    requires v < Pow256(n)
    ensures Decode(Encode(v, n)) == v
  {
    if n > 0 {
      DecodeEncode(v / 0x100, n - 1);
      assert Encode(v, n)[1..] == Encode(v / 0x100, n - 1);
    }
  }

  lemma {:induction false} EncodeDecode(bs: seq<Byte>)
    ensures Encode(Decode(bs), |bs|) == bs
  {
    if bs != [] {
      EncodeDecode(bs[1..]);
      assert bs == [bs[0]] + bs[1..];
    }
  }

  /** The byte layout of a 16-bit value: low byte first, then high byte. */
  lemma Encode2(v: nat)
    ensures Encode(v, 2) == [v % 0x100, v / 0x100 % 0x100]
  {
  }

  /** The byte layout of a 32-bit value: byte k holds bits 8k .. 8k+7. */
  lemma Encode4(v: nat)
    ensures Encode(v, 4) == [v % 0x100, v / 0x100 % 0x100, v / 0x1_0000 % 0x100, v / 0x100_0000 % 0x100]
  {
    var w := v / 0x1_0000;
    assert v / 0x100 / 0x100 == w;
    assert w / 0x100 == v / 0x100_0000;
    Encode2(w);
    assert Encode(v, 4) == [v % 0x100, v / 0x100 % 0x100] + Encode(w, 2);
  }

  /** Four bytes read back as the sum of their weighted values. */
  lemma Decode4(bs: seq<Byte>)
    requires |bs| == 4
    ensures Decode(bs) == bs[0] as nat + 0x100 * (bs[1] as nat) + 0x1_0000 * (bs[2] as nat) + 0x100_0000 * (bs[3] as nat)
  {
    Decode2(bs[2..]);
    assert bs[1..][1..] == bs[2..];
  }

  lemma Decode2(bs: seq<Byte>)
    requires |bs| == 2
    ensures Decode(bs) == bs[0] as nat + 0x100 * (bs[1] as nat)
  {
    assert bs[1..][1..] == [];
  }

  /** `s` with the bytes from offset `o` on overwritten by `bs`. */
  function Splice(s: seq<Byte>, o: nat, bs: seq<Byte>): (r: seq<Byte>)
    requires o + |bs| <= |s|
    ensures |r| == |s|
    ensures r[o..o + |bs|] == bs
    ensures forall i :: 0 <= i < |s| && !(o <= i < o + |bs|) ==> r[i] == s[i]
  {
    s[..o] + bs + s[o + |bs|..]
  }

  /** A spliced sequence reads back, at the spliced offset, the encoded value. */
  lemma ReadBackSplice(s: seq<Byte>, o: nat, v: nat, n: nat)
    requires o + n <= |s| && v < Pow256(n)
    ensures Decode(Splice(s, o, Encode(v, n))[o..o + n]) == v
  {
    DecodeEncode(v, n);
  }
}
