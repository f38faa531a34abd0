/**
 * The expandable size field of MPEG-4 descriptors (ISO/IEC 14496-1, section 8.3.3):
 * one to four bytes, seven payload bits each, bit 7 set on every byte but the last.
 * mp4_desc_length decodes it by walking a pointer through the bytes.
 */
module Descriptor {
  import opened Common

  /** Big-endian concatenation of the low seven bits of every byte of g. */
  function Groups(g: seq<byte>): nat
  {
    if g == [] then 0 else Groups(g[..|g| - 1]) * 128 + (g[|g| - 1] as nat) % 128
  }

  /** Number of bytes, from k on, in the field that starts at s[p]; it counts
      up to the first byte with bit 7 clear, or four bytes, or the end of s. */
  function SizeFrom(s: seq<byte>, p: nat, k: nat): nat
    requires 1 <= k <= 4
    decreases 4 - k
  {
    if k == 4 || p + k > |s| || s[p + k - 1] < 0x80 then k else SizeFrom(s, p, k + 1)
  }

  /** Number of bytes the field starting at s[p] occupies. */
  function DescSize(s: seq<byte>, p: nat): nat
  {
    SizeFrom(s, p, 1)
  }

  /** The field starting at s[p] ends inside s. */
  predicate DescFits(s: seq<byte>, p: nat)
  {
    p + DescSize(s, p) <= |s|
  }

  /** The length the field starting at s[p] encodes. */
  function DescValue(s: seq<byte>, p: nat): nat
    requires DescFits(s, p)
  {
    Groups(s[p..p + DescSize(s, p)])
  }

  function Pow128(n: nat): nat
  {
    if n == 0 then 1 else 128 * Pow128(n - 1)
  }

  lemma {:induction false} SizeFromShape(s: seq<byte>, p: nat, k: nat)
    requires 1 <= k <= 4
    requires p + SizeFrom(s, p, k) <= |s|
    requires forall j :: p <= j < p + k - 1 ==> s[j] >= 0x80
    ensures k <= SizeFrom(s, p, k) <= 4
    ensures forall j :: p <= j < p + SizeFrom(s, p, k) - 1 ==> s[j] >= 0x80
    ensures SizeFrom(s, p, k) < 4 ==> s[p + SizeFrom(s, p, k) - 1] < 0x80
    decreases 4 - k
  {
    if !(k == 4 || p + k > |s| || s[p + k - 1] < 0x80) {
      SizeFromShape(s, p, k + 1);
    }
  }

  /** The field is one to four bytes long and stops at the first byte whose bit 7
      is clear, or after four bytes (faad.c:81-86). */
  lemma DescSizeShape(s: seq<byte>, p: nat)
    requires DescFits(s, p)
    ensures 1 <= DescSize(s, p) <= 4
    ensures forall j :: p <= j < p + DescSize(s, p) - 1 ==> s[j] >= 0x80
    ensures DescSize(s, p) < 4 ==> s[p + DescSize(s, p) - 1] < 0x80
  {
    SizeFromShape(s, p, 1);
  }

  lemma {:induction false} GroupsBound(g: seq<byte>)
    ensures Groups(g) < Pow128(|g|)
    decreases |g|
  {
    if g != [] {
      GroupsBound(g[..|g| - 1]);
    }
  }

  /** The decoded length has at most 28 bits, and a single byte below 0x80 stands
      for itself. */
  lemma DescValueBound(s: seq<byte>, p: nat)
    requires DescFits(s, p)
    ensures DescValue(s, p) < 0x1000_0000
    ensures s[p] < 0x80 ==> DescSize(s, p) == 1 && DescValue(s, p) == s[p] as nat
  {
    DescSizeShape(s, p);
    GroupsBound(s[p..p + DescSize(s, p)]);
    assert Pow128(4) == 0x1000_0000;
    assert Pow128(DescSize(s, p)) <= Pow128(4);
    if s[p] < 0x80 {
      assert s[p..p + 1][..0] == [];
    }
  }

  /** mp4_desc_length (faad.c:76-89): reads the field at buf[p] and returns the
      length together with the position just after the field. The source's
      `(length << 7) | (b & 0x7f)` is length * 128 + b % 128, since the low seven
      bits of length << 7 are clear and length stays below 2^28. */
  method Mp4DescLength(buf: seq<byte>, p: nat) returns (length: nat, q: nat)
    requires DescFits(buf, p)
    ensures q == p + DescSize(buf, p)
    ensures length == DescValue(buf, p)
  {
    SizeFromShape(buf, p, 1);
    var b := buf[p];
    q := p + 1;
    var numBytes := 1;
    length := (b as nat) % 128;
    assert buf[p..q][..0] == [];
    while b >= 0x80 && numBytes < 4
      invariant 1 <= numBytes <= DescSize(buf, p)
      invariant q == p + numBytes
      invariant SizeFrom(buf, p, numBytes) == DescSize(buf, p)
      invariant b == buf[q - 1]
      invariant length == Groups(buf[p..q])
      decreases 4 - numBytes
    {
      SizeFromShape(buf, p, numBytes + 1);
      b := buf[q];
      assert buf[p..q + 1][..q - p] == buf[p..q];
      q := q + 1;
      numBytes := numBytes + 1;
      length := length * 128 + (b as nat) % 128;
    }
  }
}
