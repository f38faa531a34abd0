/**
 * The two ring buffers faad.c works through: the input stream buffer, read at
 * readp, and the output buffer of 32-bit sample slots, written at writep. Their
 * implementation is not part of this model; these classes give the contract the
 * decoder relies on (used, contiguous read, contiguous write, and the pointer moves
 * that wrap at the end of the storage).
 */
module Buffers {
  import opened Common

  /** An index one step past the end of the storage folds back to its start. */
  function Wrap(x: nat, n: nat): (r: nat)
    requires n > 0 && x < 2 * n
    ensures r < n && (r == x || r == x - n)
  {
    if x >= n then x - n else x
  }

  /** How far slot i lies after slot from, going round the ring. */
  function Dist(from: nat, i: nat, n: nat): (d: nat)
    requires from < n && i < n
    ensures d < n && Wrap(from + d, n) == i
  {
    if i >= from then i - from else i + n - from
  }

  /** v is what the contiguous region at readp holds (the view the parser reads). */
  ghost predicate ViewAt(buf: seq<byte>, readp: nat, used: nat, v: seq<byte>)
  {
    readp + |v| <= |buf| && |v| <= used && buf[readp..readp + |v|] == v
  }

  /** The used bytes of a ring of storage buf starting at readp, in stream order. */
  function RingBytes(buf: seq<byte>, readp: nat, used: nat): (s: seq<byte>)
    requires readp < |buf| && used <= |buf|
    ensures |s| == used
    ensures forall k :: 0 <= k < used ==> s[k] == buf[Wrap(readp + k, |buf|)]
  {
    seq(used, k requires 0 <= k < used => buf[Wrap(readp + k, |buf|)])
  }

  /** _buf_cont_read for a ring of n storage bytes read at readp with used bytes
      buffered: the bytes from readp up to the end of the storage, at most used. */
  function ContReadAt(n: nat, readp: nat, used: nat): (c: nat)
    requires readp < n && used <= n
    ensures c <= used && readp + c <= n
    ensures c == used || readp + c == n
  {
    if readp + used <= n then used else n - readp
  }

  class StreamBuffer {
    var buf: seq<byte>
    var readp: nat
    var used: nat

    ghost predicate Valid()
      reads this
    {
      |buf| > 0 && readp < |buf| && used <= |buf|
    }

    /** _buf_cont_read on this buffer. */
    function ContRead(): (c: nat)
      reads this
      requires Valid()
      ensures c <= used && readp + c <= |buf|
      ensures c == used || readp + c == |buf|
    {
      ContReadAt(|buf|, readp, used)
    }

    /** The min(used, cont_read) bytes the decoder can read in place. */
    function View(): (v: seq<byte>)
      reads this
      requires Valid()
      ensures ViewAt(buf, readp, used, v)
      ensures |v| == Min(used, ContRead())
    {
      buf[readp..readp + ContRead()]
    }

    /** Everything buffered, in stream order, across the wrap. */
    function Contents(): (s: seq<byte>)
      reads this
      requires Valid()
      ensures |s| == used
    {
      RingBytes(buf, readp, used)
    }

    /** Since the old state only bytes at the front have been consumed: the storage
        is kept and readp has moved round the ring by as many bytes as used fell. */
    twostate predicate Consumed()
      reads this
      requires old(Valid())
    {
      buf == old(buf) && used <= old(used) && readp == Wrap(old(readp) + (old(used) - used), |buf|)
    }

    /** _buf_inc_readp: n bytes are consumed from the front. */
    method IncReadp(n: nat)
      requires Valid() && n <= used
      modifies this
      ensures Valid() && Consumed()
      ensures buf == old(buf) && used == old(used) - n
      ensures readp == Wrap(old(readp) + n, |buf|)
      ensures Contents() == old(Contents())[n..]
      ensures n < |old(View())| ==> View() == old(View())[n..]
    {
      RingDrop(buf, readp, used, n);
      if n < |View()| {
        ViewDrop(buf, readp, used, View(), n);
      }
      readp := readp + n;
      if readp >= |buf| {
        readp := readp - |buf|;
      }
      used := used - n;
    }
  }

  /** Consuming n bytes of the ring leaves the rest of it, from the wrapped position on. */
  lemma RingDrop(buf: seq<byte>, readp: nat, used: nat, n: nat)
    requires readp < |buf| && used <= |buf| && n <= used
    ensures RingBytes(buf, Wrap(readp + n, |buf|), used - n) == RingBytes(buf, readp, used)[n..]
  {
    var r := RingBytes(buf, readp, used);
    var s := RingBytes(buf, Wrap(readp + n, |buf|), used - n);
    forall k | 0 <= k < used - n
      ensures s[k] == r[n + k]
    {
    }
  }

  /** Consuming n bytes of a view at readp leaves the rest of it in view. */
  lemma ViewDrop(buf: seq<byte>, readp: nat, used: nat, v: seq<byte>, n: nat)
    requires |buf| > 0 && readp < |buf| && ViewAt(buf, readp, used, v) && n <= |v|
    ensures ViewAt(buf, Wrap(readp + n, |buf|), used - n, v[n..])
  {
    if readp + n < |buf| {
      assert buf[readp + n..readp + |v|] == buf[readp..readp + |v|][n..];
    }
  }

  /** When the buffered bytes wrap with fewer than WRAPBUF_LEN in place and more than
      WRAPBUF_LEN in all, the tail at readp followed by the head of the storage is
      exactly the first WRAPBUF_LEN buffered bytes (faad.c:327-332). */
  function Stitch(sb: StreamBuffer): (s: seq<byte>)
    reads sb
    requires sb.Valid() && sb.ContRead() < WRAPBUF_LEN < sb.used
    ensures |s| == WRAPBUF_LEN
  {
    var wrap := sb.ContRead();
    sb.buf[sb.readp..sb.readp + wrap] + sb.buf[..WRAPBUF_LEN - wrap]
  }

  /** The stitched copy is exactly the first WRAPBUF_LEN buffered bytes. */
  lemma StitchIsFront(sb: StreamBuffer)
    requires sb.Valid() && sb.ContRead() < WRAPBUF_LEN < sb.used
    ensures Stitch(sb) == sb.Contents()[..WRAPBUF_LEN]
  {
    var s := Stitch(sb);
    assert forall k :: 0 <= k < WRAPBUF_LEN ==> s[k] == sb.buf[Wrap(sb.readp + k, |sb.buf|)];
  }

  class OutputBuffer {
    /** The storage, one slot per 32-bit sample; a frame is two slots. */
    var buf: array<int>
    var writep: nat
    /** Free slots. */
    var space: nat
    /** The storage, the write position and the free space counted in frames: the
        buffer always moves by whole frames. */
    ghost var frames: nat
    ghost var writeFrame: nat
    ghost var freeFrames: nat

    ghost predicate Valid()
      reads this
    {
      && 0 < frames && buf.Length == 2 * frames
      && writeFrame < frames && writep == 2 * writeFrame
      && freeFrames <= frames && space == 2 * freeFrames
    }

    /** _buf_cont_write in bytes: free space up to the end of the storage. */
    function ContWrite(): (c: nat)
      reads this
      requires Valid()
      ensures c == BYTES_PER_FRAME * Min(freeFrames, frames - writeFrame)
      ensures c <= 4 * space && writep + c / 4 <= buf.Length
    {
      4 * Min(space, buf.Length - writep)
    }

    /** _buf_inc_writep: bytes, a whole number of frames, have been written at writep. */
    method IncWritep(bytes: nat)
      requires Valid() && bytes % BYTES_PER_FRAME == 0 && bytes / 4 <= space
      modifies this
      ensures Valid() && buf == old(buf)
      ensures writep == Wrap(old(writep) + bytes / 4, buf.Length)
      ensures space == old(space) - bytes / 4
    {
      var slots := bytes / 4;
      ghost var k := bytes / BYTES_PER_FRAME;
      assert slots == 2 * k;
      writep := writep + slots;
      writeFrame := writeFrame + k;
      if writep >= buf.Length {
        writep := writep - buf.Length;
        writeFrame := writeFrame - frames;
      }
      space := space - slots;
      freeFrames := freeFrames - k;
    }
  }
}
