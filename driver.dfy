/**
 * The pure parts of one faad_decode tick (faad.c:249-423): the ADTS sync test, the
 * chunk-boundary reconcile after a decode call, and the conversion of the engine's
 * 24-bit samples to the 32-bit stereo frames of the output buffer.
 */
module Driver {
  import opened Common
  import opened ChunkTable
  import opened Engine
  import opened Buffers
  import opened Boxes

  /** The two bytes that start an ADTS header, as the scan tests them (faad.c:272). */
  predicate IsSync(b0: byte, b1: byte): (r: bool)
    ensures r <==> b0 == 0xFF && b1 in {0xF0, 0xF1, 0xF8, 0xF9}
  {
    b0 == 0xFF && ((b1 as bv8) & 0xF6) == 0xF0
  }

  /** Position j of v is not the start of an ADTS header, and has a byte after it. */
  predicate NoSyncAt(v: seq<byte>, j: nat)
  {
    j + 1 < |v| && !IsSync(v[j], v[j + 1])
  }

  /** The test is the 12-bit syncword 0xFFF followed by layer bits 00, with the
      MPEG version bit and the protection_absent bit free (ISO/IEC 14496-3,
      subclause 1.A.2.2). */
  lemma SyncIsSyncwordAndLayer(b0: byte, b1: byte)
    ensures IsSync(b0, b1) <==> b0 == 0xFF && b1 / 16 == 0xF && (b1 / 2) % 4 == 0
  {
    assert IsSync(b0, b1) <==> b0 == 0xFF && (b1 == 0xF0 || b1 == 0xF1 || b1 == 0xF8 || b1 == 0xF9);
  }

  /** The bytes the ADTS scan (faad.c:272-276) drops from the contiguous bytes v:
      none of them starts a header, and it stops at a sync or with fewer than two
      bytes left. */
  function SyncSkip(v: seq<byte>): (k: nat)
    ensures k <= |v|
    ensures forall j :: 0 <= j < k ==> NoSyncAt(v, j)
    ensures |v| - k >= 2 ==> IsSync(v[k], v[k + 1])
    decreases |v|
  {
    if |v| < 2 || IsSync(v[0], v[1]) then 0
    else
      var k := SyncSkip(v[1..]);
      NoSyncShift(v, k);
      1 + k
  }

  /** No sync in the first k positions after v's first, and none at its first:
      none in its first k + 1. */
  lemma NoSyncShift(v: seq<byte>, k: nat)
    requires |v| >= 2 && !IsSync(v[0], v[1]) && forall j :: 0 <= j < k ==> NoSyncAt(v[1..], j)
    ensures forall j :: 0 <= j < k + 1 ==> NoSyncAt(v, j)
  {
    forall j | 0 <= j < k + 1
      ensures NoSyncAt(v, j)
    {
      if j > 0 {
        assert NoSyncAt(v[1..], j - 1);
      }
    }
  }

  /** The scan's stopping point is the only one with no sync before it and a sync,
      or fewer than two bytes, at it. */
  lemma SyncSkipUnique(v: seq<byte>, k: nat)
    requires k <= |v| && forall j :: 0 <= j < k ==> NoSyncAt(v, j)
    requires |v| - k >= 2 ==> IsSync(v[k], v[k + 1])
    ensures k == SyncSkip(v)
  {
    var s := SyncSkip(v);
    assert k < s ==> NoSyncAt(v, k);
    assert s < k ==> NoSyncAt(v, s);
  }

  /** Header detection of an ADTS stream (faad.c:269-286) on the contiguous bytes v:
      the scan, then NeAACDecInit when two bytes are left. A negative result fails
      the header; otherwise the bytes it used are passed too and the reported
      format kept. The file position is not moved. */
  function AdtsDetect(st: Mp4, v: seq<byte>, e: Engine): (r: Outcome)
    requires Behaves(e)
    ensures r.adv <= |v| && (r.code == -1 || r.code == 0 || r.code == 1)
    ensures r.st == st.(rate := r.st.rate, channels := r.st.channels)
    ensures r.code != 1 ==> r.st == st
  {
    InitAfterScan(st, v, e, SyncSkip(v))
  }

  /** The initialisation once the scan has dropped k bytes of v. */
  function InitAfterScan(st: Mp4, v: seq<byte>, e: Engine, k: nat): (r: Outcome)
    requires Behaves(e) && k <= |v|
    ensures r.adv <= |v| && (r.code == -1 || r.code == 0 || r.code == 1)
    ensures r.st == st.(rate := r.st.rate, channels := r.st.channels)
    ensures r.code != 1 ==> r.st == st
  {
    if |v| - k < 2 then Outcome(0, st, k)
    else
      var ir := e.init(v[k..]);
      if ir.n < 0 then Outcome(-1, st, k)
      else Outcome(1, st.(rate := ir.config.rate, channels := ir.config.channels), k + ir.n)
  }

  /** AdtsDetect from its two stages: the sync scan dropping k bytes of buffered
      bytes c, whose contiguous part is v, then the initialisation on what is left. */
  lemma AdtsDetectStaged(st: Mp4, v: seq<byte>, c: seq<byte>, e: Engine, k: nat,
                         found: int, st1: Mp4, c1: seq<byte>)
    requires Behaves(e) && k == SyncSkip(v) && |v| <= |c|
    requires |v| - k < 2 ==> found == 0 && st1 == st && c1 == c[k..]
    requires |v| - k >= 2 ==> var ir := e.init(v[k..]);
      if ir.n < 0 then found == -1 && st1 == st && c1 == c[k..]
      else found == 1 && st1 == st.(rate := ir.config.rate, channels := ir.config.channels) && c1 == c[k..][ir.n..]
    ensures var r := AdtsDetect(st, v, e);
      found == r.code && st1 == r.st && c1 == c[r.adv..]
  {
    InitStaged(st, v, c, e, k, found, st1, c1);
  }

  /** The initialisation stage alone, after the scan is known to have dropped k bytes. */
  lemma InitStaged(st: Mp4, v: seq<byte>, c: seq<byte>, e: Engine, k: nat,
                   found: int, st1: Mp4, c1: seq<byte>)
    requires Behaves(e) && k <= |v| <= |c|
    requires |v| - k < 2 ==> found == 0 && st1 == st && c1 == c[k..]
    requires |v| - k >= 2 ==> var ir := e.init(v[k..]);
      if ir.n < 0 then found == -1 && st1 == st && c1 == c[k..]
      else found == 1 && st1 == st.(rate := ir.config.rate, channels := ir.config.channels) && c1 == c[k..][ir.n..]
    ensures var r := InitAfterScan(st, v, e, k);
      found == r.code && st1 == r.st && c1 == c[r.adv..]
  {
    var ir := e.init(v[k..]);
    if |v| - k >= 2 && ir.n >= 0 {
      DropTwice(c, k, ir.n);
    }
  }

  /** Dropping a bytes and then b more is dropping a + b. */
  lemma DropTwice(c: seq<byte>, a: nat, b: nat)
    requires a + b <= |c|
    ensures c[a..][b..] == c[a + b..]
  {
  }

  /** Whatever point k the scan is shown to stop at, detection is decided there:
      more data is needed with fewer than two bytes left, a negative init result
      fails, and otherwise the init result's bytes and format are taken. */
  lemma AdtsDetectAt(st: Mp4, v: seq<byte>, e: Engine, k: nat)
    requires Behaves(e) && k <= |v| && forall j :: 0 <= j < k ==> NoSyncAt(v, j)
    requires |v| - k >= 2 ==> IsSync(v[k], v[k + 1])
    ensures var r := AdtsDetect(st, v, e);
      var ir := e.init(v[k..]);
      && (|v| - k < 2 ==> r == Outcome(0, st, k))
      && (|v| - k >= 2 && ir.n < 0 ==> r == Outcome(-1, st, k))
      && (|v| - k >= 2 && ir.n >= 0 ==>
            r == Outcome(1, st.(rate := ir.config.rate, channels := ir.config.channels), k + ir.n))
  {
    SyncSkipUnique(v, k);
  }

  /** Header detection for a new stream (faad.c:269-292): the ADTS scan and init
      for stream type '2', read_mp4_header otherwise. */
  function Detect(streamType: char, st: Mp4, v: seq<byte>, e: Engine): (r: Outcome)
    requires Behaves(e)
    ensures r.adv <= |v| && (r.code == -1 || r.code == 0 || r.code == 1)
    ensures streamType == '2' ==> r.st.pos == st.pos
  {
    if streamType == '2' then AdtsDetect(st, v, e) else Parse(st, v, e.init2)
  }

  /** The result of the boundary check: new parser state, bytes the read cursor
      moves, and whether the stream cannot go on. */
  datatype Advance = Advance(st: Mp4, adv: nat, fatal: bool)

  /** The first two conditions of the boundary test (faad.c:348): a table exists and
      the next chunk is a real one, not the closing sentinel of offset 0. Only when
      they hold is `sample` counted. */
  predicate Counted(st: Mp4): (r: bool)
    ensures r ==> st.chunks.Some? && st.nextchunk < |st.chunks.value|
    ensures r && st.chunks.value[|st.chunks.value| - 1].offset == 0 ==> st.nextchunk < |st.chunks.value| - 1
  {
    st.chunks.Some? && st.nextchunk < |st.chunks.value| && st.chunks.value[st.nextchunk].offset != 0
  }

  /** A chunk boundary: the sample counted now is the first of the next chunk. */
  predicate AtBoundary(st: Mp4): (r: bool)
    ensures r ==> Counted(st)
  {
    Counted(st) && st.sample == st.chunks.value[st.nextchunk].sample
  }

  /** On a table built from stco and the stashed runs, sample is counted while
      nextchunk names a real chunk with a non-zero offset, and a boundary is where
      the count reaches that chunk's first sample as the runs give it. */
  lemma BoundaryOnBuiltTable(st: Mp4, offsets: seq<nat>, runs: Option<seq<Run>>)
    requires runs.Some? ==> Ascending(runs.value)
    requires st.chunks == Some(Build(offsets, runs)) && st.nextchunk <= |offsets|
    ensures Counted(st) <==> st.nextchunk < |offsets| && offsets[st.nextchunk] != 0
    ensures AtBoundary(st) <==>
      && st.nextchunk < |offsets| && offsets[st.nextchunk] != 0
      && st.sample == (if runs.Some? then FirstSample(runs.value, st.nextchunk) else 0)
  {
  }

  /** Moving by what the decode call consumed; nothing consumed ends the stream. */
  function ByConsumed(s: Mp4, consumed: nat): (r: Advance)
    ensures r.fatal <==> consumed == 0
    ensures r.adv == consumed && r.st == s.(pos := s.pos + consumed)
  {
    Advance(s.(pos := s.pos + consumed), consumed, consumed == 0)
  }

  /** The bookkeeping after a decode call that consumed `consumed` bytes with `total`
      bytes buffered (faad.c:345-386). */
  function Reconcile(st: Mp4, consumed: nat, total: nat): (r: Advance)
    ensures r.st.pos == st.pos + r.adv
    ensures r.st.sample == if Counted(st) then st.sample + 1 else st.sample
    ensures r.st.nextchunk == if AtBoundary(st) && !r.fatal then st.nextchunk + 1 else st.nextchunk
    ensures r.fatal <==> (if AtBoundary(st) then st.chunks.value[st.nextchunk].offset <= st.pos else consumed == 0)
    ensures r.fatal ==> r.adv == 0
    ensures consumed <= total ==> r.adv <= total
    ensures r.st.chunks == st.chunks && r.st.stsc == st.stsc && r.st.trak == st.trak && r.st.play == st.play
  {
    var s := if Counted(st) then st.(sample := st.sample + 1) else st;
    if AtBoundary(st) then ToChunk(s, st.chunks.value[st.nextchunk].offset, total)
    else ByConsumed(s, consumed)
  }

  /** Moving to the next chunk, at file offset `offset`, at a chunk boundary: passed
      over now when buffered, left pending in consume otherwise; a chunk that is not
      ahead ends the stream. */
  function ToChunk(s: Mp4, offset: nat, total: nat): (r: Advance)
    ensures r.fatal <==> offset <= s.pos
    ensures !r.fatal ==> r.st.nextchunk == s.nextchunk + 1 && (r.adv > 0 <==> total >= offset - s.pos)
    ensures r.adv <= total && r.st.pos == s.pos + r.adv
  {
    if offset > s.pos then
      var skip := offset - s.pos;
      if total >= skip then Advance(s.(pos := s.pos + skip, nextchunk := s.nextchunk + 1), skip, false)
      else Advance(s.(consume := skip, nextchunk := s.nextchunk + 1), 0, false)
    else Advance(s, 0, true)
  }

  /** At a boundary the cursor lands exactly on the next chunk's offset, whatever the
      decode call consumed; a skip that is not yet buffered is left pending in full. */
  lemma BoundaryLandsOnChunk(st: Mp4, consumed: nat, total: nat)
    requires AtBoundary(st) && !Reconcile(st, consumed, total).fatal
    ensures var r := Reconcile(st, consumed, total);
      var offset := st.chunks.value[st.nextchunk].offset;
      && (r.adv > 0 <==> total >= offset - st.pos)
      && (r.adv > 0 ==> r.st.pos == offset && r.st.consume == st.consume)
      && (r.adv == 0 ==> r.st.pos == st.pos && r.st.pos + r.st.consume == offset)
  {
  }

  /** A table whose last slot is the sentinel keeps nextchunk inside itself: the
      sentinel never counts as a boundary, so it is never stepped past. */
  lemma NextChunkStaysInTable(st: Mp4, consumed: nat, total: nat)
    requires st.chunks.Some? && st.nextchunk < |st.chunks.value|
    requires st.chunks.value[|st.chunks.value| - 1].offset == 0
    ensures Reconcile(st, consumed, total).st.nextchunk < |st.chunks.value|
  {
    if AtBoundary(st) {
      assert st.nextchunk != |st.chunks.value| - 1;
    }
  }

  /** For a table built from stco, the slot after the last chunk never fires: the
      decode call's consumption is honoured and sample is not counted. */
  lemma SentinelNeverFires(st: Mp4, offsets: seq<nat>, runs: Option<seq<Run>>, consumed: nat, total: nat)
    requires runs.Some? ==> Ascending(runs.value)
    requires st.chunks == Some(Build(offsets, runs)) && st.nextchunk == |offsets|
    ensures Reconcile(st, consumed, total) == ByConsumed(st, consumed)
  {
    BuildShape(offsets, runs);
  }

  /** Frames in a decode result, samples per channel. */
  function Frames(info: FrameInfo): (f: nat)
    requires info.samples > 0 ==> info.channels >= 1
    ensures info.samples == 0 ==> f == 0
    ensures info.samples > 0 ==> f * info.channels <= info.samples < (f + 1) * info.channels
  {
    if info.samples == 0 then 0 else info.samples / info.channels
  }

  /** A decode result whose samples can be converted. */
  predicate PcmOk(info: FrameInfo)
  {
    FrameOk(info, info.bytesConsumed)
  }

  /** The 32-bit slots the write loop stores for a decode result (faad.c:401-414):
      a stereo frame is its two samples shifted up by 8 bits, a mono frame its one
      sample shifted up and stored twice; other channel counts store nothing. */
  function Pcm(info: FrameInfo): (out: seq<int>)
    requires PcmOk(info)
    ensures |out| == if info.channels == 1 || info.channels == 2 then 2 * Frames(info) else 0
    ensures forall k :: 0 <= k < |out| ==> out[k] % 0x100 == 0 && -0x8000_0000 <= out[k] < 0x8000_0000
  {
    var frames := Frames(info);
    if info.channels == 2 then seq(2 * frames, k requires 0 <= k < 2 * frames => info.pcm[k] * 0x100)
    else if info.channels == 1 then seq(2 * frames, k requires 0 <= k < 2 * frames => info.pcm[k / 2] * 0x100)
    else []
  }

  /** A mono frame carries the same sample on both outputs, and each output sample is
      recovered from its slot by the inverse shift. */
  lemma MonoDuplicated(info: FrameInfo, j: nat)
    requires PcmOk(info) && info.channels == 1 && j < Frames(info)
    ensures Pcm(info)[2 * j] == Pcm(info)[2 * j + 1]
    ensures Pcm(info)[2 * j] / 0x100 == info.pcm[j]
  {
  }

  /** Stereo frames keep the engine's interleaving: slot k holds sample k. */
  lemma StereoInterleaved(info: FrameInfo, k: nat)
    requires PcmOk(info) && info.channels == 2 && k < 2 * Frames(info)
    ensures Pcm(info)[k] / 0x100 == info.pcm[k]
  {
  }

  /** The slots the first d frames of a decode result fill: none for a channel
      count the write loop does not convert. */
  function Slots(info: FrameInfo, d: nat): (s: seq<int>)
    requires PcmOk(info) && d <= Frames(info)
    ensures |s| == if info.channels == 1 || info.channels == 2 then 2 * d else 0
    ensures s == Pcm(info)[..|s|]
  {
    if info.channels == 1 || info.channels == 2 then Pcm(info)[..2 * d] else []
  }

  /** after is before with out written round the ring from slot w0 on: the slot
      lying k after w0 holds out[k] for every k below |out|, every other slot is
      left as it was. */
  ghost predicate Wrote(before: seq<int>, after: seq<int>, w0: nat, out: seq<int>)
  {
    && |after| == |before| && w0 < |before| && |out| <= |before|
    && forall i :: 0 <= i < |before| ==>
         after[i] == if Dist(w0, i, |before|) < |out| then out[Dist(w0, i, |before|)] else before[i]
  }

  /** The bytes handed to NeAACDecDecode (faad.c:325-339): the stitched copy when
      the buffered data wraps with fewer than WRAPBUF_LEN bytes in place and more
      than that in all, otherwise the contiguous bytes at readp. */
  function DecodeInput(sb: StreamBuffer): (input: seq<byte>)
    reads sb
    requires sb.Valid()
    ensures |input| <= sb.used
  {
    if sb.ContRead() < WRAPBUF_LEN && sb.used > WRAPBUF_LEN then Stitch(sb) else sb.View()
  }

  /** How many bytes NeAACDecDecode is handed from a ring of n storage bytes read at
      readp with used bytes buffered (faad.c:325-339): WRAPBUF_LEN when the buffered
      bytes wrap with fewer than that in place and more in all, otherwise the
      contiguous ones. */
  function InputLen(n: nat, readp: nat, used: nat): (k: nat)
    requires readp < n && used <= n
    ensures k <= used && k >= ContReadAt(n, readp, used)
  {
    var wrap := ContReadAt(n, readp, used);
    if wrap < WRAPBUF_LEN && used > WRAPBUF_LEN then WRAPBUF_LEN else wrap
  }

  /** Either way the engine sees the next InputLen buffered bytes in stream order,
      and a wrapped stream never starves it of a whole WRAPBUF_LEN bytes. */
  lemma DecodeInputIsNextBytes(sb: StreamBuffer)
    requires sb.Valid()
    ensures |DecodeInput(sb)| == InputLen(|sb.buf|, sb.readp, sb.used)
    ensures DecodeInput(sb) == sb.Contents()[..|DecodeInput(sb)|]
    ensures |DecodeInput(sb)| >= sb.ContRead()
  {
    if sb.ContRead() < WRAPBUF_LEN && sb.used > WRAPBUF_LEN {
      StitchIsFront(sb);
    } else {
      assert forall k :: 0 <= k < |sb.View()| ==> sb.View()[k] == sb.Contents()[k];
    }
  }

  /** How far slot Wrap(w0 + k) lies after w0 is k. */
  lemma DistOfWrap(w0: nat, k: nat, n: nat)
    requires w0 < n && k < n
    ensures Dist(w0, Wrap(w0 + k, n), n) == k
  {
  }

  /** Reading a written ring back: out[k] sits k slots after w0. */
  lemma WroteSlot(before: seq<int>, after: seq<int>, w0: nat, out: seq<int>, k: nat)
    requires Wrote(before, after, w0, out) && k < |out|
    ensures after[Wrap(w0 + k, |before|)] == out[k]
  {
    DistOfWrap(w0, k, |before|);
  }

  /** Writing 2 * f more slots of out at wp, the slot right after the 2 * d already
      written, in a stretch that does not reach the end of the storage. */
  lemma WroteExtend(before: seq<int>, mid: seq<int>, after: seq<int>, w0: nat, out: seq<int>,
                    d: nat, f: nat, wp: nat)
    requires 2 * d + 2 * f <= |out| <= |before| && w0 < |before|
    requires Wrote(before, mid, w0, out[..2 * d])
    requires wp == Wrap(w0 + 2 * d, |before|) && wp + 2 * f <= |before| && |after| == |before|
    requires forall j :: wp <= j < wp + 2 * f ==> after[j] == out[2 * d + (j - wp)]
    requires forall i :: 0 <= i < |before| && !(wp <= i < wp + 2 * f) ==> after[i] == mid[i]
    ensures Wrote(before, after, w0, out[..2 * d + 2 * f])
  {
    var n := |before|;
    forall i | 0 <= i < n
      ensures after[i] == if Dist(w0, i, n) < 2 * d + 2 * f then out[Dist(w0, i, n)] else before[i]
    {
      var e := Dist(w0, i, n);
      if wp <= i < wp + 2 * f {
        assert e == 2 * d + (i - wp);
      } else {
        assert !(2 * d <= e < 2 * d + 2 * f);
        assert mid[i] == if e < 2 * d then out[..2 * d][e] else before[i];
      }
    }
  }
}
