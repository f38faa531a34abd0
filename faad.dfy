/**
 * The AAC codec plugin proper: its context (struct faad, faad.c:34-54, with the
 * function-static counters of read_mp4_header and faad_decode made fields), the
 * incremental header reader, the decode tick, and open/close.
 */
module FaadCodec {
  import opened Common
  import opened ChunkTable
  import opened Engine
  import opened Boxes
  import opened Buffers
  import opened Driver

  /** The decoder thread's state as far as this plugin changes it. */
  datatype DecodeState = DecodeRunning | DecodeError

  /** The shared decode record: new_stream and state. */
  class DecodeStatus {
    var newStream: bool
    var state: DecodeState
  }

  /** The shared output record: the rate of the coming track and where it starts. */
  class OutputStatus {
    var nextSampleRate: nat
    var trackStart: nat
  }

  class Faad {
    /** '2' for an ADTS stream, anything else for MP4. */
    var streamType: char
    var consume: nat
    var pos: nat
    var sample: nat
    var nextchunk: nat
    var stsc: Option<seq<byte>>
    /** The chunk table once an stco box has been read; it is only read afterwards. */
    var chunkinfo: Option<Table>
    var trak: nat
    var play: nat
    var samplerate: nat
    var channels: nat
    /** Whether an engine handle is open, and the configuration set on it. */
    var engineOpen: bool
    var format24: bool
    var downMatrix: bool

    /** The parser's view of this context. */
    function State(): Mp4
      reads this
    {
      Mp4(pos, consume, trak, play, stsc, chunkinfo, sample, nextchunk, samplerate, channels)
    }

    /** Nothing outside the parser's state has changed. */
    twostate predicate SameSetup()
      reads this
    {
      streamType == old(streamType) && engineOpen == old(engineOpen)
      && format24 == old(format24) && downMatrix == old(downMatrix)
    }

    constructor ()
      ensures !engineOpen && chunkinfo.None? && stsc.None?
    {
      streamType := '2';
      consume, pos, sample, nextchunk := 0, 0, 0, 0;
      stsc, chunkinfo := None, None;
      trak, play, samplerate, channels := 0, 0, 0, 0;
      engineOpen, format24, downMatrix := false, false, false;
    }

    /** faad_open (faad.c:425-453): a new stream resets the cursors and drops the
        tables, and the engine is reopened for 24-bit output with downmixing. The
        track counters and the last reported rate and channels are kept. */
    method Open(size: char)
      modifies this
      ensures streamType == size && pos == 0 && consume == 0 && sample == 0 && nextchunk == 0
      ensures chunkinfo.None? && stsc.None?
      ensures engineOpen && format24 && downMatrix
      ensures trak == old(trak) && play == old(play)
      ensures samplerate == old(samplerate) && channels == old(channels)
    {
      streamType := size;
      pos, consume, sample, nextchunk := 0, 0, 0, 0;
      chunkinfo := None;
      stsc := None;
      engineOpen := true;
      format24, downMatrix := true, true;
    }

    /** faad_close (faad.c:455-466): the engine is closed and the tables dropped. */
    method Close()
      modifies this
      ensures !engineOpen && chunkinfo.None? && stsc.None?
      ensures streamType == old(streamType) && pos == old(pos) && consume == old(consume)
      ensures sample == old(sample) && nextchunk == old(nextchunk)
      ensures trak == old(trak) && play == old(play)
      ensures samplerate == old(samplerate) && channels == old(channels)
      ensures format24 == old(format24) && downMatrix == old(downMatrix)
    {
      engineOpen := false;
      chunkinfo := None;
      stsc := None;
    }

    /** _buf_inc_readp followed by the matching increase of pos. */
    method Advance(sb: StreamBuffer, n: nat)
      requires sb.Valid() && n <= sb.used
      modifies this, sb
      ensures sb.Valid() && sb.Consumed() && SameSetup()
      ensures State() == old(State()).(pos := old(pos) + n)
      ensures sb.Contents() == old(sb.Contents())[n..] && sb.readp == Wrap(old(sb.readp) + n, |sb.buf|)
      ensures sb.used == old(sb.used) - n
      ensures n < |old(sb.View())| ==> sb.View() == old(sb.View())[n..]
    {
      sb.IncReadp(n);
      pos := pos + n;
    }

    /** Moves the read cursor and pos together by n bytes of the view v. */
    method Skip(sb: StreamBuffer, ghost v: seq<byte>, n: nat)
      requires sb.Valid() && ViewAt(sb.buf, sb.readp, sb.used, v) && n <= |v|
      modifies this, sb
      ensures sb.Valid() && sb.Consumed() && SameSetup()
      ensures State() == old(State()).(pos := old(pos) + n)
      ensures ViewAt(sb.buf, sb.readp, sb.used, v[n..]) && sb.Contents() == old(sb.Contents())[n..]
    {
      ViewDrop(sb.buf, sb.readp, sb.used, v, n);
      Advance(sb, n);
    }

    /** The consuming tail of a header pass (faad.c:219-243). */
    method ConsumeBox(sb: StreamBuffer, v: seq<byte>, t: BoxType, len: nat)
      returns (stop: bool, n: nat, code: int)
      requires sb.Valid() && ViewAt(sb.buf, sb.readp, sb.used, v)
      modifies this, sb
      ensures sb.Valid() && sb.Consumed() && SameSetup()
      ensures var r := Finish(old(State()), t, len, |v|);
        State() == r.st && stop == r.Stop? && n == r.adv && (stop ==> code == r.code)
      ensures ViewAt(sb.buf, sb.readp, sb.used, v[n..]) && sb.Contents() == old(sb.Contents())[n..]
    {
      var c := len;
      if IsContainer(t) {
        c := 8;
      }
      if t == Stsd {
        c := 16;
      }
      if t == Mp4a {
        c := 36;
      }
      stop, n, code := Take(sb, v, t, len, c);
    }

    /** Consuming the c bytes of a pass, or as many as are buffered for a box
        the parser does not read into (faad.c:229-243). */
    method Take(sb: StreamBuffer, v: seq<byte>, t: BoxType, len: nat, c: nat)
      returns (stop: bool, n: nat, code: int)
      requires sb.Valid() && ViewAt(sb.buf, sb.readp, sb.used, v) && c == ConsumeFor(t, len)
      modifies this, sb
      ensures sb.Valid() && sb.Consumed() && SameSetup()
      ensures var r := Finish(old(State()), t, len, |v|);
        State() == r.st && stop == r.Stop? && n == r.adv && (stop ==> code == r.code)
      ensures ViewAt(sb.buf, sb.readp, sb.used, v[n..]) && sb.Contents() == old(sb.Contents())[n..]
    {
      if |v| >= c {
        Skip(sb, v, c);
        return false, c, 0;
      } else if !Interpreted(t) {
        Skip(sb, v, |v|);
        consume := c - |v|;
        return true, |v|, 0;
      } else {
        return true, 0, 0;
      }
    }

    /** The mdat branch (faad.c:195-217). */
    method MdatBox(sb: StreamBuffer, v: seq<byte>) returns (n: nat, code: int)
      requires sb.Valid() && |v| >= 8 && ViewAt(sb.buf, sb.readp, sb.used, v)
      modifies this, sb
      ensures sb.Valid() && sb.Consumed() && SameSetup()
      ensures var r := MdatStep(old(State()), |v| - 8);
        State() == r.st && n == r.adv && code == r.code
      ensures ViewAt(sb.buf, sb.readp, sb.used, v[n..]) && sb.Contents() == old(sb.Contents())[n..]
    {
      Skip(sb, v, 8);
      if play != 0 {
        var k := SeekChunk(sb, v[8..]);
        assert v[8..][k..] == v[8 + k..];
        sample, nextchunk := 1, 1;
        return 8 + k, 1;
      } else {
        return 8, -1;
      }
    }

    /** Positioning on the first chunk after an mdat header (faad.c:199-212):
        skipped now if buffered in w, otherwise recorded in consume. */
    method SeekChunk(sb: StreamBuffer, w: seq<byte>) returns (k: nat)
      requires sb.Valid() && ViewAt(sb.buf, sb.readp, sb.used, w)
      modifies this, sb
      ensures sb.Valid() && sb.Consumed() && SameSetup()
      ensures var r := ToFirstChunk(old(State()), |w|);
        State() == r.0 && k == r.1
      ensures ViewAt(sb.buf, sb.readp, sb.used, w[k..]) && sb.Contents() == old(sb.Contents())[k..]
    {
      k := 0;
      if chunkinfo.Some? && chunkinfo.value[0].offset > pos {
        var skip := chunkinfo.value[0].offset - pos;
        if skip <= |w| {
          Skip(sb, w, skip);
          k := skip;
        } else {
          consume := skip;
        }
      }
    }

    /** A configuration NeAACDecInit2 accepted makes the current track the
        playable one and records its rate and channel count (faad.c:129-132). */
    method Configured(config: Option<AudioConfig>)
      modifies this
      ensures SameSetup() && State() == Configure(old(State()), config)
    {
      if config.Some? {
        play := trak;
        samplerate, channels := config.value.rate, config.value.channels;
      }
    }

    /** The esds branch (faad.c:114-133) and the consuming tail. */
    method EsdsBox(sb: StreamBuffer, v: seq<byte>, found: EsdsFind, len: nat,
                   init2: seq<byte> -> Option<AudioConfig>)
      returns (stop: bool, n: nat, code: int)
      requires sb.Valid() && |v| > len && ViewAt(sb.buf, sb.readp, sb.used, v)
      requires found.Config? ==> found.start + found.size <= |v|
      modifies this, sb
      ensures sb.Valid() && sb.Consumed() && SameSetup()
      ensures var r := EsdsApply(old(State()), v, found, len, init2);
        State() == r.st && stop == r.Stop? && n == r.adv && (stop ==> code == r.code)
      ensures ViewAt(sb.buf, sb.readp, sb.used, v[n..]) && sb.Contents() == old(sb.Contents())[n..]
    {
      if !found.Config? {
        return true, 0, -1;
      }
      var config := init2(v[found.start..found.start + found.size]);
      Configured(config);
      assert EsdsApply(old(State()), v, found, len, init2) == Finish(State(), Esds, len, |v|);
      stop, n, code := ConsumeBox(sb, v, Esds, len);
    }

    /** The stsc branch (faad.c:136-143) and the consuming tail. */
    method StscBox(sb: StreamBuffer, v: seq<byte>, len: nat) returns (stop: bool, n: nat, code: int)
      requires sb.Valid() && |v| > len && ViewAt(sb.buf, sb.readp, sb.used, v)
      modifies this, sb
      ensures sb.Valid() && sb.Consumed() && SameSetup()
      ensures var r := StscStep(old(State()), v, len);
        State() == r.st && stop == r.Stop? && n == r.adv && (stop ==> code == r.code)
      ensures ViewAt(sb.buf, sb.readp, sb.used, v[n..]) && sb.Contents() == old(sb.Contents())[n..]
    {
      if len < 12 {
        return true, 0, -1;
      }
      stsc := Some(v[12..len]);
      stop, n, code := ConsumeBox(sb, v, Stsc, len);
    }

    /** The stco branch (faad.c:146-192) and the consuming tail: the table of the
        playable track is built from the box and the stashed stsc payload, which is
        then dropped. */
    method StcoBox(sb: StreamBuffer, v: seq<byte>, len: nat) returns (stop: bool, n: nat, code: int)
      requires sb.Valid() && |v| >= 8 && ViewAt(sb.buf, sb.readp, sb.used, v)
      modifies this, sb
      ensures sb.Valid() && sb.Consumed() && SameSetup()
      ensures var r := StcoStep(old(State()), v, len);
        State() == r.st && stop == r.Stop? && n == r.adv && (stop ==> code == r.code)
      ensures ViewAt(sb.buf, sb.readp, sb.used, v[n..]) && sb.Contents() == old(sb.Contents())[n..]
    {
      if !StcoFits(v) || !StashUsable(stsc, Be32(v, 12)) {
        return true, 0, -1;
      }
      var t := BuildChunkTable(v, stsc);
      chunkinfo := Some(t[..]);
      stsc := None;
      stop, n, code := ConsumeBox(sb, v, Stco, len);
    }

    /** One pass of the loop of read_mp4_header (faad.c:98-243) on the bytes v at
        readp: the track counters, then the branch for the box type. */
    method Pass(sb: StreamBuffer, v: seq<byte>, init2: seq<byte> -> Option<AudioConfig>)
      returns (stop: bool, n: nat, code: int)
      requires sb.Valid() && |v| >= 8 && ViewAt(sb.buf, sb.readp, sb.used, v)
      modifies this, sb
      ensures sb.Valid() && sb.Consumed() && SameSetup()
      ensures var r := BoxStep(old(State()), v, init2);
        State() == r.st && stop == r.Stop? && n == r.adv && (stop ==> code == r.code)
      ensures ViewAt(sb.buf, sb.readp, sb.used, v[n..]) && sb.Contents() == old(sb.Contents())[n..]
    {
      var len := Be32(v, 0);
      var t := TypeOf(Be32(v, 4));
      if t == Moov {
        trak, play := 0, 0;
      }
      if t == Trak {
        trak := trak + 1;
      }
      assert State() == Count(old(State()), t);
      stop, n, code := Interpret(sb, v, init2);
    }

    /** The branch of a pass for the box type (faad.c:114-243). */
    method Interpret(sb: StreamBuffer, v: seq<byte>, init2: seq<byte> -> Option<AudioConfig>)
      returns (stop: bool, n: nat, code: int)
      requires sb.Valid() && |v| >= 8 && ViewAt(sb.buf, sb.readp, sb.used, v)
      modifies this, sb
      ensures sb.Valid() && sb.Consumed() && SameSetup()
      ensures var r := Branch(old(State()), v, init2);
        State() == r.st && stop == r.Stop? && n == r.adv && (stop ==> code == r.code)
      ensures ViewAt(sb.buf, sb.readp, sb.used, v[n..]) && sb.Contents() == old(sb.Contents())[n..]
    {
      var len := Be32(v, 0);
      var t := TypeOf(Be32(v, 4));
      if t == Esds && |v| > len {
        var found := ReadEsds(v);
        stop, n, code := EsdsBox(sb, v, found, len, init2);
      } else if t == Stsc && |v| > len && chunkinfo.None? {
        stop, n, code := StscBox(sb, v, len);
      } else if t == Stco && |v| > len && play == trak {
        stop, n, code := StcoBox(sb, v, len);
      } else if t == Mdat {
        n, code := MdatBox(sb, v);
        stop := true;
      } else {
        stop, n, code := ConsumeBox(sb, v, t, len);
      }
    }

    /** After adv of the bytes v0 have been read, the rest of the header read is
        still headed for the outcome goal of reading all of them. */
    ghost predicate OnTrack(sb: StreamBuffer, v0: seq<byte>, adv: nat, goal: Outcome,
                            init2: seq<byte> -> Option<AudioConfig>)
      reads this, sb
      requires sb.Valid()
    {
      && adv <= |v0| && ViewAt(sb.buf, sb.readp, sb.used, v0[adv..])
      && Resume(State(), v0[adv..], adv, init2) == goal
    }

    /** The body of the loop of read_mp4_header, seen from Parse: c0 is what the
        stream buffer held when the loop began. */
    method HeaderStep(sb: StreamBuffer, bytes: nat, init2: seq<byte> -> Option<AudioConfig>,
                      ghost v0: seq<byte>, ghost adv: nat, ghost goal: Outcome, ghost c0: seq<byte>)
      returns (stop: bool, n: nat, code: int, ghost adv': nat)
      requires sb.Valid() && bytes >= 8 && adv + bytes == |v0|
      requires OnTrack(sb, v0, adv, goal, init2)
      requires adv <= |c0| && sb.Contents() == c0[adv..]
      modifies this, sb
      ensures sb.Valid() && sb.Consumed() && SameSetup()
      ensures adv' == adv + n && n <= bytes && adv' <= |c0| && sb.Contents() == c0[adv'..]
      ensures stop ==> code == goal.code && State() == goal.st && adv + n == goal.adv
      ensures !stop && n == 0 ==> goal.code == -1 && State() == goal.st && adv == goal.adv
      ensures !stop && n > 0 ==> OnTrack(sb, v0, adv', goal, init2)
    {
      var v := sb.buf[sb.readp..sb.readp + bytes];
      assert v == v0[adv..];
      ResumeStep(State(), v0, adv, init2);
      ghost var before := sb.Contents();
      stop, n, code := Pass(sb, v, init2);
      adv' := adv + n;
      assert v[n..] == v0[adv'..];
      assert before[n..] == c0[adv'..];
    }

    /** Once fewer than 8 bytes are left the parse headed for goal has arrived. */
    lemma Arrived(sb: StreamBuffer, v0: seq<byte>, adv: nat, goal: Outcome,
                  init2: seq<byte> -> Option<AudioConfig>)
      requires sb.Valid() && OnTrack(sb, v0, adv, goal, init2) && |v0| - adv < 8
      ensures goal.code == 0 && State() == goal.st && adv == goal.adv
    {
      ParseShort(State(), v0[adv..], init2);
    }

    /** read_mp4_header (faad.c:92-247): reads boxes from the contiguous bytes at
        readp until the header is complete (1), fails (-1) or needs more data (0).
        A box that would consume nothing fails the header instead of repeating. */
    method ReadMp4Header(sb: StreamBuffer, init2: seq<byte> -> Option<AudioConfig>) returns (found: int)
      requires sb.Valid()
      modifies this, sb
      ensures sb.Valid() && sb.Consumed() && SameSetup()
      ensures var r := Parse(old(State()), old(sb.View()), init2);
        found == r.code && State() == r.st && sb.Contents() == old(sb.Contents())[r.adv..]
    {
      ghost var goal := Parse(State(), sb.View(), init2);
      found := ReadBoxes(sb, init2, sb.View(), goal);
    }

    /** The loop of read_mp4_header, headed for the outcome goal of parsing v0. */
    method ReadBoxes(sb: StreamBuffer, init2: seq<byte> -> Option<AudioConfig>,
                     ghost v0: seq<byte>, ghost goal: Outcome) returns (found: int)
      requires sb.Valid() && v0 == sb.View() && OnTrack(sb, v0, 0, goal, init2)
      modifies this, sb
      ensures sb.Valid() && sb.Consumed() && SameSetup()
      ensures found == goal.code && State() == goal.st && sb.Contents() == old(sb.Contents())[goal.adv..]
    {
      var bytes: nat := Min(sb.used, sb.ContRead());
      ghost var adv: nat := 0;
      ghost var c0 := sb.Contents();
      while bytes >= 8
        invariant sb.Valid() && sb.Consumed() && SameSetup()
        invariant adv + bytes == |v0| && adv <= |c0|
        invariant OnTrack(sb, v0, adv, goal, init2)
        invariant sb.Contents() == c0[adv..]
        decreases bytes
      {
        var stop, n, code, adv' := HeaderStep(sb, bytes, init2, v0, adv, goal, c0);
        if stop {
          return code;
        }
        if n == 0 {
          return -1;
        }
        bytes := bytes - n;
        adv := adv';
      }
      Arrived(sb, v0, adv, goal, init2);
      return 0;
    }

    /** A pending skip is paid from the contiguous bytes, and nothing else happens
        in this tick (faad.c:254-262). */
    method PaySkip(sb: StreamBuffer)
      requires sb.Valid() && consume > 0
      modifies this, sb
      ensures sb.Valid() && sb.Consumed() && SameSetup()
      ensures var c := Min(old(consume), |old(sb.View())|);
        State() == old(State()).(pos := old(pos) + c, consume := old(consume) - c)
        && sb.Contents() == old(sb.Contents())[c..]
    {
      var c := Min(consume, Min(sb.used, sb.ContRead()));
      Advance(sb, c);
      consume := consume - c;
    }

    /** NeAACDecInit on the contiguous bytes at an ADTS sync (faad.c:278-285): a
        negative result fails the header, otherwise the bytes it used are passed
        and the reported rate and channels kept. pos is not moved. */
    method AdtsInit(sb: StreamBuffer, e: Engine) returns (found: int)
      requires sb.Valid() && Behaves(e) && |sb.View()| >= 2
      modifies this, sb
      ensures sb.Valid() && sb.Consumed() && SameSetup()
      ensures var r := e.init(old(sb.View()));
        if r.n < 0 then found == -1 && State() == old(State()) && sb.Contents() == old(sb.Contents())
        else found == 1 && State() == old(State()).(rate := r.config.rate, channels := r.config.channels)
             && sb.Contents() == old(sb.Contents())[r.n..]
    {
      var r := e.init(sb.View());
      if r.n < 0 {
        return -1;
      }
      sb.IncReadp(r.n);
      samplerate, channels := r.config.rate, r.config.channels;
      return 1;
    }

    /** Header detection of an ADTS stream (faad.c:269-285): the sync scan, then
        NeAACDecInit when at least two bytes are left. */
    method AdtsHeader(sb: StreamBuffer, e: Engine) returns (found: int, ghost skipped: nat)
      requires sb.Valid() && Behaves(e)
      modifies this, sb
      ensures sb.Valid() && sb.Consumed() && SameSetup()
      ensures skipped == SyncSkip(old(sb.View()))
      ensures var r := AdtsDetect(old(State()), old(sb.View()), e);
        found == r.code && State() == r.st && sb.Contents() == old(sb.Contents())[r.adv..]
    {
      ghost var v0 := sb.View();
      ghost var c0 := sb.Contents();
      ghost var st0 := State();
      skipped := ScanAdts(sb);
      found := AdtsAfterScan(sb, e);
      AdtsDetectStaged(st0, v0, c0, e, skipped, found, State(), sb.Contents());
    }

    /** What follows the sync scan (faad.c:278-285): NeAACDecInit on the
        contiguous bytes when at least two are left, nothing otherwise. */
    method AdtsAfterScan(sb: StreamBuffer, e: Engine) returns (found: int)
      requires sb.Valid() && Behaves(e)
      modifies this, sb
      ensures sb.Valid() && sb.Consumed() && SameSetup()
      ensures |old(sb.View())| < 2 ==>
        found == 0 && State() == old(State()) && sb.Contents() == old(sb.Contents())
      ensures |old(sb.View())| >= 2 ==> var r := e.init(old(sb.View()));
        if r.n < 0 then found == -1 && State() == old(State()) && sb.Contents() == old(sb.Contents())
        else found == 1 && State() == old(State()).(rate := r.config.rate, channels := r.config.channels)
             && sb.Contents() == old(sb.Contents())[r.n..]
    {
      var bytes := Min(sb.used, sb.ContRead());
      if bytes >= 2 {
        found := AdtsInit(sb, e);
      } else {
        found := 0;
      }
    }

    /** The chunk-boundary bookkeeping after a decode call that consumed `consumed`
        bytes (faad.c:345-386); fatal is the endstream flag. */
    method EndOfChunk(sb: StreamBuffer, consumed: nat) returns (fatal: bool)
      requires sb.Valid() && consumed <= sb.used
      modifies this, sb
      ensures sb.Valid() && sb.Consumed() && SameSetup()
      ensures var a := Reconcile(old(State()), consumed, old(sb.used));
        State() == a.st && fatal == a.fatal && sb.Contents() == old(sb.Contents())[a.adv..]
    {
      var boundary := false;
      var offset := 0;
      if chunkinfo.Some? && nextchunk < |chunkinfo.value| && chunkinfo.value[nextchunk].offset != 0 {
        boundary := sample == chunkinfo.value[nextchunk].sample;
        offset := chunkinfo.value[nextchunk].offset;
        sample := sample + 1;
      }
      if boundary {
        fatal := NextChunk(sb, offset);
      } else {
        fatal := consumed == 0;
        if !fatal {
          Advance(sb, consumed);
        }
      }
    }

    /** The boundary case of EndOfChunk (faad.c:356-375). */
    method NextChunk(sb: StreamBuffer, offset: nat) returns (fatal: bool)
      requires sb.Valid()
      modifies this, sb
      ensures sb.Valid() && sb.Consumed() && SameSetup()
      ensures var a := ToChunk(old(State()), offset, old(sb.used));
        State() == a.st && fatal == a.fatal && sb.Contents() == old(sb.Contents())[a.adv..]
    {
      fatal := false;
      if offset > pos {
        var skip := offset - pos;
        if sb.used >= skip {
          Advance(sb, skip);
        } else {
          consume := skip;
        }
        nextchunk := nextchunk + 1;
      } else {
        fatal := true;
      }
    }

    /** One decode step (faad.c:322-386): the engine is handed the stitched or the
        contiguous bytes, then the cursors are reconciled. */
    method DecodeFrame(sb: StreamBuffer, e: Engine) returns (info: FrameInfo, fatal: bool, input: seq<byte>)
      requires sb.Valid() && Behaves(e)
      modifies this, sb
      ensures sb.Valid() && sb.Consumed() && SameSetup()
      ensures input == old(DecodeInput(sb)) && info == e.decode(input) && FrameOk(info, |input|)
      ensures var a := Reconcile(old(State()), info.bytesConsumed, old(sb.used));
        State() == a.st && fatal == a.fatal && sb.Contents() == old(sb.Contents())[a.adv..]
    {
      input := ReadInput(sb);
      info := e.decode(input);
      assert FrameOk(info, |input|);
      fatal := EndOfChunk(sb, info.bytesConsumed);
    }

    /** Header detection for a new stream and what its result sets (faad.c:264-320):
        on success the output learns the sample rate and where the track starts,
        on failure the decoder is put in error. */
    method NewStream(sb: StreamBuffer, ob: OutputBuffer, ds: DecodeStatus, os: OutputStatus, e: Engine)
      returns (found: int)
      requires sb.Valid() && ob.Valid() && Behaves(e) && ds.newStream
      modifies this, sb, ds, os
      ensures sb.Valid() && sb.Consumed() && SameSetup()
      ensures var r := Detect(streamType, old(State()), old(sb.View()), e);
        && found == r.code && State() == r.st && sb.Contents() == old(sb.Contents())[r.adv..]
        && sb.readp == Wrap(old(sb.readp) + r.adv, |sb.buf|) && sb.used == old(sb.used) - r.adv
      ensures found == 1 ==>
        (!ds.newStream && ds.state == old(ds.state) && os.nextSampleRate == samplerate
         && os.trackStart == ob.writep)
      ensures found == -1 ==>
        (ds.newStream && ds.state == DecodeError && os.nextSampleRate == old(os.nextSampleRate)
         && os.trackStart == old(os.trackStart))
      ensures found == 0 ==>
        (ds.newStream && ds.state == old(ds.state) && os.nextSampleRate == old(os.nextSampleRate)
         && os.trackStart == old(os.trackStart))
    {
      found := DetectHeader(sb, e);
      if found == 1 {
        os.nextSampleRate := samplerate;
        os.trackStart := ob.writep;
        ds.newStream := false;
      } else if found == -1 {
        ds.state := DecodeError;
      }
    }

    /** Header detection by stream type (faad.c:269-292): the ADTS sync scan and
        NeAACDecInit, or read_mp4_header. The read cursor moves past the bytes used. */
    method DetectHeader(sb: StreamBuffer, e: Engine) returns (found: int)
      requires sb.Valid() && Behaves(e)
      modifies this, sb
      ensures sb.Valid() && sb.Consumed() && SameSetup()
      ensures var r := Detect(streamType, old(State()), old(sb.View()), e);
        && found == r.code && State() == r.st && sb.Contents() == old(sb.Contents())[r.adv..]
        && sb.readp == Wrap(old(sb.readp) + r.adv, |sb.buf|) && sb.used == old(sb.used) - r.adv
    {
      if streamType == '2' {
        ghost var skipped;
        found, skipped := AdtsHeader(sb, e);
      } else {
        found := ReadMp4Header(sb, e.init2);
      }
    }

    /** The decode part of a tick (faad.c:322-420): one engine call, the cursor
        bookkeeping, then either the error state or the samples written out. */
    method DecodeStep(sb: StreamBuffer, ob: OutputBuffer, ds: DecodeStatus, e: Engine) returns (ghost t: Tick)
      requires sb.Valid() && ob.Valid() && Behaves(e) && 4 * ob.space >= MIN_SPACE
      modifies this, sb, ob, ob.buf, ds
      ensures sb.Valid() && ob.Valid() && sb.Consumed() && ob.buf == old(ob.buf)
      ensures SameSetup() && ds.newStream == old(ds.newStream)
      ensures Decoding(e, t, old(State()), old(sb.Contents()), State(), sb.Contents(), old(ds.state), ds.state,
                       old(ob.writep), ob.writep, old(ob.space), ob.space, old(ob.buf[..]), ob.buf[..])
      ensures |t.input| == InputLen(|old(sb.buf)|, old(sb.readp), old(sb.used))
      ensures t.input == old(DecodeInput(sb))
    {
      ghost var before := State();
      ghost var total := sb.used;
      DecodeInputIsNextBytes(sb);
      var info, fatal, input := DecodeFrame(sb, e);
      if fatal {
        ds.state := DecodeError;
        return Fatal(before, total, input, info);
      }
      if info.samples > 0 {
        WritePcm(ob, info);
      }
      return Decoded(before, total, input, info);
    }

    /** faad_decode (faad.c:249-423): one tick of the decoder thread. The caller
        runs it only with at least MIN_SPACE bytes of output space free. A pending
        skip is paid first and ends the tick. */
    method Decode(sb: StreamBuffer, ob: OutputBuffer, ds: DecodeStatus, os: OutputStatus, e: Engine)
      returns (ghost t: Tick)
      requires sb.Valid() && ob.Valid() && Behaves(e) && 4 * ob.space >= MIN_SPACE
      modifies this, sb, ob, ob.buf, ds, os
      ensures sb.Valid() && ob.Valid() && sb.Consumed() && ob.buf == old(ob.buf)
      ensures SameSetup()
      ensures t.Skipped? <==> old(consume) > 0
      ensures t.Skipped? ==>
        (&& ds.newStream == old(ds.newStream) && ds.state == old(ds.state)
         && os.nextSampleRate == old(os.nextSampleRate) && os.trackStart == old(os.trackStart)
         && ob.writep == old(ob.writep) && ob.space == old(ob.space) && ob.buf[..] == old(ob.buf[..])
         && var c := Min(old(consume), |old(sb.View())|);
            State() == old(State()).(pos := old(pos) + c, consume := old(consume) - c)
            && sb.Contents() == old(sb.Contents())[c..])
      ensures !t.Skipped? ==> Ticked(sb, ob, ds, os, e, t)
    {
      if consume > 0 {
        PaySkip(sb);
        return Skipped;
      }
      t := Proceed(sb, ob, ds, os, e);
    }

    /** What a tick without a pending skip does: header detection while the stream
        is new, then, once a header is found, one decode call on the bytes and the
        state the detection left. */
    twostate predicate Ticked(sb: StreamBuffer, ob: OutputBuffer, ds: DecodeStatus, os: OutputStatus,
                              e: Engine, t: Tick)
      reads this, sb, ob, ob.buf, ds, os
      requires old(sb.Valid()) && sb.Valid() && Behaves(e)
      requires old(ob.Valid()) && old(4 * ob.space >= MIN_SPACE) && ob.buf == old(ob.buf)
    {
      var h := Detect(old(streamType), old(State()), old(sb.View()), e);
      var start := if old(ds.newStream) then h.st else old(State());
      var rest := if old(ds.newStream) then old(sb.Contents())[h.adv..] else old(sb.Contents());
      var readp := if old(ds.newStream) then Wrap(old(sb.readp) + h.adv, |old(sb.buf)|) else old(sb.readp);
      var inLen := InputLen(|old(sb.buf)|, readp, |rest|);
      && (t.Waiting? || t.HeaderFailed? ==>
           && old(ds.newStream) && ds.newStream && State() == h.st && sb.Contents() == rest
           && os.nextSampleRate == old(os.nextSampleRate) && os.trackStart == old(os.trackStart))
      && (t.Waiting? ==> h.code == 0 && ds.state == old(ds.state))
      && (t.HeaderFailed? ==> h.code == -1 && ds.state == DecodeError)
      && (t.Fatal? || t.Decoded? ==>
           && !ds.newStream
           && (old(ds.newStream) ==> h.code == 1 && os.nextSampleRate == h.st.rate
                                     && os.trackStart == old(ob.writep))
           && (!old(ds.newStream) ==> os.nextSampleRate == old(os.nextSampleRate)
                                      && os.trackStart == old(os.trackStart))
           && (!old(ds.newStream) ==> t.input == old(DecodeInput(sb)))
           && |t.input| == inLen
           && Decoding(e, t, start, rest, State(), sb.Contents(), old(ds.state), ds.state,
                       old(ob.writep), ob.writep, old(ob.space), ob.space, old(ob.buf[..]), ob.buf[..]))
      && (!t.Decoded? ==>
           ob.writep == old(ob.writep) && ob.space == old(ob.space) && ob.buf[..] == old(ob.buf[..]))
    }

    /** The tick once no skip is pending (faad.c:264-423). */
    method Proceed(sb: StreamBuffer, ob: OutputBuffer, ds: DecodeStatus, os: OutputStatus, e: Engine)
      returns (ghost t: Tick)
      requires sb.Valid() && ob.Valid() && Behaves(e) && 4 * ob.space >= MIN_SPACE
      modifies this, sb, ob, ob.buf, ds, os
      ensures sb.Valid() && ob.Valid() && sb.Consumed() && ob.buf == old(ob.buf)
      ensures SameSetup()
      ensures !t.Skipped? && Ticked(sb, ob, ds, os, e, t)
    {
      if ds.newStream {
        t := Detected(sb, ob, ds, os, e);
      } else {
        t := DecodeStep(sb, ob, ds, e);
      }
    }

    /** The tick of a new stream: header detection, then one decode call once
        the header is found (faad.c:264-423). */
    method Detected(sb: StreamBuffer, ob: OutputBuffer, ds: DecodeStatus, os: OutputStatus, e: Engine)
      returns (ghost t: Tick)
      requires sb.Valid() && ob.Valid() && Behaves(e) && 4 * ob.space >= MIN_SPACE && ds.newStream
      modifies this, sb, ob, ob.buf, ds, os
      ensures sb.Valid() && ob.Valid() && sb.Consumed() && ob.buf == old(ob.buf)
      ensures SameSetup()
      ensures !t.Skipped? && Ticked(sb, ob, ds, os, e, t)
    {
      var found := NewStream(sb, ob, ds, os, e);
      if found == -1 {
        return HeaderFailed;
      } else if found == 0 {
        return Waiting;
      }
      t := DecodeStep(sb, ob, ds, e);
    }
  }

  /** What one decode call did (faad.c:322-420), over the values before and after
      it: from state `start` and buffered bytes `rest` the engine is handed the next
      bytes; the cursors are reconciled with what it consumed, leaving `left`; a
      fatal end puts the decoder in error and writes nothing, otherwise the decoder
      state is kept and the frame's samples are written at the write position. */
  ghost predicate Decoding(e: Engine, t: Tick, start: Mp4, rest: seq<byte>, after: Mp4, left: seq<byte>,
                           s0: DecodeState, s1: DecodeState, w0: nat, w1: nat, sp0: nat, sp1: nat,
                           b0: seq<int>, b1: seq<int>)
  {
    && (t.Fatal? || t.Decoded?)
    && t.before == start && t.total == |rest|
    && |t.input| <= |rest| && t.input == rest[..|t.input|]
    && t.info == e.decode(t.input) && FrameOk(t.info, |t.input|) && PcmOk(t.info)
    && (var a := Reconcile(start, t.info.bytesConsumed, t.total);
        after == a.st && (t.Fatal? <==> a.fatal) && left == rest[a.adv..])
    && (t.Fatal? ==> s1 == DecodeError && w1 == w0 && sp1 == sp0 && b1 == b0)
    && (t.Decoded? ==>
         && s1 == s0 && w0 < |b0| && 2 * Frames(t.info) <= sp0 <= |b0|
         && w1 == Wrap(w0 + 2 * Frames(t.info), |b0|) && sp1 == sp0 - 2 * Frames(t.info)
         && Wrote(b0, b1, w0, Pcm(t.info)))
  }

  /** What one tick did, for its contract: the state and buffered byte count the
      decode call started from, the bytes it was handed and what it returned. */
  datatype Tick =
    | Skipped
    | Waiting
    | HeaderFailed
    | Fatal(before: Mp4, total: nat, input: seq<byte>, info: FrameInfo)
    | Decoded(before: Mp4, total: nat, input: seq<byte>, info: FrameInfo)

  /** The bytes handed to the engine (faad.c:297-340): when the contiguous part is
      shorter than WRAPBUF_LEN but more is buffered, it is copied out together with
      the bytes at the start of the buffer; otherwise the contiguous bytes are used. */
  method ReadInput(sb: StreamBuffer) returns (input: seq<byte>)
    requires sb.Valid()
    ensures input == DecodeInput(sb)
  {
    var bytesTotal := sb.used;
    var bytesWrap := Min(bytesTotal, sb.ContRead());
    if bytesWrap < WRAPBUF_LEN && bytesTotal > WRAPBUF_LEN {
      input := sb.buf[sb.readp..sb.readp + bytesWrap] + sb.buf[..WRAPBUF_LEN - bytesWrap];
    } else {
      input := sb.buf[sb.readp..sb.readp + bytesWrap];
    }
  }

  /** The ADTS scan (faad.c:272-276): bytes are dropped one at a time until the
      contiguous bytes start with a header sync or fewer than two are left. */
  method ScanAdts(sb: StreamBuffer) returns (ghost skipped: nat)
    requires sb.Valid()
    modifies sb
    ensures sb.Valid() && sb.Consumed()
    ensures skipped <= |old(sb.View())| && sb.View() == old(sb.View())[skipped..]
    ensures sb.Contents() == old(sb.Contents())[skipped..]
    ensures forall j :: 0 <= j < skipped ==> NoSyncAt(old(sb.View()), j)
    ensures |sb.View()| >= 2 ==> IsSync(sb.View()[0], sb.View()[1])
    ensures skipped == SyncSkip(old(sb.View()))
  {
    ghost var v0 := sb.View();
    var bytesWrap: nat := Min(sb.used, sb.ContRead());
    skipped := 0;
    while bytesWrap >= 2 && !IsSync(sb.buf[sb.readp], sb.buf[sb.readp + 1])
      invariant sb.Valid() && sb.Consumed()
      invariant skipped <= |v0| && sb.View() == v0[skipped..] && bytesWrap == |sb.View()|
      invariant sb.Contents() == old(sb.Contents())[skipped..]
      invariant forall j :: 0 <= j < skipped ==> NoSyncAt(v0, j)
      decreases bytesWrap
    {
      DropNoSync(sb, v0, skipped);
      bytesWrap := bytesWrap - 1;
      skipped := skipped + 1;
    }
    SyncSkipUnique(v0, skipped);
  }

  /** One step of the ADTS scan: the byte at readp, after the `skipped` bytes of
      the view v0 already dropped, does not start a sync and is dropped. */
  method DropNoSync(sb: StreamBuffer, ghost v0: seq<byte>, ghost skipped: nat)
    requires sb.Valid() && skipped < |v0| && sb.View() == v0[skipped..] && |sb.View()| >= 2
    requires !IsSync(sb.buf[sb.readp], sb.buf[sb.readp + 1])
    modifies sb
    ensures sb.Valid() && sb.Consumed() && sb.used == old(sb.used) - 1
    ensures sb.View() == v0[skipped + 1..] && sb.Contents() == old(sb.Contents())[1..]
    ensures NoSyncAt(v0, skipped)
  {
    sb.IncReadp(1);
    assert v0[skipped..][1..] == v0[skipped + 1..];
  }

  /** The stereo copy (faad.c:401-405): each sample shifted up by 8 bits. */
  method CopyStereo(a: array<int>, at: nat, pcm: seq<int>, from: nat, count: nat)
    requires at + 2 * count <= a.Length && from + 2 * count <= |pcm|
    modifies a
    ensures forall j :: at <= j < at + 2 * count ==> a[j] == pcm[from + (j - at)] * 0x100
    ensures forall i :: 0 <= i < a.Length && !(at <= i < at + 2 * count) ==> a[i] == old(a[i])
  {
    var optr: nat, iptr: nat, n: nat := at, from, count;
    while n > 0
      invariant n <= count && optr == at + 2 * (count - n) && iptr == from + 2 * (count - n)
      invariant forall j :: at <= j < optr ==> a[j] == pcm[from + (j - at)] * 0x100
      invariant forall i :: 0 <= i < a.Length && !(at <= i < optr) ==> a[i] == old(a[i])
    {
      a[optr] := pcm[iptr] * 0x100;
      a[optr + 1] := pcm[iptr + 1] * 0x100;
      optr, iptr, n := optr + 2, iptr + 2, n - 1;
    }
  }

  /** The mono copy (faad.c:406-410): each sample shifted up and stored twice. */
  method CopyMono(a: array<int>, at: nat, pcm: seq<int>, from: nat, count: nat)
    requires at + 2 * count <= a.Length && from + count <= |pcm|
    modifies a
    ensures forall j :: at <= j < at + 2 * count ==> a[j] == pcm[from + (j - at) / 2] * 0x100
    ensures forall i :: 0 <= i < a.Length && !(at <= i < at + 2 * count) ==> a[i] == old(a[i])
  {
    var optr: nat, iptr: nat, n: nat := at, from, count;
    while n > 0
      invariant n <= count && optr == at + 2 * (count - n) && iptr == from + (count - n)
      invariant forall j :: at <= j < optr ==> a[j] == pcm[from + (j - at) / 2] * 0x100
      invariant forall i :: 0 <= i < a.Length && !(at <= i < optr) ==> a[i] == old(a[i])
    {
      a[optr] := pcm[iptr] * 0x100;
      a[optr + 1] := pcm[iptr] * 0x100;
      optr, iptr, n := optr + 2, iptr + 1, n - 1;
    }
  }

  /** The write loop (faad.c:392-418): the frames of a decode result go out in
      pieces that fit the contiguous free space, each piece moving writep. */
  method WritePcm(ob: OutputBuffer, info: FrameInfo)
    requires ob.Valid() && PcmOk(info) && info.samples > 0 && 2 * Frames(info) <= ob.space
    modifies ob, ob.buf
    ensures ob.Valid() && ob.buf == old(ob.buf)
    ensures ob.writep == Wrap(old(ob.writep) + 2 * Frames(info), ob.buf.Length)
    ensures ob.space == old(ob.space) - 2 * Frames(info)
    ensures Wrote(old(ob.buf[..]), ob.buf[..], old(ob.writep), Pcm(info))
  {
    ghost var w0 := ob.writep;
    ghost var before := ob.buf[..];
    var frames: nat := Frames(info);
    var iptr: nat := 0;
    ghost var done: nat := 0;
    while frames > 0
      invariant ob.Valid() && ob.buf == old(ob.buf) && |before| == ob.buf.Length
      invariant done + frames == Frames(info)
      invariant ob.space == old(ob.space) - 2 * done
      invariant ob.writep == Wrap(w0 + 2 * done, |before|)
      invariant info.channels == 2 ==> iptr == 2 * done
      invariant info.channels == 1 ==> iptr == done
      invariant Wrote(before, ob.buf[..], w0, Slots(info, done))
      decreases frames
    {
      var f := PieceFrames(ob, frames);
      if info.channels == 2 {
        PutStereo(ob, info, before, w0, done, iptr, f);
        iptr := iptr + 2 * f;
      } else if info.channels == 1 {
        PutMono(ob, info, before, w0, done, iptr, f);
        iptr := iptr + f;
      }
      MovePast(ob, before, w0, done, f);
      frames := frames - f;
      done := done + f;
    }
    assert Slots(info, done) == Pcm(info);
  }

  /** How many of the frames left fit in the contiguous free space: at least one,
      since the free space holds all of them and moves by whole frames. */
  method PieceFrames(ob: OutputBuffer, frames: nat) returns (f: nat)
    requires ob.Valid() && 0 < frames && 2 * frames <= ob.space
    ensures 0 < f <= frames && ob.writep + 2 * f <= ob.buf.Length
    ensures f == frames || ob.writep + 2 * f == ob.buf.Length
  {
    f := Min(ob.ContWrite() / BYTES_PER_FRAME, frames);
  }

  /** writep and the free space move past the f frames just written
      (faad.c:416), round the ring from w0 on; the stored slots stay as they are. */
  method MovePast(ob: OutputBuffer, ghost before: seq<int>, ghost w0: nat, ghost done: nat, f: nat)
    requires ob.Valid() && |before| == ob.buf.Length && w0 < |before| && 2 * (done + f) <= |before|
    requires ob.writep == Wrap(w0 + 2 * done, |before|)
    requires ob.writep + 2 * f <= ob.buf.Length && 2 * f <= ob.space
    modifies ob
    ensures ob.Valid() && ob.buf == old(ob.buf) && ob.buf[..] == old(ob.buf[..])
    ensures ob.space == old(ob.space) - 2 * f
    ensures ob.writep == Wrap(w0 + 2 * (done + f), |before|)
  {
    ob.IncWritep(f * BYTES_PER_FRAME);
  }

  /** The stereo conversion of f frames at writep (faad.c:402-406), as the next
      slots of the result written round the ring from w0. */
  method PutStereo(ob: OutputBuffer, info: FrameInfo, ghost before: seq<int>, ghost w0: nat,
                   ghost done: nat, iptr: nat, f: nat)
    requires ob.Valid() && PcmOk(info) && info.channels == 2 && iptr == 2 * done && done + f <= Frames(info)
    requires |before| == ob.buf.Length && w0 < |before| && 2 * Frames(info) <= |before|
    requires ob.writep == Wrap(w0 + 2 * done, |before|) && ob.writep + 2 * f <= ob.buf.Length
    requires Wrote(before, ob.buf[..], w0, Slots(info, done))
    modifies ob.buf
    ensures Wrote(before, ob.buf[..], w0, Slots(info, done + f))
  {
    ghost var mid := ob.buf[..];
    CopyStereo(ob.buf, ob.writep, info.pcm, iptr, f);
    StereoPiece(info, before, mid, ob.buf, w0, done, f, ob.writep);
  }

  /** The mono conversion of f frames at writep (faad.c:407-411): each sample fills
      both slots of its frame. */
  method PutMono(ob: OutputBuffer, info: FrameInfo, ghost before: seq<int>, ghost w0: nat,
                 ghost done: nat, iptr: nat, f: nat)
    requires ob.Valid() && PcmOk(info) && info.channels == 1 && iptr == done && done + f <= Frames(info)
    requires |before| == ob.buf.Length && w0 < |before| && 2 * Frames(info) <= |before|
    requires ob.writep == Wrap(w0 + 2 * done, |before|) && ob.writep + 2 * f <= ob.buf.Length
    requires Wrote(before, ob.buf[..], w0, Slots(info, done))
    modifies ob.buf
    ensures Wrote(before, ob.buf[..], w0, Slots(info, done + f))
  {
    ghost var mid := ob.buf[..];
    CopyMono(ob.buf, ob.writep, info.pcm, iptr, f);
    MonoPiece(info, before, mid, ob.buf, w0, done, f, ob.writep);
  }

  /** f stereo frames copied from sample 2 * done to slot wp, the next slot of the
      ring after the 2 * done already written, extend what is written by 2 * f slots. */
  lemma StereoPiece(info: FrameInfo, before: seq<int>, mid: seq<int>, a: array<int>,
                    w0: nat, done: nat, f: nat, wp: nat)
    requires PcmOk(info) && info.channels == 2 && done + f <= Frames(info)
    requires |mid| == a.Length == |before| && w0 < |before| && 2 * Frames(info) <= |before|
    requires wp == Wrap(w0 + 2 * done, |before|) && wp + 2 * f <= |before|
    requires Wrote(before, mid, w0, Pcm(info)[..2 * done])
    requires forall j :: wp <= j < wp + 2 * f ==> a[j] == info.pcm[2 * done + (j - wp)] * 0x100
    requires forall i :: 0 <= i < a.Length && !(wp <= i < wp + 2 * f) ==> a[i] == mid[i]
    ensures Wrote(before, a[..], w0, Pcm(info)[..2 * (done + f)])
  {
    var out := Pcm(info);
    var after := a[..];
    assert out[..2 * (done + f)][..2 * done] == out[..2 * done];
    WroteExtend(before, mid, after, w0, out[..2 * (done + f)], done, f, wp);
  }

  /** f mono frames copied from sample done to slot wp, each sample twice, extend
      what is written by 2 * f slots. */
  lemma MonoPiece(info: FrameInfo, before: seq<int>, mid: seq<int>, a: array<int>,
                  w0: nat, done: nat, f: nat, wp: nat)
    requires PcmOk(info) && info.channels == 1 && done + f <= Frames(info)
    requires |mid| == a.Length == |before| && w0 < |before| && 2 * Frames(info) <= |before|
    requires wp == Wrap(w0 + 2 * done, |before|) && wp + 2 * f <= |before|
    requires Wrote(before, mid, w0, Pcm(info)[..2 * done])
    requires forall j :: wp <= j < wp + 2 * f ==> a[j] == info.pcm[done + (j - wp) / 2] * 0x100
    requires forall i :: 0 <= i < a.Length && !(wp <= i < wp + 2 * f) ==> a[i] == mid[i]
    ensures Wrote(before, a[..], w0, Pcm(info)[..2 * (done + f)])
  {
    var out := Pcm(info);
    var after := a[..];
    forall j | wp <= j < wp + 2 * f
      ensures after[j] == out[..2 * (done + f)][2 * done + (j - wp)]
    {
      assert (2 * done + (j - wp)) / 2 == done + (j - wp) / 2;
    }
    assert out[..2 * (done + f)][..2 * done] == out[..2 * done];
    WroteExtend(before, mid, after, w0, out[..2 * (done + f)], done, f, wp);
  }
}
