/**
 * read_mp4_header as a function of the parser state and the contiguous buffered
 * bytes (faad.c:92-247). Each pass of its loop reads one 8-byte box header (a 32-bit
 * big-endian size and a four-character type, ISO/IEC 14496-12 section 4.2), acts on
 * the box and consumes some of it; BoxStep is one pass and Parse the whole loop.
 */
module Boxes {
  import opened Common
  import opened Descriptor
  import opened ChunkTable
  import opened Engine

  datatype BoxType = Moov | Trak | Mdia | Minf | Stbl | Stsd | Mp4a | Esds | Stsc | Stco | Mdat | OtherBox

  /** The four-character name the source compares a box type against. */
  function Name(t: BoxType): (n: string)
    requires t != OtherBox
    ensures |n| == 4 && forall k :: 0 <= k < 4 ==> n[k] as int < 0x100
  {
    match t
    case Moov => "moov" case Trak => "trak" case Mdia => "mdia" case Minf => "minf"
    case Stbl => "stbl" case Stsd => "stsd" case Mp4a => "mp4a" case Esds => "esds"
    case Stsc => "stsc" case Stco => "stco" case Mdat => "mdat"
  }

  /** A four-character name read as one big-endian word, as Be32 reads its bytes. */
  function Word(n: string): nat
    requires |n| == 4
  {
    ((n[0] as nat * 0x100 + n[1] as nat) * 0x100 + n[2] as nat) * 0x100 + n[3] as nat
  }

  /** The type of a box from its four tag bytes, read as one big-endian word (the
      strcmp tests of the source against the four-character names). */
  function TypeOf(tag: nat): (t: BoxType)
    ensures t != OtherBox ==> tag == Word(Name(t))
  {
    if tag == 0x6D6F6F76 then Moov        // "moov"
    else if tag == 0x7472616B then Trak   // "trak"
    else if tag == 0x6D646961 then Mdia   // "mdia"
    else if tag == 0x6D696E66 then Minf   // "minf"
    else if tag == 0x7374626C then Stbl   // "stbl"
    else if tag == 0x73747364 then Stsd   // "stsd"
    else if tag == 0x6D703461 then Mp4a   // "mp4a"
    else if tag == 0x65736473 then Esds   // "esds"
    else if tag == 0x73747363 then Stsc   // "stsc"
    else if tag == 0x7374636F then Stco   // "stco"
    else if tag == 0x6D646174 then Mdat   // "mdat"
    else OtherBox
  }

  /** Each known name is recognised as its own type. */
  lemma TypeOfByName(t: BoxType)
    requires t != OtherBox
    ensures TypeOf(Word(Name(t))) == t
  {
    match t
    case Moov => assert Word("moov") == 0x6D6F6F76;
    case Trak => assert Word("trak") == 0x7472616B;
    case Mdia => assert Word("mdia") == 0x6D646961;
    case Minf => assert Word("minf") == 0x6D696E66;
    case Stbl => assert Word("stbl") == 0x7374626C;
    case Stsd => assert Word("stsd") == 0x73747364;
    case Mp4a => assert Word("mp4a") == 0x6D703461;
    case Esds => assert Word("esds") == 0x65736473;
    case Stsc => assert Word("stsc") == 0x73747363;
    case Stco => assert Word("stco") == 0x7374636F;
    case Mdat => assert Word("mdat") == 0x6D646174;
  }

  /** The type test is strcmp against the names (faad.c:105-227): the four tag bytes
      at i give type t exactly when they spell t's name. */
  lemma TagSpellsName(v: seq<byte>, i: nat, t: BoxType)
    requires i + 4 <= |v| && t != OtherBox
    ensures TypeOf(Be32(v, i)) == t <==> forall k :: 0 <= k < 4 ==> v[i + k] as int == Name(t)[k] as int
  {
    var n := Name(t);
    if forall k :: 0 <= k < 4 ==> v[i + k] as int == n[k] as int {
      assert v[i] as int == n[0] as int && v[i + 1] as int == n[1] as int;
      assert v[i + 2] as int == n[2] as int && v[i + 3] as int == n[3] as int;
      TypeOfByName(t);
    }
    if TypeOf(Be32(v, i)) == t {
      SameDigits(v[i] as nat, v[i + 1] as nat, v[i + 2] as nat, v[i + 3] as nat,
                 n[0] as nat, n[1] as nat, n[2] as nat, n[3] as nat);
      forall k | 0 <= k < 4
        ensures v[i + k] as int == n[k] as int
      {
        if k == 0 {} else if k == 1 {} else if k == 2 {} else {}
      }
    }
  }

  /** Boxes the parser descends into by consuming only their header. */
  predicate IsContainer(t: BoxType)
  {
    t == Moov || t == Trak || t == Mdia || t == Minf || t == Stbl
  }

  /** Boxes whose payload is interpreted, and so is never consumed in part. */
  predicate Interpreted(t: BoxType)
  {
    t == Esds || t == Stsc || t == Stco
  }

  /** Boxes whose first child the parser reads next. */
  predicate Descends(t: BoxType)
  {
    IsContainer(t) || t == Stsd || t == Mp4a
  }

  /** Where the first child box starts within a box the parser descends into, from
      the box layouts of ISO/IEC 14496-12 and 14496-14: after the 8-byte header of a
      plain container; after the header, version and flags, and entry_count of a
      SampleDescriptionBox; after the header, the SampleEntry fields (6 reserved
      bytes, data_reference_index) and the AudioSampleEntry fields (8 reserved
      bytes, channelcount, samplesize, pre_defined, reserved, samplerate) of an
      MP4AudioSampleEntry, whose esds follows. */
  function ChildOffset(t: BoxType): nat
    requires Descends(t)
  {
    if IsContainer(t) then 8
    else if t == Stsd then 8 + 4 + 4
    else 8 + (6 + 2) + (8 + 2 + 2 + 2 + 2 + 4)
  }

  /** Bytes the parser consumes for a box of type t and declared length len
      (faad.c:219-227). */
  function ConsumeFor(t: BoxType, len: nat): nat
  {
    if IsContainer(t) then 8 else if t == Stsd then 16 else if t == Mp4a then 36 else len
  }

  /** The parser consumes a box it descends into up to its first child, and any
      other box whole. */
  lemma ConsumeToFirstChild(t: BoxType, len: nat)
    ensures Descends(t) ==> ConsumeFor(t, len) == ChildOffset(t)
    ensures !Descends(t) ==> ConsumeFor(t, len) == len
  {
  }

  /** What the esds walk finds: where the decoder-specific info starts and how long
      it is, a wrong tag byte, or a descriptor running past the buffered bytes. */
  datatype EsdsFind = Config(start: nat, size: nat) | BadTag | Truncated

  /** The esds walk (faad.c:115-128) over the box bytes w, header included: after
      version and flags, an optional ES_Descriptor (tag 0x03) with its size and
      four more bytes (or three bytes without the tag), the DecoderConfigDescriptor
      size and 13 fixed bytes, then the DecSpecificInfo tag, which must be 0x05,
      and its size (ISO/IEC 14496-1, sections 7.2.6.5-7.2.6.7). */
  function EsdsScan(w: seq<byte>): (r: EsdsFind)
    ensures r.Config? ==> r.start + r.size <= |w|
  {
    if |w| <= 12 then Truncated
    else if w[12] == 0x03 && !DescFits(w, 13) then Truncated
    else
      var p1 := if w[12] == 0x03 then 13 + DescSize(w, 13) + 4 else 16;
      if !DescFits(w, p1) then Truncated
      else
        var p2 := p1 + DescSize(w, p1) + 13;
        if p2 >= |w| then Truncated
        else if w[p2] != 0x05 then BadTag
        else if !DescFits(w, p2 + 1) then Truncated
        else
          var start := p2 + 1 + DescSize(w, p2 + 1);
          var size := DescValue(w, p2 + 1);
          if start + size > |w| then Truncated else Config(start, size)
  }

  /** The esds walk as the source does it, moving a pointer and calling
      mp4_desc_length for each size field. */
  method ReadEsds(w: seq<byte>) returns (r: EsdsFind)
    ensures r == EsdsScan(w)
  {
    if |w| <= 12 {
      return Truncated;
    }
    var ptr := 12;
    var tag := w[ptr];
    ptr := ptr + 1;
    var ignored: nat;
    if tag == 0x03 {
      if !DescFits(w, ptr) {
        return Truncated;
      }
      ignored, ptr := Mp4DescLength(w, ptr);
      ptr := ptr + 4;
    } else {
      ptr := ptr + 3;
    }
    if !DescFits(w, ptr) {
      return Truncated;
    }
    ignored, ptr := Mp4DescLength(w, ptr);
    ptr := ptr + 13;
    if ptr >= |w| {
      return Truncated;
    }
    tag := w[ptr];
    ptr := ptr + 1;
    if tag != 0x05 {
      return BadTag;
    }
    if !DescFits(w, ptr) {
      return Truncated;
    }
    var configLen;
    configLen, ptr := Mp4DescLength(w, ptr);
    if ptr + configLen > |w| {
      return Truncated;
    }
    return Config(ptr, configLen);
  }

  /** The parser's share of the decoder context: position in the file, pending skip,
      the track counters, the stashed stsc payload, the chunk table, the sample and
      chunk cursors, and the sample rate and channel count last reported. */
  datatype Mp4 = Mp4(
    pos: nat, consume: nat, trak: nat, play: nat,
    stsc: Option<seq<byte>>, chunks: Option<Table>,
    sample: nat, nextchunk: nat, rate: nat, channels: nat)

  /** One pass of the loop: go on with `adv` bytes consumed, or return `code`. */
  datatype Step = Next(st: Mp4, adv: nat) | Stop(st: Mp4, adv: nat, code: int)

  /** The outcome of the whole call: its return value, the new state and the
      number of bytes the read cursor moved. */
  datatype Outcome = Outcome(code: int, st: Mp4, adv: nat)

  /** The outcome of parsing rest from st, its advance counted from adv bytes
      before rest. */
  ghost function Resume(st: Mp4, rest: seq<byte>, adv: nat,
                        init2: seq<byte> -> Option<AudioConfig>): Outcome
  {
    var r := Parse(st, rest, init2);
    r.(adv := adv + r.adv)
  }

  /** The consuming tail of a pass (faad.c:229-243) with avail bytes buffered. */
  function Finish(s: Mp4, t: BoxType, len: nat, avail: nat): (r: Step)
    ensures r.adv <= avail && r.st.pos == s.pos + r.adv
  {
    var c := ConsumeFor(t, len);
    if avail >= c then Next(s.(pos := s.pos + c), c)
    else if !Interpreted(t) then Stop(s.(pos := s.pos + avail, consume := c - avail), avail, 0)
    else Stop(s, 0, 0)
  }

  /** A successful NeAACDecInit2 makes the current track the playable one. */
  function Configure(s: Mp4, r: Option<AudioConfig>): (c: Mp4)
    ensures r.Some? ==> c.play == c.trak && c.rate == r.value.rate && c.channels == r.value.channels
    ensures r.None? ==> c == s
    ensures c.(play := s.play, rate := s.rate, channels := s.channels) == s
  {
    if r.Some? then s.(play := s.trak, rate := r.value.rate, channels := r.value.channels) else s
  }

  /** The stsc payload stashed with this stco can be applied to its table. */
  predicate StashUsable(stsc: Option<seq<byte>>, entries: nat)
  {
    stsc.Some? ==> StashFits(stsc.value) && RunsFit(StashRuns(stsc.value), entries)
  }

  /** A fully buffered esds (faad.c:114-133): the walk must reach the 0x05 tag, and
      the decoder-specific info it finds is offered to NeAACDecInit2. */
  function EsdsStep(s: Mp4, v: seq<byte>, len: nat, init2: seq<byte> -> Option<AudioConfig>): (r: Step)
    ensures r.adv <= |v| && r.st.pos == s.pos + r.adv
  {
    EsdsApply(s, v, EsdsScan(v), len, init2)
  }

  /** The esds branch once the walk has given found. */
  function EsdsApply(s: Mp4, v: seq<byte>, found: EsdsFind, len: nat,
                     init2: seq<byte> -> Option<AudioConfig>): (r: Step)
    requires found.Config? ==> found.start + found.size <= |v|
    ensures r.adv <= |v| && r.st.pos == s.pos + r.adv
  {
    match found
    case Config(start, size) => Finish(Configure(s, init2(v[start..start + size])), Esds, len, |v|)
    case _ => Stop(s, 0, -1)
  }

  /** A fully buffered stsc met before any table (faad.c:136-143): its entries,
      from byte 12 to the end of the box, are kept for the stco to come. */
  function StscStep(s: Mp4, v: seq<byte>, len: nat): (r: Step)
    requires len < |v|
    ensures r.adv <= |v| && r.st.pos == s.pos + r.adv
  {
    if len < 12 then Stop(s, 0, -1) else Finish(s.(stsc := Some(v[12..len])), Stsc, len, |v|)
  }

  /** A fully buffered stco of the playable track (faad.c:146-192). */
  function StcoStep(s: Mp4, v: seq<byte>, len: nat): (r: Step)
    ensures r.adv <= |v| && r.st.pos == s.pos + r.adv
  {
    if !StcoFits(v) || !StashUsable(s.stsc, Be32(v, 12)) then Stop(s, 0, -1)
    else
      var table := Build(StcoOffsets(v), RunsOf(s.stsc));
      Finish(s.(chunks := Some(table), stsc := None), Stco, len, |v|)
  }

  /** The mdat branch (faad.c:195-217), rest bytes buffered after its header: with
      a track to play, the parse succeeds and moves on to the first chunk. */
  function MdatStep(s: Mp4, rest: nat): (r: Step)
    ensures r.Stop? && r.adv <= rest + 8 && r.st.pos == s.pos + r.adv
  {
    var p := s.pos + 8;
    if s.play == 0 then Stop(s.(pos := p), 8, -1)
    else
      var (t, k) := ToFirstChunk(s.(pos := p), rest);
      Stop(t.(sample := 1, nextchunk := 1), 8 + k, 1)
  }

  /** The move from the end of the mdat header to the first chunk's offset
      (faad.c:199-212): passed over now when all of it is buffered (k bytes), left
      pending in consume otherwise; nothing when the chunk is not ahead. */
  function ToFirstChunk(s: Mp4, rest: nat): (r: (Mp4, nat))
    ensures r.1 <= rest && r.0.pos == s.pos + r.1
    ensures r.1 > 0 ==> s.chunks.Some? && r.0.pos == s.chunks.value[0].offset
    ensures r.0.consume != s.consume ==> s.chunks.Some? && s.pos + r.0.consume == s.chunks.value[0].offset
  {
    if s.chunks.Some? && s.chunks.value[0].offset > s.pos then
      var skip := s.chunks.value[0].offset - s.pos;
      if skip <= rest then (s.(pos := s.pos + skip), skip)
      else (s.(consume := skip), 0)
    else (s, 0)
  }

  /** The track counters after reading a header of type t (faad.c:103-111). */
  function Count(st: Mp4, t: BoxType): (c: Mp4)
    ensures t == Moov ==> c.trak == 0 && c.play == 0
    ensures t == Trak ==> c.trak == st.trak + 1 && c.play == st.play
    ensures t != Moov && t != Trak ==> c == st
    ensures c.(trak := st.trak, play := st.play) == st
  {
    if t == Moov then st.(trak := 0, play := 0)
    else if t == Trak then st.(trak := st.trak + 1)
    else st
  }

  /** The counters after headers of types ts, in order. */
  function CountAll(st: Mp4, ts: seq<BoxType>): Mp4
    decreases |ts|
  {
    if ts == [] then st else Count(CountAll(st, ts[..|ts| - 1]), ts[|ts| - 1])
  }

  /** After a moov and no later one, trak numbers the trak headers read since and no
      track is playable yet unless an esds selected one: trak is the 1-based index
      of the current track within the movie (faad.c:103-111). */
  lemma {:induction false} TrakNumbersTracks(st: Mp4, ts: seq<BoxType>)
    requires Moov !in ts
    ensures CountAll(st, [Moov] + ts).trak == multiset(ts)[Trak]
    ensures CountAll(st, [Moov] + ts).play == 0
    decreases |ts|
  {
    if ts != [] {
      var p := ts[..|ts| - 1];
      assert ([Moov] + ts)[..|ts|] == [Moov] + p;
      assert ts == p + [ts[|ts| - 1]];
      TrakNumbersTracks(st, p);
    }
  }

  /** One pass of the loop of read_mp4_header on the buffered bytes v, which start
      with a box header. The read cursor and pos move by the same amount. */
  function BoxStep(st: Mp4, v: seq<byte>, init2: seq<byte> -> Option<AudioConfig>): (r: Step)
    requires |v| >= 8
    ensures r.adv <= |v| && r.st.pos == st.pos + r.adv
    ensures r.Next? ==> r.adv == ConsumeFor(TypeOf(Be32(v, 4)), Be32(v, 0))
    ensures r.Stop? ==> r.code == -1 || r.code == 0 || r.code == 1
  {
    Branch(Count(st, TypeOf(Be32(v, 4))), v, init2)
  }

  /** The branch a pass takes for the box at the front of v once the track counters
      are updated (faad.c:114-243): esds, stsc and stco are read only when fully
      buffered, stsc only before a table exists and stco only for the playable track. */
  function Branch(s: Mp4, v: seq<byte>, init2: seq<byte> -> Option<AudioConfig>): (r: Step)
    requires |v| >= 8
    ensures r.adv <= |v| && r.st.pos == s.pos + r.adv
    ensures r.Next? ==> r.adv == ConsumeFor(TypeOf(Be32(v, 4)), Be32(v, 0))
    ensures r.Stop? ==> r.code == -1 || r.code == 0 || r.code == 1
  {
    var len := Be32(v, 0);
    var t := TypeOf(Be32(v, 4));
    if t == Esds && |v| > len then EsdsStep(s, v, len, init2)
    else if t == Stsc && |v| > len && s.chunks.None? then StscStep(s, v, len)
    else if t == Stco && |v| > len && s.play == s.trak then StcoStep(s, v, len)
    else if t == Mdat then MdatStep(s, |v| - 8)
    else Finish(s, t, len, |v|)
  }

  /** The whole call: passes while at least 8 bytes are left. A pass that consumes
      nothing fails the header instead of repeating forever. */
  function Parse(st: Mp4, v: seq<byte>, init2: seq<byte> -> Option<AudioConfig>): (r: Outcome)
    ensures r.adv <= |v| && r.st.pos == st.pos + r.adv
    ensures r.code == -1 || r.code == 0 || r.code == 1
    decreases |v|
  {
    if |v| < 8 then Outcome(0, st, 0)
    else
      match BoxStep(st, v, init2)
      case Stop(s, n, code) => Outcome(code, s, n)
      case Next(s, n) =>
        if n == 0 then Outcome(-1, s, 0)
        else
          var r := Parse(s, v[n..], init2);
          Outcome(r.code, r.st, n + r.adv)
  }

  /** Parse is one BoxStep followed, after a pass that consumed something, by Parse
      of the rest of the bytes. */
  lemma ParseUnfold(st: Mp4, v: seq<byte>, init2: seq<byte> -> Option<AudioConfig>)
    requires |v| >= 8
    ensures var step := BoxStep(st, v, init2);
      Parse(st, v, init2) ==
        if step.Stop? then Outcome(step.code, step.st, step.adv)
        else if step.adv == 0 then Outcome(-1, step.st, 0)
        else var r := Parse(step.st, v[step.adv..], init2); Outcome(r.code, r.st, step.adv + r.adv)
  {
  }

  /** One box header of the bytes v0 past adv, as the loop of the header reader
      takes it: the parse from st arrives where its first pass stops, fails when
      that pass consumes nothing, and otherwise carries on past what it consumed. */
  lemma ResumeStep(st: Mp4, v0: seq<byte>, adv: nat, init2: seq<byte> -> Option<AudioConfig>)
    requires adv + 8 <= |v0|
    ensures var step := BoxStep(st, v0[adv..], init2);
      var goal := Resume(st, v0[adv..], adv, init2);
      && (step.Stop? ==> goal == Outcome(step.code, step.st, adv + step.adv))
      && (step.Next? && step.adv == 0 ==> goal == Outcome(-1, step.st, adv))
      && (step.Next? && step.adv > 0 ==>
            adv + step.adv <= |v0| && Resume(step.st, v0[adv + step.adv..], adv + step.adv, init2) == goal)
  {
    var v := v0[adv..];
    ParseUnfold(st, v, init2);
    var step := BoxStep(st, v, init2);
    if step.Next? && step.adv > 0 {
      assert v[step.adv..] == v0[adv + step.adv..];
    }
  }

  /** Fewer than 8 bytes: no header to read, nothing changes, and more data is needed. */
  lemma ParseShort(st: Mp4, v: seq<byte>, init2: seq<byte> -> Option<AudioConfig>)
    requires |v| < 8
    ensures Parse(st, v, init2) == Outcome(0, st, 0)
  {
  }

  /** A container header is consumed on its own, 8 bytes: moov resets both track
      counters, trak counts one more track, and nothing else changes
      (faad.c:103-111, 223-225). */
  lemma ContainerStep(st: Mp4, v: seq<byte>, init2: seq<byte> -> Option<AudioConfig>)
    requires |v| >= 8 && IsContainer(TypeOf(Be32(v, 4)))
    ensures var t := TypeOf(Be32(v, 4));
      var r := BoxStep(st, v, init2);
      && r.Next? && r.adv == 8 && r.st.pos == st.pos + 8
      && (t == Moov ==> r.st == st.(pos := st.pos + 8, trak := 0, play := 0))
      && (t == Trak ==> r.st == st.(pos := st.pos + 8, trak := st.trak + 1))
      && (t != Moov && t != Trak ==> r.st == st.(pos := st.pos + 8))
  {
  }

  /** A box the parser does not read into, with fewer bytes buffered than it
      consumes: the buffered bytes are consumed, the shortfall is left pending in
      consume, and the call ends asking for more data (faad.c:235-240). */
  lemma PartialBox(st: Mp4, v: seq<byte>, init2: seq<byte> -> Option<AudioConfig>)
    requires |v| >= 8
    requires var t := TypeOf(Be32(v, 4));
      t != Mdat && !Interpreted(t) && |v| < ConsumeFor(t, Be32(v, 0))
    ensures var t := TypeOf(Be32(v, 4));
      Parse(st, v, init2) ==
        Outcome(0, Count(st, t).(pos := st.pos + |v|, consume := ConsumeFor(t, Be32(v, 0)) - |v|), |v|)
  {
    ParseUnfold(st, v, init2);
  }

  /** esds, stsc and stco are never consumed in part: with fewer bytes buffered
      than the box holds, the call ends asking for more data and moves nothing;
      with exactly the box buffered it is passed over as an uninterpreted box
      (faad.c:114, 136, 146, 229-243). */
  lemma InterpretedNeedsWholeBox(st: Mp4, v: seq<byte>, init2: seq<byte> -> Option<AudioConfig>)
    requires |v| >= 8 && Interpreted(TypeOf(Be32(v, 4))) && |v| <= Be32(v, 0)
    ensures var len := Be32(v, 0);
      && (|v| < len ==> BoxStep(st, v, init2) == Stop(st, 0, 0))
      && (|v| == len ==> BoxStep(st, v, init2) == Next(st.(pos := st.pos + len), len))
  {
  }

  /** An esds whose DecSpecificInfo tag is not 0x05 fails the header
      (faad.c:123-126). */
  lemma EsdsBadTagFails(st: Mp4, v: seq<byte>, init2: seq<byte> -> Option<AudioConfig>)
    requires |v| >= 8 && TypeOf(Be32(v, 4)) == Esds && |v| > Be32(v, 0) && EsdsScan(v) == BadTag
    ensures Parse(st, v, init2) == Outcome(-1, st, 0)
  {
    ParseUnfold(st, v, init2);
  }

  /** A configuration NeAACDecInit2 accepts makes the current track the playable
      one; a refused one changes nothing but the position (faad.c:129-132). */
  lemma EsdsSelectsTrack(st: Mp4, v: seq<byte>, init2: seq<byte> -> Option<AudioConfig>)
    requires |v| >= 8 && TypeOf(Be32(v, 4)) == Esds && |v| > Be32(v, 0) && EsdsScan(v).Config?
    ensures var f := EsdsScan(v);
      var config := init2(v[f.start..f.start + f.size]);
      var r := BoxStep(st, v, init2);
      && r.Next? && r.adv == Be32(v, 0)
      && (config.Some? ==> r.st == st.(pos := st.pos + r.adv, play := st.trak,
                                        rate := config.value.rate, channels := config.value.channels))
      && (config.None? ==> r.st == st.(pos := st.pos + r.adv))
  {
    assert BoxStep(st, v, init2) == EsdsApply(st, v, EsdsScan(v), Be32(v, 0), init2);
  }

  /** A fully buffered stsc met before any chunk table is stashed: its entries,
      past the 12 header bytes, are kept and the whole box is passed over
      (faad.c:136-143). */
  lemma StscStashed(st: Mp4, v: seq<byte>, init2: seq<byte> -> Option<AudioConfig>)
    requires |v| >= 8 && TypeOf(Be32(v, 4)) == Stsc && |v| > Be32(v, 0) >= 12 && st.chunks.None?
    ensures var len := Be32(v, 0);
      BoxStep(st, v, init2) == Next(st.(stsc := Some(v[12..len]), pos := st.pos + len), len)
  {
  }

  /** A fully buffered stsc shorter than its 12 header bytes, met before any chunk
      table, fails the header. In the source len - 12 wraps in 32 bits, so the copy
      would read far past the box (faad.c:136-143). */
  lemma StscTooShortFails(st: Mp4, v: seq<byte>, init2: seq<byte> -> Option<AudioConfig>)
    requires |v| >= 8 && TypeOf(Be32(v, 4)) == Stsc && |v| > Be32(v, 0) && Be32(v, 0) < 12 && st.chunks.None?
    ensures BoxStep(st, v, init2) == Stop(st, 0, -1)
  {
  }

  /** An stsc met once a chunk table exists is not stashed (faad.c:136). */
  lemma StscAfterTableIgnored(st: Mp4, v: seq<byte>, init2: seq<byte> -> Option<AudioConfig>)
    requires |v| >= 8 && TypeOf(Be32(v, 4)) == Stsc && st.chunks.Some?
    ensures BoxStep(st, v, init2).st.stsc == st.stsc
  {
  }

  /** An stco of any track but the playable one builds no table (faad.c:146). */
  lemma StcoOfOtherTrackIgnored(st: Mp4, v: seq<byte>, init2: seq<byte> -> Option<AudioConfig>)
    requires |v| >= 8 && TypeOf(Be32(v, 4)) == Stco && st.play != st.trak
    ensures BoxStep(st, v, init2).st.chunks == st.chunks
  {
  }

  /** A fully buffered stco of the playable track replaces the table with the one
      built from its offsets and the stashed runs, drops the stash, is consumed
      whole and the loop goes on; nothing else changes (faad.c:146-192, 229-234). */
  lemma StcoBuildsTable(st: Mp4, v: seq<byte>, init2: seq<byte> -> Option<AudioConfig>)
    requires |v| >= 8 && TypeOf(Be32(v, 4)) == Stco && |v| > Be32(v, 0) && st.play == st.trak
    requires StcoFits(v) && StashUsable(st.stsc, Be32(v, 12))
    ensures var len := Be32(v, 0);
      BoxStep(st, v, init2) ==
        Next(st.(chunks := Some(Build(StcoOffsets(v), RunsOf(st.stsc))), stsc := None, pos := st.pos + len), len)
  {
  }

  /** The default tail (faad.c:219-234): a box that is not mdat, that none of the
      esds, stsc and stco branches reads, and that is buffered up to what the parser
      consumes of it, is consumed (to its first child for the boxes the parser
      descends into, whole otherwise) and the loop goes on with only the track
      counters and pos changed. */
  lemma DefaultTailPasses(st: Mp4, v: seq<byte>, init2: seq<byte> -> Option<AudioConfig>)
    requires |v| >= 8
    requires var t := TypeOf(Be32(v, 4)); var len := Be32(v, 0);
      && t != Mdat && |v| >= ConsumeFor(t, len)
      && !(t == Esds && |v| > len)
      && !(t == Stsc && |v| > len && st.chunks.None?)
      && !(t == Stco && |v| > len && st.play == st.trak)
    ensures var t := TypeOf(Be32(v, 4)); var c := ConsumeFor(t, Be32(v, 0));
      BoxStep(st, v, init2) == Next(Count(st, t).(pos := st.pos + c), c)
  {
  }

  /** mdat ends the header: without a playable track the call fails past the mdat
      header; with one it succeeds with the sample and chunk cursors at 1, having
      moved on to the first chunk when that lies ahead, now if it is buffered and
      by a pending skip otherwise (faad.c:195-216). */
  lemma MdatEndsHeader(st: Mp4, v: seq<byte>, init2: seq<byte> -> Option<AudioConfig>)
    requires |v| >= 8 && TypeOf(Be32(v, 4)) == Mdat
    ensures var r := BoxStep(st, v, init2);
      var p := st.pos + 8;
      && r.Stop?
      && (st.play == 0 ==> r.code == -1 && r.adv == 8 && r.st == st.(pos := p))
      && (st.play != 0 ==> r.code == 1 && r.st.sample == 1 && r.st.nextchunk == 1)
      && (st.play != 0 && st.chunks.Some? && st.chunks.value[0].offset > p ==>
            var skip := st.chunks.value[0].offset - p;
            if skip <= |v| - 8 then r.adv == 8 + skip && r.st.pos == p + skip && r.st.consume == st.consume
            else r.adv == 8 && r.st.pos == p && r.st.consume == skip)
      && (st.play != 0 && !(st.chunks.Some? && st.chunks.value[0].offset > p) ==>
            r.adv == 8 && r.st.pos == p && r.st.consume == st.consume)
  {
    assert BoxStep(st, v, init2) == MdatStep(st, |v| - 8);
  }

  /** The loop of read_mp4_header as the source writes it, with no guard against a
      pass that consumes nothing, run for at most fuel passes: None when the passes
      run out before fewer than 8 bytes are left or a pass stops. */
  function ParseAsWritten(st: Mp4, v: seq<byte>, init2: seq<byte> -> Option<AudioConfig>,
                          fuel: nat): (r: Option<Outcome>)
    ensures r.Some? ==> r.value.adv <= |v| && r.value.st.pos == st.pos + r.value.adv
    decreases fuel
  {
    if |v| < 8 then Some(Outcome(0, st, 0))
    else if fuel == 0 then None
    else
      match BoxStep(st, v, init2)
      case Stop(s, n, code) => Some(Outcome(code, s, n))
      case Next(s, n) =>
        match ParseAsWritten(s, v[n..], init2, fuel - 1)
        case None => None
        case Some(r) => Some(Outcome(r.code, r.st, n + r.adv))
  }

  /** A box of an uninterpreted type whose size field is 0 is consumed by 0 bytes
      and leaves the state as it was. */
  lemma ZeroLengthPass(st: Mp4, v: seq<byte>, init2: seq<byte> -> Option<AudioConfig>)
    requires |v| >= 8 && Be32(v, 0) == 0 && TypeOf(Be32(v, 4)) == OtherBox
    ensures BoxStep(st, v, init2) == Next(st, 0)
  {
  }

  /** As written, such a box is passed over again and again: no number of passes
      finishes the header. */
  lemma {:induction false} ZeroLengthBoxStalls(st: Mp4, v: seq<byte>, init2: seq<byte> -> Option<AudioConfig>,
                                                fuel: nat)
    requires |v| >= 8 && Be32(v, 0) == 0 && TypeOf(Be32(v, 4)) == OtherBox
    ensures ParseAsWritten(st, v, init2, fuel) == None
    decreases fuel
  {
    if fuel > 0 {
      ZeroLengthPass(st, v, init2);
      assert v[0..] == v;
      ZeroLengthBoxStalls(st, v, init2, fuel - 1);
    }
  }

  /** Parse fails the header on such a box, having consumed nothing. */
  lemma ZeroLengthBoxFails(st: Mp4, v: seq<byte>, init2: seq<byte> -> Option<AudioConfig>)
    requires |v| >= 8 && Be32(v, 0) == 0 && TypeOf(Be32(v, 4)) == OtherBox
    ensures Parse(st, v, init2) == Outcome(-1, st, 0)
  {
    ZeroLengthPass(st, v, init2);
  }
}
