/**
 * The chunk table built when an `stco` box is parsed (faad.c:146-192): one slot per
 * chunk holding the chunk's file offset (ISO/IEC 14496-12, section 8.7.5) and the
 * index of its first sample, filled in from the sample-to-chunk runs of a stashed
 * `stsc` box (section 8.7.4), plus a final sentinel slot (sample 0, offset 0).
 */
module ChunkTable {
  import opened Common

  /** struct chunk_table: first sample of the chunk, byte offset of the chunk. */
  datatype Chunk = Chunk(sample: nat, offset: nat)

  /** One stsc entry: first chunk of the run (1-based) and samples per chunk. */
  datatype Run = Run(first: nat, samples: nat)

  /** A chunk table always has at least its sentinel slot. */
  type Table = t: seq<Chunk> | |t| > 0 witness [Chunk(0, 0)]

  /** The stco box w (header included) holds its entry count at byte 12 and that
      many 32-bit offsets from byte 16 on. */
  predicate StcoFits(w: seq<byte>)
  {
    |w| >= 16 && 16 + 4 * Be32(w, 12) <= |w|
  }

  function StcoOffsets(w: seq<byte>): (offs: seq<nat>)
    requires StcoFits(w)
    ensures |offs| == Be32(w, 12)
  {
    seq(Be32(w, 12), i requires 0 <= i < Be32(w, 12) => Be32(w, 16 + 4 * i))
  }

  /** The stashed stsc payload (after version and flags) holds its entry count and
      that many 12-byte entries: first chunk, samples per chunk, description index. */
  predicate StashFits(stash: seq<byte>)
  {
    |stash| >= 4 && 4 + 12 * Be32(stash, 0) <= |stash|
  }

  function StashRuns(stash: seq<byte>): (rs: seq<Run>)
    requires StashFits(stash)
    ensures |rs| == Be32(stash, 0)
  {
    seq(Be32(stash, 0), k requires 0 <= k < Be32(stash, 0) =>
      Run(Be32(stash, 4 + 12 * k), Be32(stash, 8 + 12 * k)))
  }

  predicate Ascending(rs: seq<Run>)
  {
    forall j, k :: 0 <= j <= k < |rs| ==> rs[j].first <= rs[k].first
  }

  /** Runs the model's builder accepts: ascending first chunks, each between 1 and
      entries + 1. For these the source's loops stay inside the table. */
  predicate RunsFit(rs: seq<Run>, entries: nat)
  {
    Ascending(rs) && forall k :: 0 <= k < |rs| ==> 1 <= rs[k].first <= entries + 1
  }

  /** Number of samples in the chunks before run j, counted from run 0's first chunk. */
  function RunBase(rs: seq<Run>, j: nat): nat
    requires Ascending(rs) && j < |rs|
  {
    if j == 0 then 0
    else
      var width: nat := rs[j].first - rs[j - 1].first;
      RunBase(rs, j - 1) + width * rs[j - 1].samples
  }

  /** The run (among rs[..n]) chunk i, counted from 0, belongs to: the last one whose
      first chunk is at most i + 1; -1 when there is none. */
  function RunOf(rs: seq<Run>, i: nat, n: nat): (r: int)
    requires n <= |rs|
    ensures -1 <= r < n
    ensures r >= 0 ==> rs[r].first <= i + 1
    ensures forall m :: r < m < n ==> rs[m].first > i + 1
  {
    if n == 0 then -1 else if rs[n - 1].first <= i + 1 then n - 1 else RunOf(rs, i, n - 1)
  }

  /** Reference definition of the first sample of chunk i: the samples of the chunks
      before its run, plus samples-per-chunk for every earlier chunk of its own run. */
  function FirstSample(rs: seq<Run>, i: nat): nat
    requires Ascending(rs)
  {
    var j := RunOf(rs, i, |rs|);
    if j < 0 then 0
    else
      var within: nat := i + 1 - rs[j].first;
      RunBase(rs, j) + within * rs[j].samples
  }

  /** The table the builder leaves behind: entries slots of (first sample, offset)
      and the sentinel; without stashed runs every first sample is 0. */
  function Build(offsets: seq<nat>, runs: Option<seq<Run>>): Table
    requires runs.Some? ==> Ascending(runs.value)
  {
    seq(|offsets| + 1, i requires 0 <= i <= |offsets| =>
      if i == |offsets| then Chunk(0, 0)
      else Chunk(if runs.Some? then FirstSample(runs.value, i) else 0, offsets[i]))
  }

  /** The runs an optional stash describes. */
  function RunsOf(stsc: Option<seq<byte>>): Option<seq<Run>>
    requires stsc.Some? ==> StashFits(stsc.value)
  {
    if stsc.Some? then Some(StashRuns(stsc.value)) else None
  }

  /** t with chunks from..to-1 given consecutive first samples base, base + perChunk, ... */
  function Fill(t: seq<Chunk>, from: nat, to: nat, base: nat, perChunk: nat): (r: seq<Chunk>)
    requires from <= to <= |t|
    ensures |r| == |t|
  {
    seq(|t|, m requires 0 <= m < |t| =>
      if from <= m < to then t[m].(sample := base + (m - from) * perChunk) else t[m])
  }

  /** The table part way through the stsc walk: chunks below done have their first
      sample, the others still 0. */
  function Partial(offsets: seq<nat>, rs: seq<Run>, done: nat): (t: seq<Chunk>)
    requires Ascending(rs)
    ensures |t| == |offsets| + 1
  {
    seq(|offsets| + 1, m requires 0 <= m <= |offsets| =>
      if m == |offsets| then Chunk(0, 0)
      else Chunk(if m < done then FirstSample(rs, m) else 0, offsets[m]))
  }

  /** Filling the chunks of run j, from its first chunk up to at most the next
      run's first chunk, extends the finished part of the table. */
  lemma FillRunExtends(offsets: seq<nat>, rs: seq<Run>, j: nat, to: nat)
    requires Ascending(rs) && j < |rs|
    requires 1 <= rs[j].first && rs[j].first - 1 <= to <= |offsets|
    requires j + 1 < |rs| ==> to <= rs[j + 1].first - 1
    ensures Fill(Partial(offsets, rs, rs[j].first - 1), rs[j].first - 1, to, RunBase(rs, j), rs[j].samples)
      == Partial(offsets, rs, to)
  {
    forall m | rs[j].first - 1 <= m < to
      ensures FirstSample(rs, m) == RunBase(rs, j) + (m - (rs[j].first - 1)) * rs[j].samples
    {
      FirstSampleInRun(rs, j, m);
    }
  }

  /** Chunks before the first run keep first sample 0. */
  lemma BeforeFirstRun(offsets: seq<nat>, rs: seq<Run>)
    requires Ascending(rs) && |rs| > 0 && 1 <= rs[0].first <= |offsets| + 1
    ensures Partial(offsets, rs, 0) == Partial(offsets, rs, rs[0].first - 1)
  {
    forall m | 0 <= m < rs[0].first - 1
      ensures FirstSample(rs, m) == 0
    {
      assert RunOf(rs, m, |rs|) < 0;
    }
  }

  /** One `for` loop of the builder: chunks from..to-1 get consecutive first samples
      base, base + perChunk, ...; returns the running sample counter after them. */
  method FillRun(t: array<Chunk>, from: nat, to: nat, base: nat, perChunk: nat) returns (next: nat)
    requires from <= to <= t.Length
    modifies t
    ensures next == base + (to - from) * perChunk
    ensures t[..] == Fill(old(t[..]), from, to, base, perChunk)
  {
    var i := from;
    next := base;
    while i < to
      invariant from <= i <= to
      invariant next == base + (i - from) * perChunk
      invariant t[..] == Fill(old(t[..]), from, i, base, perChunk)
    {
      t[i] := t[i].(sample := next);
      assert next + perChunk == base + (i + 1 - from) * perChunk;
      next := next + perChunk;
      i := i + 1;
    }
  }

  /** FillRun applied to the chunks of run j of rs, from the run's first chunk up to
      `to`: the finished part of the table grows to `to`. */
  method FillRunOf(t: array<Chunk>, from: nat, to: nat, base: nat, perChunk: nat,
                   ghost offsets: seq<nat>, ghost rs: seq<Run>, ghost j: nat) returns (next: nat)
    requires Ascending(rs) && j < |rs| && 1 <= rs[j].first && from == rs[j].first - 1
    requires base == RunBase(rs, j) && perChunk == rs[j].samples
    requires rs[j].first - 1 <= to <= |offsets|
    requires j + 1 < |rs| ==> to <= rs[j + 1].first - 1
    requires t[..] == Partial(offsets, rs, rs[j].first - 1)
    modifies t
    ensures t[..] == Partial(offsets, rs, to)
    ensures next == base + (to - (rs[j].first - 1)) * perChunk
  {
    next := FillRun(t, from, to, base, perChunk);
    FillRunExtends(offsets, rs, j, to);
  }

  /** Where the stsc walk stands after reading k entries: the previous entry, the
      first sample of its run and how far the table is finished (every chunk once
      the last entry is read). */
  ghost predicate Walked(rs: seq<Run>, entries: nat, k: nat, sample: nat, last: nat, lastSamples: nat, done: nat)
    requires Ascending(rs) && k <= |rs|
  {
    if k == 0 then last == 0 && sample == 0 && done == 0
    else
      && last == rs[k - 1].first && lastSamples == rs[k - 1].samples
      && (k < |rs| ==> sample == RunBase(rs, k - 1) && done == last - 1)
      && (k == |rs| ==> done == entries)
  }

  /** The stsc walk (faad.c:165-191): `while (stsc_entries--)` reads one run per
      pass and hands it to WalkRun. */
  method FillFirstSamples(t: array<Chunk>, stash: seq<byte>, entries: nat, ghost offsets: seq<nat>)
    requires StashFits(stash) && RunsFit(StashRuns(stash), entries)
    requires |offsets| == entries && t[..] == Build(offsets, None)
    modifies t
    ensures t[..] == Build(offsets, Some(StashRuns(stash)))
  {
    ghost var rs := StashRuns(stash);
    var remaining := Be32(stash, 0);
    var sample: nat := 0;
    var last, lastSamples := 0, 0;
    var q := 4;
    ghost var done := 0;
    assert t[..] == Partial(offsets, rs, 0);
    while remaining > 0
      invariant 0 <= remaining <= |rs| && q == 4 + 12 * (|rs| - remaining)
      invariant Walked(rs, entries, |rs| - remaining, sample, last, lastSamples, done)
      invariant t[..] == Partial(offsets, rs, done)
    {
      ghost var k := |rs| - remaining;
      remaining := remaining - 1;
      var first := Be32(stash, q);
      var samples := Be32(stash, q + 4);
      assert rs[k] == Run(first, samples);
      sample, done := WalkRun(t, entries, offsets, rs, k, first, samples, sample, last, lastSamples, done, remaining == 0);
      last, lastSamples := first, samples;
      q := q + 12;
    }
    assert Partial(offsets, rs, done) == Build(offsets, Some(rs));
  }

  /** One pass of the stsc walk with entry k, run (first, samples), just read: the
      previous run's chunks end where this run starts, and the last run covers
      every remaining chunk. */
  method WalkRun(t: array<Chunk>, entries: nat, ghost offsets: seq<nat>, ghost rs: seq<Run>, ghost k: nat,
                 first: nat, samples: nat, sample: nat, last: nat, lastSamples: nat,
                 ghost done: nat, final: bool)
    returns (next: nat, ghost done': nat)
    requires |offsets| == entries && RunsFit(rs, entries) && k < |rs| && rs[k] == Run(first, samples)
    requires final == (k + 1 == |rs|)
    requires Walked(rs, entries, k, sample, last, lastSamples, done)
    requires t[..] == Partial(offsets, rs, done)
    modifies t
    ensures Walked(rs, entries, k + 1, next, first, samples, done')
    ensures t[..] == Partial(offsets, rs, done')
  {
    next := sample;
    if last != 0 {
      next := FillRunOf(t, last - 1, first - 1, sample, lastSamples, offsets, rs, k - 1);
    } else {
      BeforeFirstRun(offsets, rs);
    }
    done' := first - 1;
    if final {
      next := FillRunOf(t, first - 1, entries, next, samples, offsets, rs, k);
      done' := entries;
    }
  }

  /** The stco branch of read_mp4_header (faad.c:148-191): allocates entries + 1
      slots, copies the offsets, writes the sentinel and, when a stsc payload is
      stashed, walks its runs filling in first samples. */
  method BuildChunkTable(w: seq<byte>, stsc: Option<seq<byte>>) returns (t: array<Chunk>)
    requires StcoFits(w)
    requires stsc.Some? ==> StashFits(stsc.value) && RunsFit(StashRuns(stsc.value), Be32(w, 12))
    ensures fresh(t)
    ensures t[..] == Build(StcoOffsets(w), RunsOf(stsc))
  {
    var entries := Be32(w, 12);
    ghost var offsets := StcoOffsets(w);
    var ptr := 16;
    t := new Chunk[entries + 1];
    var i := 0;
    while i < entries
      invariant 0 <= i <= entries && ptr == 16 + 4 * i
      invariant forall m :: 0 <= m < i ==> t[m] == Chunk(0, offsets[m])
    {
      t[i] := Chunk(0, Be32(w, ptr));
      ptr := ptr + 4;
      i := i + 1;
    }
    t[i] := Chunk(0, 0);
    if stsc.Some? {
      FillFirstSamples(t, stsc.value, entries, offsets);
    }
    assert t[..] == Build(offsets, RunsOf(stsc));
  }

  /** The table has entries + 1 slots, the last one (sample 0, offset 0); offsets are
      copied in order, and without stashed runs every first sample stays 0. */
  lemma BuildShape(offsets: seq<nat>, runs: Option<seq<Run>>)
    requires runs.Some? ==> Ascending(runs.value)
    ensures var t := Build(offsets, runs);
      |t| == |offsets| + 1 && t[|offsets|] == Chunk(0, 0) &&
      (forall i :: 0 <= i < |offsets| ==> t[i].offset == offsets[i]) &&
      (runs.None? ==> forall i :: 0 <= i < |t| ==> t[i].sample == 0)
  {
  }

  /** Chunk i of run j, (first f, samples s), starts at sample base + (i - (f - 1)) * s,
      where base counts the samples of all earlier chunks. */
  lemma FirstSampleInRun(rs: seq<Run>, j: nat, i: nat)
    requires Ascending(rs) && j < |rs|
    requires rs[j].first <= i + 1
    requires j + 1 < |rs| ==> i + 1 < rs[j + 1].first
    ensures FirstSample(rs, i) == RunBase(rs, j) + (i + 1 - rs[j].first) * rs[j].samples
  {
    assert RunOf(rs, i, |rs|) == j;
  }

  lemma {:induction false} RunBaseMonotone(rs: seq<Run>, j: nat, k: nat)
    requires Ascending(rs) && j <= k < |rs|
    ensures RunBase(rs, j) <= RunBase(rs, k)
    decreases k
  {
    if j < k {
      RunBaseMonotone(rs, j, k - 1);
      var width: nat := rs[k].first - rs[k - 1].first;
      assert width * rs[k - 1].samples >= 0;
    }
  }

  lemma MulMonotone(a: nat, b: nat, c: nat)
    requires a <= b
    ensures a * c <= b * c
  {
  }

  lemma FirstSampleWithinRun(rs: seq<Run>, i: nat, i2: nat)
    requires Ascending(rs) && i <= i2
    requires 0 <= RunOf(rs, i, |rs|) == RunOf(rs, i2, |rs|)
    ensures FirstSample(rs, i) <= FirstSample(rs, i2)
  {
    var j := RunOf(rs, i, |rs|);
    MulMonotone(i + 1 - rs[j].first, i2 + 1 - rs[j].first, rs[j].samples);
  }

  lemma FirstSampleBelowNextRun(rs: seq<Run>, i: nat)
    requires Ascending(rs)
    requires 0 <= RunOf(rs, i, |rs|) < |rs| - 1
    ensures FirstSample(rs, i) <= RunBase(rs, RunOf(rs, i, |rs|) + 1)
  {
    var j := RunOf(rs, i, |rs|);
    assert i + 1 < rs[j + 1].first;
    var width: nat := rs[j + 1].first - rs[j].first;
    MulMonotone(i + 1 - rs[j].first, width, rs[j].samples);
  }

  lemma RunBaseBelowFirstSample(rs: seq<Run>, i: nat)
    requires Ascending(rs) && 0 <= RunOf(rs, i, |rs|)
    ensures RunBase(rs, RunOf(rs, i, |rs|)) <= FirstSample(rs, i)
  {
    var j := RunOf(rs, i, |rs|);
    var b: nat := i + 1 - rs[j].first;
    assert b * rs[j].samples >= 0;
  }

  /** First samples never decrease along the table. */
  lemma {:induction false} FirstSampleMonotone(rs: seq<Run>, i: nat, i2: nat)
    requires Ascending(rs) && i <= i2
    ensures FirstSample(rs, i) <= FirstSample(rs, i2)
  {
    var j := RunOf(rs, i, |rs|);
    var j2 := RunOf(rs, i2, |rs|);
    if j >= 0 {
      assert j <= j2;
      if j == j2 {
        FirstSampleWithinRun(rs, i, i2);
      } else {
        FirstSampleBelowNextRun(rs, i);
        RunBaseMonotone(rs, j + 1, j2);
        RunBaseBelowFirstSample(rs, i2);
      }
    }
  }

  /** Runs (1, 10) and (5, 20) over eight chunks: the first four chunks hold ten
      samples each, the last four twenty. */
  lemma ExampleTable()
    ensures var t := Build([8, 16, 24, 32, 40, 48, 56, 64], Some([Run(1, 10), Run(5, 20)]));
      && seq(|t|, i requires 0 <= i < |t| => t[i].sample) == [0, 10, 20, 30, 40, 60, 80, 100, 0]
      && seq(|t|, i requires 0 <= i < |t| => t[i].offset) == [8, 16, 24, 32, 40, 48, 56, 64, 0]
  {
    var rs := [Run(1, 10), Run(5, 20)];
    assert RunBase(rs, 1) == 40;
    forall i | 0 <= i < 4 ensures FirstSample(rs, i) == 10 * i {
      FirstSampleInRun(rs, 0, i);
    }
    forall i | 4 <= i < 8 ensures FirstSample(rs, i) == 40 + 20 * (i - 4) {
      FirstSampleInRun(rs, 1, i);
    }
  }
}
