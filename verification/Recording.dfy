/** Recording a video track: samples are gathered into parts, parts are appended to one file,
    and the playlist names each part by its byte range and duration. */
module Recording {
  import opened Outcomes
  import opened Octets
  import opened Division

  datatype Sample = Sample(dts: int, payload: Bytes)

  datatype Segment = Segment(duration: int, start: nat, length: nat)

  const SECOND := 1_000_000_000
  const START_DTS := 10 * SECOND

  // ---------------------------------------------------------------- storage

  /** An append-only file with one part in preparation. */
  class Storage {
    var file: Bytes
    var offset: nat
    var size: nat
    var partIdx: nat
    var buffer: Option<Bytes>
    var closed: bool

    ghost predicate Valid()
      reads this
    {
      offset == size == |file|
    }

    constructor ()
      ensures Valid() && file == [] && buffer.None? && partIdx == 0 && !closed
    {
      file, offset, size, partIdx, buffer, closed := [], 0, 0, 0, None, false;
    }

    /** Writing through `Writer()`; what is written to a closed storage is lost. */
    method Write(b: Bytes)
      requires Valid()
      modifies this
      ensures Valid() && file == old(file) && partIdx == old(partIdx) && closed == old(closed)
      ensures buffer == if closed then old(buffer) else Some(Pending(old(buffer)) + b)
    {
      if closed { return; }
      if buffer.None? { buffer := Some([]); }
      buffer := Some(buffer.value + b);
    }

    method NextPart() returns (n: nat)
      requires Valid()
      modifies this
      ensures Valid() && buffer.None? && closed == old(closed)
      ensures file == old(file) + Pending(old(buffer)) && n == |Pending(old(buffer))|
    {
      if buffer.Some? {
        var b := buffer.value;
        file := file + b;
        offset := offset + |b|;
        size := size + |b|;
        partIdx := partIdx + 1;
        buffer := None;
        return |b|;
      } else {
        return 0;
      }
    }

    /** The part in preparation still goes into the file. */
    method Close()
      requires Valid()
      modifies this
      ensures Valid() && closed && buffer.None? && file == old(file) + Pending(old(buffer))
    {
      closed := true;
      var _ := NextPart();
    }
  }

  /** The bytes of a part in preparation. */
  function Pending(buffer: Option<Bytes>): Bytes { if buffer.Some? then buffer.value else [] }

  // ---------------------------------------------------------------- byte ranges and durations

  /** Each segment starts where the one before it ends; the first starts at 0. */
  predicate Tiled(segs: seq<Segment>, total: nat)
  {
    if segs == [] then total == 0
    else
      var s := segs[|segs| - 1];
      s.start + s.length == total && Tiled(segs[..|segs| - 1], s.start)
  }

  /** Every byte of the file lies in the byte range of exactly one segment. */
  lemma {:induction false} TiledCovers(segs: seq<Segment>, total: nat, pos: nat) returns (i: nat)
    requires Tiled(segs, total) && pos < total
    ensures i < |segs| && segs[i].start <= pos < segs[i].start + segs[i].length
    ensures forall j | 0 <= j < |segs| && segs[j].start <= pos < segs[j].start + segs[j].length :: j == i
  {
    var n := |segs| - 1;
    var s := segs[n];
    TiledBelow(segs[..n], s.start);
    assert forall j | 0 <= j < n :: segs[j] == segs[..n][j];
    if pos >= s.start {
      i := n;
    } else {
      i := TiledCovers(segs[..n], s.start, pos);
    }
  }

  lemma {:induction false} TiledBelow(segs: seq<Segment>, total: nat)
    requires Tiled(segs, total)
    ensures forall j | 0 <= j < |segs| :: segs[j].start + segs[j].length <= total
  {
    if segs != [] {
      var n := |segs| - 1;
      TiledBelow(segs[..n], segs[n].start);
      assert forall j | 0 <= j < n :: segs[j] == segs[..n][j];
    }
  }

  function Durations(segs: seq<Segment>): int {
    if segs == [] then 0 else Durations(segs[..|segs| - 1]) + segs[|segs| - 1].duration
  }

  function Concat(parts: seq<Bytes>): Bytes {
    if parts == [] then [] else Concat(parts[..|parts| - 1]) + parts[|parts| - 1]
  }

  /** Segment `i` names the bytes that part `i` was marshalled to. */
  predicate Holds(segs: seq<Segment>, parts: seq<Bytes>, file: Bytes) {
    && |segs| == |parts| && file == Concat(parts) && Tiled(segs, |file|)
    && forall i | 0 <= i < |segs| :: Names(segs[i], parts[i], file)
  }

  /** The byte range of the segment holds the part. */
  predicate Names(s: Segment, part: Bytes, file: Bytes) {
    s.start + s.length <= |file| && file[s.start..s.start + s.length] == part
  }

  lemma HoldsMore(segs: seq<Segment>, parts: seq<Bytes>, file: Bytes, duration: int, part: Bytes)
    requires Holds(segs, parts, file)
    ensures Holds(segs + [Segment(duration, |file|, |part|)], parts + [part], file + part)
    ensures Durations(segs + [Segment(duration, |file|, |part|)]) == Durations(segs) + duration
  {
    var s := Segment(duration, |file|, |part|);
    var more, all, f := segs + [s], parts + [part], file + part;
    assert more[..|segs|] == segs && all[..|parts|] == parts && more[|segs|] == s && all[|parts|] == part;
    assert Tiled(more, |f|) && f == Concat(all) && Durations(more) == Durations(segs) + duration;
    hide Tiled, Concat, Durations;
    forall i | 0 <= i < |more| ensures Names(more[i], all[i], f) {
      if i < |segs| {
        assert Names(segs[i], parts[i], file);
        NamesStill(segs[i], parts[i], file, part);
      } else {
        assert f[|file|..|file| + |part|] == part;
      }
    }
  }

  lemma NamesStill(s: Segment, part: Bytes, file: Bytes, more: Bytes)
    requires Names(s, part, file)
    ensures Names(s, part, file + more)
  {
    assert (file + more)[s.start..s.start + s.length] == file[s.start..s.start + s.length];
  }

  // ---------------------------------------------------------------- samples of parts

  /** The samples of the parts in order, without the first sample of every part but the first. */
  function Unrepeated(parts: seq<seq<Sample>>): seq<Sample> {
    if parts == [] then []
    else
      var p := parts[|parts| - 1];
      Unrepeated(parts[..|parts| - 1]) + (if |parts| == 1 || p == [] then p else p[1..])
  }

  /** Every part but the first begins with the same sample twice. */
  predicate Doubled(parts: seq<seq<Sample>>) {
    forall i | 1 <= i < |parts| :: |parts[i]| >= 2 && parts[i][0] == parts[i][1]
  }

  /** Where the accepted samples are: in the parts flushed, in the open part, and one waiting
      for its successor.  The first sample of every part but the first is stored twice. */
  predicate Kept(flushed: seq<seq<Sample>>, open: seq<Sample>, next: Option<Sample>, accepted: seq<Sample>) {
    && Doubled(flushed)
    && match next
       case None => open == [] && accepted == Unrepeated(flushed)
       case Some(s) =>
         && (flushed != [] ==> open == [s] || (|open| >= 2 && open[0] == open[1]))
         && accepted == Unrepeated(flushed) + (if flushed == [] then open else open[1..]) + [s]
  }

  lemma KeptFirst(s: Sample)
    ensures Kept([], [], Some(s), [s])
  {
    assert Unrepeated([]) + [] + [s] == [s];
  }

  lemma KeptAppend(flushed: seq<seq<Sample>>, open: seq<Sample>, s: Sample, t: Sample, accepted: seq<Sample>)
    requires Kept(flushed, open, Some(s), accepted)
    ensures Kept(flushed, open + [s], Some(t), accepted + [t])
  {
    if flushed != [] { assert (open + [s])[1..] == open[1..] + [s]; }
  }

  lemma KeptDone(flushed: seq<seq<Sample>>, accepted: seq<Sample>)
    requires Kept(flushed, [], None, accepted)
    ensures Unrepeated(flushed) == accepted
  {}

  lemma KeptFlush(flushed: seq<seq<Sample>>, open: seq<Sample>, s: Sample, accepted: seq<Sample>)
    requires Kept(flushed, open, Some(s), accepted)
    ensures Kept(flushed + [open + [s]], [], None, accepted)
    ensures forall t :: Kept(flushed + [open + [s]], [t], Some(t), accepted + [t])
  {
    var p := open + [s];
    var all := flushed + [p];
    assert all[..|flushed|] == flushed;
    assert Unrepeated(all) == Unrepeated(flushed) + (if flushed == [] then p else p[1..]);
    if flushed != [] { assert p[1..] == open[1..] + [s]; }
    assert Unrepeated(all) == accepted;
    forall t ensures Kept(all, [t], Some(t), accepted + [t]) {
      assert [t][1..] == [];
      assert accepted + [] + [t] == accepted + [t];
    }
  }

  // ---------------------------------------------------------------- bandwidth

  const WORD := 0x1_0000_0000_0000_0000
  const HALF := 0x8000_0000_0000_0000

  /** The number as an unsigned 64-bit word. */
  function Word(x: int): nat { x % WORD }

  /** Conversion of an unsigned word to `int`. */
  function AsInt(x: nat): int { if x < HALF then x else x - WORD }

  function Lengths(segs: seq<Segment>): nat {
    if segs == [] then 0 else Lengths(segs[..|segs| - 1]) + segs[|segs| - 1].length
  }

  predicate Positive(segs: seq<Segment>) { forall i | 0 <= i < |segs| :: segs[i].duration > 0 }

  /** Neither a segment nor the whole has the duration 0, by which `bandwidth` would divide. */
  predicate Divisible(segs: seq<Segment>) {
    && (forall i | 0 <= i < |segs| :: Word(segs[i].duration) != 0)
    && (segs != [] ==> Word(Durations(segs)) != 0)
  }

  /** Bits per second, in 64-bit words. */
  function Rate(length: nat, duration: int): nat
    requires Word(duration) != 0
  {
    Word(8 * length * SECOND) / Word(duration)
  }

  /** The sums stay within 64 bits. */
  predicate Fits(segs: seq<Segment>) {
    Positive(segs) && 8 * Lengths(segs) * SECOND < WORD && Durations(segs) < WORD
  }

  lemma {:induction false} PositiveSum(segs: seq<Segment>)
    requires Positive(segs)
    ensures Durations(segs) >= 0 && (segs != [] ==> Durations(segs) > 0)
  {
    if segs != [] { PositiveSum(segs[..|segs| - 1]); }
  }

  lemma FitsPrefix(segs: seq<Segment>)
    requires Fits(segs) && segs != []
    ensures var n := |segs| - 1;
            && Fits(segs[..n]) && 0 < segs[n].duration < WORD && 8 * segs[n].length * SECOND < WORD
            && Word(segs[n].duration) == segs[n].duration
            && Rate(segs[n].length, segs[n].duration) == 8 * segs[n].length * SECOND / segs[n].duration
  {
    PositiveSum(segs[..|segs| - 1]);
    RateExact(segs[|segs| - 1].length, segs[|segs| - 1].duration);
  }

  /** If no segment is faster than `m`, neither is the whole. */
  lemma {:induction false} RatesBelow(segs: seq<Segment>, m: nat)
    requires Fits(segs)
    requires forall i | 0 <= i < |segs| ::
               Word(segs[i].duration) != 0 && Rate(segs[i].length, segs[i].duration) <= m
    ensures 8 * Lengths(segs) * SECOND <= Durations(segs) * (m + 1)
    ensures segs != [] ==> 8 * Lengths(segs) * SECOND < Durations(segs) * (m + 1)
  {
    if segs != [] {
      var n := |segs| - 1;
      var s := segs[n];
      FitsPrefix(segs);
      RatesBelow(segs[..n], m);
      var a, d := 8 * s.length * SECOND, Durations(segs[..n]);
      hide Rate, Fits;
      RateBelow(a, s.duration, m);
      Product(m + 1, d, s.duration);
    }
  }

  lemma RateBelow(a: nat, duration: int, m: nat)
    requires duration > 0 && a / duration <= m
    ensures a < duration * (m + 1)
  {
    var q := a / duration;
    QuotientBounds(a, duration);
    Product(duration, q, 1);
    Product(duration, q + 1, m - q);
    Product(duration, m - q, 0);
  }

  /** With sums that fit, the average does not exceed the largest rate, rounding included. */
  lemma RateExact(length: nat, duration: int)
    requires 0 < duration < WORD && 8 * length * SECOND < WORD
    ensures Word(duration) == duration && Rate(length, duration) == 8 * length * SECOND / duration
  {
    SmallWord(duration);
    SmallWord(8 * length * SECOND);
    hide Word;
  }

  lemma SmallWord(x: nat)
    requires x < WORD
    ensures Word(x) == x
  {
    QuotientUnique(x, WORD, 0, x);
  }

  lemma AverageBelow(segs: seq<Segment>, max: nat)
    requires Fits(segs) && segs != []
    requires forall i | 0 <= i < |segs| ::
               Word(segs[i].duration) != 0 && Rate(segs[i].length, segs[i].duration) <= max
    ensures Word(Durations(segs)) != 0 && Rate(Lengths(segs), Durations(segs)) <= max
  {
    PositiveSum(segs);
    RateExact(Lengths(segs), Durations(segs));
    RatesBelow(segs, max);
    hide Rate, Word, Durations, Lengths;
    QuotientBelow(8 * Lengths(segs) * SECOND, Durations(segs), max);
  }

  /** The conversion to `int` on return keeps that order exactly when it makes neither or both
      of the two negative. */
  lemma IntOrder(max: nat, average: nat)
    requires average <= max < WORD
    ensures AsInt(average) <= AsInt(max) <==> max < HALF || average >= HALF
  {}

  /** The largest and the average bandwidth of a playlist, before the conversion to `int`;
      `None` for the panic of a division by zero. */
  method Bandwidth(segs: seq<Segment>) returns (r: Option<(nat, nat)>)
    ensures r.Some? <==> Divisible(segs)
    ensures segs == [] ==> r == Some((0, 0))
    ensures r.Some? && segs != [] ==>
              && (forall i | 0 <= i < |segs| :: Rate(segs[i].length, segs[i].duration) <= r.value.0)
              && (exists i | 0 <= i < |segs| :: Rate(segs[i].length, segs[i].duration) == r.value.0)
              && r.value.1 == Rate(Lengths(segs), Durations(segs))
    ensures r.Some? && Fits(segs) ==> r.value.1 <= r.value.0
  {
    if segs == [] { return Some((0, 0)); }
    var max, sizes, durations, i := 0, 0, 0, 0;
    assert segs[..0] == [];
    hide Rate, Word;
    while i < |segs|
      invariant 0 <= i <= |segs|
      invariant sizes == Lengths(segs[..i]) && durations == Durations(segs[..i])
      invariant forall j | 0 <= j < i :: Word(segs[j].duration) != 0 && Rate(segs[j].length, segs[j].duration) <= max
      invariant if i == 0 then max == 0
                else exists j | 0 <= j < i :: Rate(segs[j].length, segs[j].duration) == max
    {
      assert segs[..i + 1][..i] == segs[..i] && segs[..i + 1][i] == segs[i];
      if Word(segs[i].duration) == 0 { return None; }
      var bandwidth := Rate(segs[i].length, segs[i].duration);
      if bandwidth > max { max := bandwidth; }
      sizes := sizes + segs[i].length;
      durations := durations + segs[i].duration;
      i := i + 1;
    }
    assert segs[..i] == segs;
    if Word(durations) == 0 { return None; }
    if Fits(segs) { AverageBelow(segs, max); }
    return Some((max, Rate(sizes, durations)));
  }

  // ---------------------------------------------------------------- the track

  /** Segments that were not ended by force are longer than the limit. */
  predicate Lasting(segs: seq<Segment>, forced: seq<bool>, limit: int) {
    |forced| == |segs| && forall i | 0 <= i < |segs| && !forced[i] :: segs[i].duration > limit
  }

  /** The part that began with sample `begun` holds no random access point beyond the limit. */
  predicate Unsplit(samples: seq<Sample>, keys: seq<bool>, begun: nat, start: int, limit: int) {
    && begun < |samples| == |keys| && samples[begun].dts == start
    && forall i | begun < i < |samples| && keys[i] :: samples[i].dts - start <= limit
  }

  lemma LastingMore(segs: seq<Segment>, forced: seq<bool>, limit: int, s: Segment, force: bool)
    requires Lasting(segs, forced, limit) && (force || s.duration > limit)
    ensures Lasting(segs + [s], forced + [force], limit)
  {}

  lemma UnsplitMore(samples: seq<Sample>, keys: seq<bool>, begun: nat, start: int, limit: int, s: Sample, key: bool)
    requires Unsplit(samples, keys, begun, start, limit) && (key ==> s.dts - start <= limit)
    ensures Unsplit(samples + [s], keys + [key], begun, start, limit)
  {}

  lemma UnsplitNew(before: seq<Sample>, keys: seq<bool>, s: Sample, limit: int)
    requires |keys| == |before| + 1
    ensures Unsplit(before + [s], keys, |before|, s.dts, limit)
  {}

  datatype Status = Ok | Failed | Panicked

  class Track {
    const marshal: seq<Sample> -> Option<Bytes>
    const segmentDuration: nat
    const storage: Storage
    var startDTS: int
    var next: Option<Sample>
    var currentPart: Option<seq<Sample>>
    var playlist: seq<Segment>
    var ready: bool
    var closed: bool
    // what happened so far
    ghost var first: int
    ghost var parts: seq<Bytes>
    ghost var flushed: seq<seq<Sample>>
    ghost var accepted: seq<Sample>
    ghost var keys: seq<bool>    // which accepted samples are random access points
    ghost var forced: seq<bool>  // which segments were ended by force, or by closing the track
    ghost var begun: nat         // the accepted sample with which the current part began

    ghost function Open(): seq<Sample>
      reads this
    {
      if currentPart.None? then [] else currentPart.value
    }

    /** The samples of the current part once the waiting one has joined it. */
    ghost function Closing(): seq<Sample>
      reads this
    {
      Open() + if next.None? then [] else [next.value]
    }

    /** Nothing has been written yet. */
    ghost predicate Blank()
      reads this
    {
      && playlist == [] && accepted == [] && flushed == [] && keys == [] && forced == []
      && currentPart.None? && next.None? && startDTS == 0
    }

    /** The time after which a random access point begins a new part. */
    function Limit(): nat { segmentDuration * SECOND }

    /** The playlist describes the file, its durations add up to the time since the first
        sample, every segment has a duration, and no accepted sample is lost.  A segment that was
        not ended by force lasts longer than the segment duration, and no random access point
        that far from the beginning of the open part lies inside it. */
    ghost predicate Valid()
      reads this, storage
    {
      && storage.Valid() && storage.buffer.None? && (storage.closed ==> closed)
      && Holds(playlist, parts, storage.file) && Divisible(playlist)
      && Kept(flushed, Open(), next, accepted)
      && (next.Some? ==> Durations(playlist) == startDTS - first && startDTS <= next.value.dts)
      && (!closed ==> Positive(playlist) && (next.None? || !ready ==> Blank()))
      && |keys| == |accepted| && Lasting(playlist, forced, Limit())
      && (next.Some? ==> Unsplit(accepted, keys, begun, startDTS, Limit()))
    }

    constructor (marshal: seq<Sample> -> Option<Bytes>, segmentDuration: nat)
      ensures Valid() && Blank() && !closed && !ready && fresh(storage)
      ensures this.marshal == marshal && this.segmentDuration == segmentDuration
    {
      this.marshal, this.segmentDuration := marshal, segmentDuration;
      storage := new Storage();
      startDTS, next, currentPart, playlist, ready, closed := 0, None, None, [], false, false;
      first, parts, flushed, accepted := 0, [], [], [];
      keys, forced, begun := [], [], 0;
    }

    /** The codec has become known. */
    method TryReady(known: bool) returns (r: bool)
      requires Valid()
      modifies this`ready
      ensures Valid() && r == ready == (old(ready) || known)
    {
      if ready { return true; }
      ready := known;
      return known;
    }

    /** A segment up to `dts` would have no duration, or the playlist would not. */
    ghost predicate ZeroLength(dts: int)
      reads this
    {
      Word(dts - startDTS) == 0 || Word(dts - first) == 0
    }

    /** As long as 64 bits hold the duration of the recording, it is the segment that has none. */
    lemma ZeroLengthMeans(dts: int)
      requires Valid() && !closed && next.Some? && startDTS <= dts < first + WORD
      ensures ZeroLength(dts) <==> dts == startDTS
      ensures first <= startDTS
    {
      PositiveSum(playlist);
    }

    /** Append the current part, if there is one, to the file and list it.  The index is then
        written, which computes the bandwidth. */
    method FlushSegment(dts: int) returns (st: Status)
      requires storage.Valid() && storage.buffer.None? && !storage.closed
      requires Holds(playlist, parts, storage.file) && Divisible(playlist)
      modifies this`playlist, this`parts, storage
      ensures currentPart.None? ==> st.Ok? && parts == old(parts) && playlist == old(playlist)
      ensures currentPart.Some? ==>
                && (st.Failed? <==> marshal(currentPart.value).None?)
                && (st.Panicked? <==> !st.Failed? && (Word(dts - startDTS) == 0 ||
                                                      Word(Durations(old(playlist)) + (dts - startDTS)) == 0))
      ensures st.Ok? && currentPart.Some? ==>
                && parts == old(parts) + [marshal(currentPart.value).value]
                && playlist == old(playlist) + [Segment(dts - startDTS, |old(storage.file)|, |parts[|old(parts)|]|)]
                && Durations(playlist) == Durations(old(playlist)) + (dts - startDTS)
      ensures !st.Failed? ==> storage.Valid() && storage.buffer.None? && !storage.closed
      ensures !st.Failed? ==> Holds(playlist, parts, storage.file)
      ensures st.Ok? ==> Divisible(playlist)
    {
      hide Holds, Durations, Word;
      if currentPart.None? { return Ok; }
      var b := marshal(currentPart.value);
      if b.None? { return Failed; }
      HoldsMore(playlist, parts, storage.file, dts - startDTS, b.value);
      DivisibleMore(playlist, Segment(dts - startDTS, |storage.file|, |b.value|));
      assert [] + b.value == b.value;
      storage.Write(b.value);
      var offset := storage.offset;
      var size := storage.NextPart();
      playlist := playlist + [Segment(dts - startDTS, offset, size)];
      parts := parts + [b.value];
      var rates := Bandwidth(playlist);
      return if rates.None? then Panicked else Ok;
    }

    /** Lines 540-549: the first sample starts the clock and waits for its successor. */
    method FirstSample(incoming: Sample, ghost key: bool)
      requires Valid() && ready && !closed && next.None? && incoming.dts >= startDTS
      modifies this
      ensures Valid() && ready && !closed && next == Some(incoming) && accepted == [incoming] && keys == [key]
      ensures startDTS == first == incoming.dts && currentPart.None? && playlist == old(playlist)
    {
      hide Holds, Divisible;
      KeptFirst(incoming);
      startDTS := incoming.dts;
      next := Some(incoming);
      first, accepted, keys, begun := startDTS, [incoming], [key], 0;
    }

    /** `writeVideo` with a sample.  A sample with a negative base time is rejected silently.
        A sample that is a random access point ends the current part if it is forced to, or comes
        later than the segment duration after the part began; the index then panics exactly if
        the part has no duration. */
    method WriteVideo(randomAccess: bool, forceSwitch: bool, arrived: Sample) returns (st: Status)
      requires Valid() && ready && !closed
      modifies this, storage
      ensures var dts, began := arrived.dts + START_DTS, old(startDTS);
              var cut := old(next).Some? && dts >= began && randomAccess &&
                         (forceSwitch || dts - began > segmentDuration * SECOND);
              && (st.Failed? <==> cut && marshal(old(Closing())).None?)
              && (st.Panicked? <==> cut && marshal(old(Closing())).Some? && old(ZeroLength(arrived.dts + START_DTS)))
              && (st.Ok? && cut ==>
                    && |playlist| == |old(playlist)| + 1 && playlist[..|old(playlist)|] == old(playlist)
                    && playlist[|old(playlist)|].duration == dts - began && startDTS == dts)
              && (st.Ok? && !cut ==> playlist == old(playlist))
              && (st.Ok? ==>
                    if dts >= began then
                      && next == Some(arrived.(dts := dts)) && accepted == old(accepted) + [arrived.(dts := dts)]
                      && keys == old(keys) + [randomAccess]
                    else
                      next == old(next) && accepted == old(accepted) && keys == old(keys))
      ensures st.Ok? ==> Valid() && ready && !closed && (old(next).Some? ==> first == old(first))
      ensures old(next).None? && arrived.dts + START_DTS >= old(startDTS) ==>
                startDTS == first == arrived.dts + START_DTS && currentPart.None?
    {
      hide Holds, Durations, Kept, Word, Divisible, Positive, Lasting, Unsplit;
      var incoming := arrived.(dts := arrived.dts + START_DTS);
      if incoming.dts - startDTS < 0 { return Ok; }
      if next.None? {
        FirstSample(incoming, randomAccess);
        return Ok;
      }
      st := Enqueue(randomAccess, forceSwitch, incoming);
    }

    /** Lines 552-600: the sample that waited joins the current part, and the new one waits. */
    method Enqueue(randomAccess: bool, forceSwitch: bool, incoming: Sample) returns (st: Status)
      requires Valid() && ready && !closed && next.Some? && incoming.dts >= startDTS
      modifies this, storage
      ensures var began := old(startDTS);
              var cut := randomAccess && (forceSwitch || incoming.dts - began > segmentDuration * SECOND);
              && (st.Failed? <==> cut && marshal(old(Closing())).None?)
              && (st.Panicked? <==> cut && marshal(old(Closing())).Some? && old(ZeroLength(incoming.dts)))
              && (st.Ok? && cut ==>
                    && |playlist| == |old(playlist)| + 1 && playlist[..|old(playlist)|] == old(playlist)
                    && playlist[|old(playlist)|].duration == incoming.dts - began && startDTS == incoming.dts)
              && (st.Ok? && !cut ==> playlist == old(playlist))
      ensures st.Ok? ==> Valid() && ready && !closed && first == old(first)
      ensures st.Ok? ==> accepted == old(accepted) + [incoming] && keys == old(keys) + [randomAccess]
      ensures st.Ok? ==> next == Some(incoming)
    {
      hide Holds, Durations, Kept, Word, Divisible, Positive, Lasting, Unsplit;
      ghost var before, held, sample, marks := accepted, Open(), next.value, keys;
      TakeWaiting(Some(incoming));
      accepted, keys := accepted + [incoming], keys + [randomAccess];
      if randomAccess && (forceSwitch || incoming.dts - startDTS > segmentDuration * SECOND) {
        st := NewPart(incoming, forceSwitch, held, sample, before);
      } else {
        KeptAppend(flushed, held, sample, incoming, before);
        UnsplitMore(before, marks, begun, startDTS, Limit(), incoming, randomAccess);
        return Ok;
      }
    }

    /** Lines 555-576: the waiting sample is put into the current part. */
    method TakeWaiting(successor: Option<Sample>)
      requires next.Some?
      modifies this`next, this`currentPart
      ensures next == successor && currentPart == Some(old(Open()) + [old(next).value])
    {
      var sample := next.value;
      next := successor;
      if currentPart.None? { currentPart := Some([]); }
      currentPart := Some(currentPart.value + [sample]);
    }

    /** Lines 578-600: the current part is flushed and the next one begins with the sample that
        has just arrived. */
    method NewPart(incoming: Sample, ghost force: bool, ghost held: seq<Sample>, ghost sample: Sample,
                   ghost before: seq<Sample>)
      returns (st: Status)
      requires storage.Valid() && storage.buffer.None? && !storage.closed && ready && !closed
      requires Holds(playlist, parts, storage.file) && Divisible(playlist) && Positive(playlist)
      requires Kept(flushed, held, Some(sample), before) && currentPart == Some(held + [sample])
      requires next == Some(incoming) && accepted == before + [incoming] && |keys| == |accepted|
      requires Durations(playlist) == startDTS - first && startDTS <= incoming.dts
      requires Lasting(playlist, forced, Limit()) && (force || incoming.dts - startDTS > Limit())
      modifies this, storage
      ensures st.Failed? <==> marshal(held + [sample]).None?
      ensures st.Panicked? <==>
                && marshal(held + [sample]).Some?
                && (Word(incoming.dts - old(startDTS)) == 0 || Word(incoming.dts - old(first)) == 0)
      ensures st.Ok? ==> Valid() && ready && !closed && first == old(first) && next == old(next)
      ensures st.Ok? ==> accepted == old(accepted) && keys == old(keys) && startDTS == incoming.dts
      ensures st.Ok? ==>
                && |playlist| == |old(playlist)| + 1 && playlist[..|old(playlist)|] == old(playlist)
                && playlist[|old(playlist)|].duration == incoming.dts - old(startDTS)
    {
      hide Holds, Durations, Kept, Word, Divisible, Positive, Lasting, Unsplit;
      KeptFlush(flushed, held, sample, before);
      st := FlushSegment(incoming.dts);
      if !st.Ok? { return; }
      NotZero(incoming.dts - startDTS);
      PositiveMore(old(playlist), playlist[|old(playlist)|]);
      LastingMore(old(playlist), forced, Limit(), playlist[|old(playlist)|], force);
      UnsplitNew(before, keys, incoming, Limit());
      flushed, forced, begun := flushed + [currentPart.value], forced + [force], |before|;
      startDTS := incoming.dts;
      currentPart := Some([incoming]);
    }

    /** `WriteData` from the point where the sample is known.  A closed track refuses, and so
        does one whose codec is not known. */
    method WriteData(randomAccess: bool, forceSwitch: bool, arrived: Sample) returns (st: Status)
      requires Valid()
      modifies this, storage
      ensures old(closed || !ready) ==>
                st.Failed? && Valid() && closed == old(closed) && playlist == old(playlist) && accepted == old(accepted)
      ensures var dts, began := arrived.dts + START_DTS, old(startDTS);
              var cut := old(!closed && ready && next.Some?) && dts >= began && randomAccess &&
                         (forceSwitch || dts - began > segmentDuration * SECOND);
              && (st.Panicked? <==> cut && marshal(old(Closing())).Some? && old(ZeroLength(arrived.dts + START_DTS)))
              && (st.Failed? <==> old(closed || !ready) || (cut && marshal(old(Closing())).None?))
              && (st.Ok? ==> accepted == old(accepted) + if dts >= began then [arrived.(dts := dts)] else [])
      ensures st.Ok? ==> Valid() && !closed && (old(next).Some? ==> first == old(first))
    {
      hide Track.Valid, Track.Closing, Track.ZeroLength;
      if closed || !ready { return Failed; }
      st := WriteVideo(randomAccess, forceSwitch, arrived);
    }

    /** `writeVideo` without a sample: the waiting sample is written and the last segment
        ends now. */
    method FinishVideo(now: int) returns (st: Status)
      requires Valid() && closed && !storage.closed
      modifies this, storage
      ensures old(next).None? ==> st.Ok?
      ensures old(next).Some? ==>
                && (st.Failed? <==> marshal(old(Closing())).None?)
                && (st.Panicked? <==> marshal(old(Closing())).Some? && old(ZeroLength(now)))
      ensures st.Ok? ==>
                && Valid() && closed && !storage.closed && next.None?
                && accepted == old(accepted) && first == old(first)
      ensures st.Ok? && old(next).Some? ==> Durations(playlist) == now - first && Unrepeated(flushed) == accepted
      ensures st.Ok? && old(next).Some? && old(Positive(playlist)) && now > old(startDTS) ==> Positive(playlist)
      ensures st.Ok? && old(next).None? ==> playlist == old(playlist)
    {
      hide Holds, Durations, Word, Divisible, Kept, Unrepeated, Lasting, Unsplit;
      if next.None? { return Ok; }
      ghost var held, sample := Open(), next.value;
      TakeWaiting(None);
      st := LastPart(now, held, sample);
    }

    /** Lines 578-600 once more, for the last part. */
    method LastPart(now: int, ghost held: seq<Sample>, ghost sample: Sample) returns (st: Status)
      requires storage.Valid() && storage.buffer.None? && !storage.closed && closed
      requires Holds(playlist, parts, storage.file) && Divisible(playlist) && Lasting(playlist, forced, Limit())
      requires Kept(flushed, held, Some(sample), accepted) && currentPart == Some(held + [sample])
      requires next.None? && |keys| == |accepted| && Durations(playlist) == startDTS - first
      modifies this, storage
      ensures st.Failed? <==> marshal(held + [sample]).None?
      ensures st.Panicked? <==>
                marshal(held + [sample]).Some? && (Word(now - old(startDTS)) == 0 || Word(now - old(first)) == 0)
      ensures st.Ok? ==>
                && Valid() && closed && !storage.closed && next.None?
                && accepted == old(accepted) && first == old(first)
                && Durations(playlist) == now - first && Unrepeated(flushed) == accepted
                && (old(Positive(playlist)) && now > old(startDTS) ==> Positive(playlist))
    {
      hide Holds, Durations, Word, Divisible, Kept, Unrepeated, Lasting, Unsplit;
      KeptFlush(flushed, held, sample, accepted);
      st := FlushSegment(now);
      if !st.Ok? { return; }
      LastingMore(old(playlist), forced, Limit(), playlist[|old(playlist)|], true);
      flushed, forced := flushed + [currentPart.value], forced + [true];
      KeptDone(flushed, accepted);
      startDTS := 0;
      currentPart := None;
      return Ok;
    }

    /** Afterwards no sample waits: the parts in the file hold all that were accepted.  Closing
        panics exactly if the last segment ends where it began, or where the first did. */
    method Close(now: int) returns (st: Status)
      requires Valid()
      modifies this, storage
      ensures old(closed) ==> st.Ok? && playlist == old(playlist)
      ensures st.Ok? ==> Valid() && closed && accepted == old(accepted)
      ensures st.Failed? <==> old(!closed && next.Some?) && marshal(old(Closing())).None?
      ensures st.Panicked? <==>
                old(!closed && next.Some? && ZeroLength(now)) && marshal(old(Closing())).Some?
      ensures st.Ok? && !old(closed) ==> next.None? && Unrepeated(flushed) == accepted
      ensures st.Ok? && !old(closed) && old(next).Some? ==>
                Durations(playlist) == now - old(first) && (now > old(startDTS) ==> Positive(playlist))
    {
      if closed { return Ok; }
      closed := true;
      if !ready { return Ok; }
      st := FinishVideo(now);
      if !st.Ok? { return; }
      assert Pending(storage.buffer) == [];
      assert storage.file + [] == storage.file;
      storage.Close();
    }
  }

  /** A track to which one sample was given: it waits, and nothing else has happened. */
  method OneSample(marshal: seq<Sample> -> Option<Bytes>, s: Sample) returns (t: Track)
    requires s.dts >= 0
    ensures fresh(t) && fresh(t.storage) && t.Valid() && t.ready && !t.closed && t.marshal == marshal
    ensures t.next.Some? && t.Closing() == [s.(dts := s.dts + START_DTS)]
    ensures t.startDTS == t.first == s.dts + START_DTS
  {
    t := new Track(marshal, 1);
    var _ := t.TryReady(true);
    hide Holds, Kept, Divisible, Positive, Word, Lasting, Unsplit;
    var _ := t.WriteVideo(true, false, s);
  }

  /** The panic is reachable at the end: one sample waits, and by the clock the recording is
      closed at the very time of that sample. */
  method ClosedAtOnce(marshal: seq<Sample> -> Option<Bytes>, s: Sample) returns (st: Status)
    requires s.dts >= 0 && marshal([s.(dts := s.dts + START_DTS)]).Some?
    ensures st.Panicked?
  {
    var t := OneSample(marshal, s);
    SmallWord(0);
    hide Word;
    assert t.ZeroLength(s.dts + START_DTS);
    hide Track.Valid, Track.ZeroLength, Track.Closing;
    st := t.Close(s.dts + START_DTS);
  }

  /** So it is in `writeVideo`: two samples with the same timestamp, the second of which is made
      to begin a part. */
  method EqualTimestamps(marshal: seq<Sample> -> Option<Bytes>, s: Sample) returns (st: Status)
    requires s.dts >= 0 && marshal([s.(dts := s.dts + START_DTS)]).Some?
    ensures st.Panicked?
  {
    var t := OneSample(marshal, s);
    SmallWord(0);
    hide Word;
    assert t.ZeroLength(s.dts + START_DTS);
    hide Track.Valid, Track.ZeroLength, Track.Closing;
    st := t.WriteVideo(true, true, s);
  }

  lemma PositiveMore(segs: seq<Segment>, s: Segment)
    requires Positive(segs) && s.duration > 0
    ensures Positive(segs + [s])
  {}

  lemma NotZero(x: int)
    requires Word(x) != 0
    ensures x != 0
  {}

  lemma DivisibleMore(segs: seq<Segment>, s: Segment)
    requires Divisible(segs)
    ensures Divisible(segs + [s]) <==> Word(s.duration) != 0 && Word(Durations(segs) + s.duration) != 0
  {
    var all := segs + [s];
    assert all[..|segs|] == segs && all[|segs|] == s;
    hide Word;
  }
}
