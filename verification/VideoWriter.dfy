/** From a decoded H.264 sample to the recording: the bytes are split into NAL units, the
    decoding timestamp is reconstructed, and the sample is written to the track. */
module VideoWriter {
  import opened Outcomes
  import opened Octets
  import N = Nalus
  import D = DtsExtractor
  import R = Recording

  type Nalu = D.Nalu

  const PPS := 8
  const CLOCK_RATE := 90_000

  /** The units of a byte stream.  None of them is empty, so their first bytes can be read. */
  function AccessUnit(data: Bytes): (au: seq<Nalu>)
    ensures au == N.Pieces(data)
  {
    N.PiecesProper(data);
    N.Pieces(data)
  }

  // ---------------------------------------------------------------- parameter sets

  /** The parameter sets seen last, and whether one has changed since the last new segment. */
  datatype Params = Params(sps: Option<Nalu>, pps: Option<Nalu>, forceSwitch: bool)

  datatype Noticed =
    | BadSps(params: Params)
    | Noticed(params: Params, randomAccess: bool, nonIdr: bool, hasSps: bool, hasPps: bool)

  function NoticeOne(c: D.Codec, s: Noticed, nalu: Nalu): Noticed {
    if s.BadSps? then s
    else
      var typ := nalu[0] % 32;
      var p := s.params;
      if typ == D.IDR then s.(randomAccess := true)
      else if typ == D.NON_IDR then s.(nonIdr := true)
      else if typ == D.SPS then
        if p.sps == Some(nalu) then s.(hasSps := true)
        else
          var q := p.(sps := Some(nalu), forceSwitch := true);
          if c.parseSps(nalu).None? then BadSps(q) else s.(params := q, hasSps := true)
      else if typ == PPS then
        s.(params := if p.pps == Some(nalu) then p else p.(pps := Some(nalu), forceSwitch := true), hasPps := true)
      else s
  }

  function Notice(c: D.Codec, p: Params, au: seq<Nalu>): Noticed {
    if au == [] then Noticed(p, false, false, false, false)
    else NoticeOne(c, Notice(c, p, au[..|au| - 1]), au[|au| - 1])
  }

  /** The unit has the type. */
  predicate Typed(nalu: Nalu, typ: int) { nalu[0] % 32 == typ }

  /** What the flags tell about the units. */
  lemma {:induction false} NoticeMeans(c: D.Codec, p: Params, au: seq<Nalu>)
    requires Notice(c, p, au).Noticed?
    ensures var s := Notice(c, p, au);
            && (s.randomAccess <==> Includes(au, D.IDR)) && (s.nonIdr <==> Includes(au, D.NON_IDR))
            && (s.hasSps <==> Includes(au, D.SPS)) && (s.hasPps <==> Includes(au, PPS))
  {
    if au != [] {
      NoticeMeans(c, p, au[..|au| - 1]);
      IncludesSnoc(au, D.IDR);
      IncludesSnoc(au, D.NON_IDR);
      IncludesSnoc(au, D.SPS);
      IncludesSnoc(au, PPS);
    }
    hide Includes;
  }

  predicate Includes(au: seq<Nalu>, typ: int) { exists i | 0 <= i < |au| :: Typed(au[i], typ) }

  lemma IncludesSnoc(au: seq<Nalu>, typ: int)
    requires au != []
    ensures var n := |au| - 1;
            Includes(au, typ) <==> Includes(au[..n], typ) || Typed(au[n], typ)
  {
    var n := |au| - 1;
    assert forall i | 0 <= i < n :: au[..n][i] == au[i];
  }

  /** Some unit is a parameter set that differs from the one of its kind before it. */
  predicate Changes(p: Params, au: seq<Nalu>) {
    au != [] &&
    var n := |au| - 1;
    || Changes(p, au[..n])
    || (Typed(au[n], D.SPS) && LastOf(p.sps, au[..n], D.SPS) != Some(au[n]))
    || (Typed(au[n], PPS) && LastOf(p.pps, au[..n], PPS) != Some(au[n]))
  }

  /** The last unit of the type, or what was known before. */
  function LastOf(known: Option<Nalu>, au: seq<Nalu>, typ: int): Option<Nalu> {
    if au == [] then known
    else if Typed(au[|au| - 1], typ) then Some(au[|au| - 1])
    else LastOf(known, au[..|au| - 1], typ)
  }

  /** The parameter sets known afterwards are the last ones, and a new segment is asked for
      exactly if one of them has changed. */
  lemma {:induction false} ParamsMean(c: D.Codec, p: Params, au: seq<Nalu>)
    requires Notice(c, p, au).Noticed?
    ensures var q := Notice(c, p, au).params;
            && q.sps == LastOf(p.sps, au, D.SPS) && q.pps == LastOf(p.pps, au, PPS)
            && (q.forceSwitch <==> p.forceSwitch || Changes(p, au))
  {
    if au != [] {
      var n := |au| - 1;
      ParamsMean(c, p, au[..n]);
      assert NoticeOne(c, Notice(c, p, au[..n]), au[n]) == Notice(c, p, au);
      hide Notice;
    }
  }

  /** Every sequence parameter set that differs from the one known before it can be parsed. */
  predicate Readable(c: D.Codec, known: Option<Nalu>, au: seq<Nalu>) {
    forall i | 0 <= i < |au| && Typed(au[i], D.SPS) && LastOf(known, au[..i], D.SPS) != Some(au[i]) ::
      c.parseSps(au[i]).Some?
  }

  lemma {:induction false} NoticedIff(c: D.Codec, p: Params, au: seq<Nalu>)
    ensures Notice(c, p, au).Noticed? <==> Readable(c, p.sps, au)
  {
    if au != [] {
      var n := |au| - 1;
      var before := au[..n];
      NoticedIff(c, p, before);
      forall i | 0 <= i < n ensures before[i] == au[i] && before[..i] == au[..i] {}
      assert Readable(c, p.sps, au) <==> Readable(c, p.sps, before) && ReadableAt(c, p.sps, au, n);
      if Notice(c, p, before).Noticed? { ParamsMean(c, p, before); }
    }
  }

  predicate ReadableAt(c: D.Codec, known: Option<Nalu>, au: seq<Nalu>, i: nat)
    requires i < |au|
  {
    Typed(au[i], D.SPS) && LastOf(known, au[..i], D.SPS) != Some(au[i]) ==> c.parseSps(au[i]).Some?
  }

  /** The units to be recorded: the last known parameter sets are added where the sample has none. */
  function Whole(p: Params, au: seq<Nalu>): seq<Nalu> {
    var sps, pps := LastOf(p.sps, au, D.SPS), LastOf(p.pps, au, PPS);
    au + (if Includes(au, D.SPS) || sps.None? then [] else [sps.value])
       + (if Includes(au, PPS) || pps.None? then [] else [pps.value])
  }

  /** The sample holds a picture, and a sequence parameter set is known for it. */
  predicate Recordable(p: Params, au: seq<Nalu>) {
    (Includes(au, D.IDR) || Includes(au, D.NON_IDR)) && LastOf(p.sps, au, D.SPS).Some?
  }

  /** A parameter set has changed, in this sample or since the last new segment. */
  predicate Renews(p: Params, au: seq<Nalu>) { p.forceSwitch || Changes(p, au) }

  // ---------------------------------------------------------------- the writer

  predicate Ascending(samples: seq<R.Sample>) {
    forall i, j | 0 <= i < j < |samples| :: samples[i].dts < samples[j].dts
  }

  /** `Skipped` is a return without error before anything is written, `Refused` one with. */
  datatype Written = Skipped | Refused | Wrote(status: R.Status)

  class H264Writer {
    const codec: D.Codec
    const pack: (seq<Nalu>, int) -> Option<Bytes>
    const clockRate: nat
    const track: R.Track
    var params: Params
    var keyFramed: bool
    var extractor: D.DTSExtractor?

    ghost predicate Extracting()
      reads this, extractor
    {
      keyFramed ==> extractor != null && extractor.codec == codec && D.Bounded(extractor.Value())
    }

    /** The sample that waits came no later than the last timestamp given out. */
    ghost predicate InStep()
      reads this, extractor, track
    {
      track.next.Some? ==>
        && keyFramed && extractor != null && extractor.prevDTSFilled
        && track.next.value.dts <= extractor.prevDTS + R.START_DTS
    }

    ghost predicate Valid()
      reads this, extractor, track, track.storage
    {
      && track.Valid() && track.ready && !track.closed
      && Extracting() && InStep() && Ascending(track.accepted)
    }

    /** The state in which the timestamp of the next sample is reconstructed. */
    ghost function Start(): D.State
      reads this, extractor
    {
      if keyFramed && extractor != null then extractor.Value() else D.FRESH
    }

    ghost function Timestamp(units: seq<Nalu>, pts: int): Option<int>
      reads this, extractor
      requires Extracting()
    {
      D.Extract(codec, Start(), units, pts).1
    }

    /** The sample that is written, if timestamp and packing succeed. */
    ghost function Packed(units: seq<Nalu>, pts: int): Option<R.Sample>
      reads this, extractor
      requires Extracting()
    {
      var dts := Timestamp(units, pts);
      if dts.None? then None
      else
        var payload := pack(units, pts - dts.value);
        if payload.None? then None else Some(R.Sample(dts.value, payload.value))
    }

    constructor (codec: D.Codec, pack: (seq<Nalu>, int) -> Option<Bytes>, clockRate: nat, track: R.Track)
      requires track.Valid() && track.Blank() && track.ready && !track.closed
      ensures Valid() && this.track == track && !keyFramed
    {
      this.codec, this.pack, this.clockRate, this.track := codec, pack, clockRate, track;
      params, keyFramed, extractor := Params(None, None, false), false, null;
    }

    /** The loop of lines 344-385. */
    method Inspect(au: seq<Nalu>) returns (s: Noticed)
      modifies this`params
      ensures s == Notice(codec, old(params), au) && params == s.params
    {
      var randomAccess, nonIdr, hasSps, hasPps := false, false, false, false;
      var i := 0;
      assert au[..0] == [];
      while i < |au|
        invariant 0 <= i <= |au|
        invariant Notice(codec, old(params), au[..i]) == Noticed(params, randomAccess, nonIdr, hasSps, hasPps)
      {
        assert au[..i + 1][..i] == au[..i] && au[..i + 1][i] == au[i];
        var nalu := au[i];
        var typ := nalu[0] % 32;
        if typ == D.IDR {
          randomAccess := true;
        } else if typ == D.NON_IDR {
          nonIdr := true;
        } else if typ == D.SPS {
          hasSps := true;
          if params.sps != Some(nalu) {
            params := params.(sps := Some(nalu), forceSwitch := true);
            if codec.parseSps(nalu).None? {
              BadStays(codec, old(params), au, i + 1);
              return BadSps(params);
            }
          }
        } else if typ == PPS {
          hasPps := true;
          if params.pps != Some(nalu) {
            params := params.(pps := Some(nalu), forceSwitch := true);
          }
        }
        i := i + 1;
      }
      assert au[..i] == au;
      return Noticed(params, randomAccess, nonIdr, hasSps, hasPps);
    }

    /** Lines 416-424: nothing is recorded before the first key frame. */
    method KeyFramed(randomAccess: bool) returns (go: bool)
      requires Valid()
      modifies this`keyFramed, this`extractor
      ensures go == (old(keyFramed) || randomAccess) && keyFramed == go
      ensures Valid() && (go ==> extractor != null)
      ensures extractor == old(extractor) || fresh(extractor)
      ensures Start() == old(Start())
    {
      if !keyFramed {
        if !randomAccess { return false; }
        keyFramed := true;
        extractor := new D.DTSExtractor(codec);
      }
      return true;
    }

    /** Lines 426-447: the timestamp is reconstructed and the sample written. */
    method Record(au: seq<Nalu>, pts: int, randomAccess: bool, forceSwitch: bool) returns (w: Written)
      requires Valid() && keyFramed && extractor != null
      modifies track, track.storage, extractor
      ensures w.Refused? || (w.Wrote? && w.status.Ok?) ==> Valid()
      ensures w.Wrote? && w.status.Panicked? ==>
                old(track.next).Some? && extractor.prevDTS + R.START_DTS - old(track.first) >= R.WORD
      ensures var s := old(Packed(au, pts));
              if s.None? then w.Refused? && Unrecorded(old(track.accepted), old(track.playlist))
              else w.Wrote? && (w.status.Ok? ==>
                     Recorded(old(track.accepted), old(track.playlist), old(track.startDTS), old(track.next).Some?,
                              s.value, randomAccess, forceSwitch))
    {
      hide D.Extract, D.Bounded, R.Holds, R.Kept, R.Word, R.Divisible, R.Positive, R.Lasting, R.Unsplit;
      D.ExtractAdvances(codec, extractor.Value(), au, pts);
      var dts := extractor.ExtractDTS(au, pts);
      if dts.None? { return Refused; }
      var payload := pack(au, pts - dts.value);
      if payload.None? { return Refused; }
      var s := R.Sample(dts.value, payload.value);
      ghost var stored := s.(dts := s.dts + R.START_DTS);
      NeverZero(stored);
      LastWaits();
      var st := track.WriteVideo(randomAccess, forceSwitch, s);
      if st.Ok? && stored.dts >= old(track.startDTS) { AscendingMore(old(track.accepted), stored); }
      return Wrote(st);
    }

    /** Nothing was written. */
    ghost predicate Unrecorded(accepted: seq<R.Sample>, playlist: seq<R.Segment>)
      reads track
    {
      track.accepted == accepted && track.playlist == playlist
    }

    /** The sample was taken with its timestamp shifted, unless that lies before the current part;
        it began a new segment exactly if it is a random access point and that was forced, or is
        later than the segment duration after the part began. */
    ghost predicate Recorded(accepted: seq<R.Sample>, playlist: seq<R.Segment>, began: int, waiting: bool,
                             s: R.Sample, randomAccess: bool, forceSwitch: bool)
      reads track
    {
      var dts := s.dts + R.START_DTS;
      if dts < began then Unrecorded(accepted, playlist)
      else
        && track.accepted == accepted + [R.Sample(dts, s.payload)]
        && if waiting && randomAccess && (forceSwitch || dts - began > track.segmentDuration * R.SECOND)
           then |track.playlist| == |playlist| + 1 && track.playlist[..|playlist|] == playlist && track.startDTS == dts
           else track.playlist == playlist
    }

    /** A sample later than the waiting one gives the part a duration. */
    lemma NeverZero(stored: R.Sample)
      requires track.Valid() && !track.closed && (track.next.Some? ==> track.next.value.dts < stored.dts)
      ensures track.next.Some? && stored.dts < track.first + R.WORD ==> !track.ZeroLength(stored.dts)
    {
      if track.next.Some? && stored.dts < track.first + R.WORD { track.ZeroLengthMeans(stored.dts); }
    }

    /** The waiting sample is the last one accepted. */
    lemma LastWaits()
      requires track.Valid() && !track.closed
      ensures track.accepted != [] <==> track.next.Some?
      ensures track.next.Some? ==> track.accepted[|track.accepted| - 1] == track.next.value
    {
      hide R.Holds, R.Divisible, R.Positive, R.Lasting, R.Unsplit;
    }

    method Units(data: Bytes) returns (au: seq<Nalu>)
      ensures au == AccessUnit(data)
    {
      var pieces := N.Split264Nalus(data);
      N.PiecesProper(data);
      au := pieces;
    }

    /** The parameter sets seen last are known, and a change is remembered until a key frame. */
    ghost predicate Learned(p: Params, units: seq<Nalu>)
      reads this`params
    {
      params == Params(LastOf(p.sps, units, D.SPS), LastOf(p.pps, units, PPS),
                       Renews(p, units) && !(Includes(units, D.IDR) && Recordable(p, units)))
    }

    /** Lines 288-412: what to record, unless there is nothing or it cannot be read. */
    method Prepare(data: Bytes) returns (early: Written, au: seq<Nalu>, randomAccess: bool, forceSwitch: bool)
      modifies this`params
      ensures var p, units := old(params), AccessUnit(data);
              && (early.Refused? <==> clockRate != 90_000 || !Readable(codec, p.sps, units))
              && (early.Skipped? <==> !early.Refused? && !Recordable(p, units))
              && (early.Wrote? ==>
                    && au == Whole(p, units) && randomAccess == Includes(units, D.IDR)
                    && forceSwitch == (randomAccess && Renews(p, units)))
              && (!early.Refused? ==> Learned(p, units))
    {
      early, au, randomAccess, forceSwitch := Refused, [], false, false;
      if clockRate != CLOCK_RATE { return; }
      hide N.Pieces, AccessUnit, Notice;
      var units := Units(data);
      ghost var p := params;
      NoticedIff(codec, p, units);
      var s := Inspect(units);
      if s.BadSps? { return; }
      NoticeMeans(codec, p, units);
      ParamsMean(codec, p, units);
      if s.hasSps { IncludesLast(p.sps, units, D.SPS); }
      hide Includes, LastOf, Readable, Changes;
      early := Skipped;
      if !s.randomAccess && !s.nonIdr { return; }
      au := units;
      if !s.hasSps {
        if params.sps.None? { return; }
        au := au + [params.sps.value];
      }
      if !s.hasPps && params.pps.Some? { au := au + [params.pps.value]; }
      randomAccess := s.randomAccess;
      assert au == Whole(p, units);
      if s.randomAccess && params.forceSwitch {
        params := params.(forceSwitch := false);
        forceSwitch := true;
      }
      early := Wrote(R.Ok);
    }

    /** `writeH26x` for H.264.  It writes exactly if clock rate and parameter sets are right, the
        sample holds a picture, and recording has begun or begins with this key frame; it then
        writes the units with the missing parameter sets added, and a changed parameter set makes
        a key frame begin a new segment.  Samples are stored with strictly increasing timestamps,
        and the index does not panic unless the recording has become longer than 64 bits can
        tell. */
    method WriteH264(pts: int, data: Bytes) returns (w: Written)
      requires Valid()
      modifies this, track, track.storage, extractor
      ensures !w.Wrote? || w.status.Ok? ==> Valid()
      ensures w.Wrote? && w.status.Panicked? ==>
                && extractor != null && old(track.next).Some?
                && extractor.prevDTS + R.START_DTS - old(track.first) >= R.WORD
      ensures var p, units := old(params), AccessUnit(data);
              var key, readable := Includes(units, D.IDR), clockRate == 90_000 && Readable(codec, p.sps, units);
              var writes := readable && Recordable(p, units) && (old(keyFramed) || key);
              var s := old(Packed(Whole(params, AccessUnit(data)), pts));
              && (w.Skipped? <==> readable && !writes)
              && (w.Refused? <==> !readable || (writes && s.None?))
              && (!w.Wrote? ==> Unrecorded(old(track.accepted), old(track.playlist)))
              && (w.Wrote? && w.status.Ok? ==>
                    Recorded(old(track.accepted), old(track.playlist), old(track.startDTS), old(track.next).Some?,
                             s.value, key, Renews(p, units)))
              && keyFramed == (old(keyFramed) || writes) && (readable ==> Learned(p, units))
    {
      hide Ascending, D.Bounded, D.Extract, R.Holds, R.Kept, R.Divisible, R.Positive, R.Lasting, R.Unsplit;
      hide Includes, Readable, Recordable, Renews, Whole, AccessUnit, LastOf;
      var early, au, randomAccess, forceSwitch := Prepare(data);
      if !early.Wrote? { return early; }
      var go := KeyFramed(randomAccess);
      if !go { return Skipped; }
      w := Record(au, pts, randomAccess, forceSwitch);
    }
  }

  lemma {:induction false} IncludesLast(known: Option<Nalu>, au: seq<Nalu>, typ: int)
    requires Includes(au, typ)
    ensures LastOf(known, au, typ).Some?
  {
    var n := |au| - 1;
    IncludesSnoc(au, typ);
    if !Typed(au[n], typ) { IncludesLast(known, au[..n], typ); }
  }

  lemma AscendingMore(samples: seq<R.Sample>, s: R.Sample)
    requires Ascending(samples) && (samples != [] ==> samples[|samples| - 1].dts < s.dts)
    ensures Ascending(samples + [s])
  {}

  lemma {:induction false} BadStays(c: D.Codec, p: Params, au: seq<Nalu>, i: nat)
    requires i <= |au| && Notice(c, p, au[..i]).BadSps?
    ensures Notice(c, p, au) == Notice(c, p, au[..i])
  {
    if i == |au| {
      assert au[..i] == au;
    } else {
      assert au[..|au| - 1][..i] == au[..i];
      BadStays(c, p, au[..|au| - 1], i);
    }
  }
}
