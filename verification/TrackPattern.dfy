/** Publication patterns: a predicate language over tracks, and the filter that keeps whole
    publications. */
module TrackPattern {
  datatype Op =
    | All | Some_ | None_
    | PublishId | StreamId | TrackId | TrackRid
    | LabelAllMatch | LabelSomeMatch | LabelNoneMatch
    | LabelAllHas | LabelSomeHas | LabelNoneHas
    | TrackType | Unknown

  datatype Pattern = Pattern(op: Op, args: seq<string>, children: seq<Pattern>)

  datatype TrackInfo = TrackInfo(
    pubId: string, streamId: string, globalId: string, rid: string, labels: map<string, string>, kind: string)

  predicate Composite(op: Op) { op.All? || op.Some_? || op.None_? }

  predicate OnPairs(op: Op) { op.LabelAllMatch? || op.LabelSomeMatch? || op.LabelNoneMatch? }

  /** `Validate` returns no error. */
  predicate Valid(p: Pattern)
    decreases p
  {
    if Composite(p.op) then |p.args| == 0 && forall i | 0 <= i < |p.children| :: Valid(p.children[i])
    else
      && p.children == [] && !p.op.Unknown?
      && (if OnPairs(p.op) then |p.args| >= 2 && |p.args| % 2 == 0 else |p.args| >= 1)
      && (p.op.TrackType? ==> p.args[0] == "video" || p.args[0] == "audio")
  }

  /** The pattern and everything below it. */
  function Nodes(p: Pattern): (r: seq<Pattern>)
    decreases p
  {
    [p] + NodesOf(p.children)
  }

  function NodesOf(cs: seq<Pattern>): (r: seq<Pattern>)
    decreases cs
  {
    if cs == [] then [] else Nodes(cs[0]) + NodesOf(cs[1..])
  }

  /** The faults a pattern can have: arguments where there should be none, children where there
      should be none, an unknown operation, too few arguments, a label without its value, and a
      track type that is neither video nor audio. */
  predicate Faulty(q: Pattern) {
    || (q.op in {All, Some_, None_} && q.args != [])
    || (q.op !in {All, Some_, None_} && q.children != [])
    || q.op == Unknown
    || (q.op in {PublishId, StreamId, TrackId, TrackRid, LabelAllHas, LabelSomeHas, LabelNoneHas, TrackType} &&
        q.args == [])
    || (q.op in {LabelAllMatch, LabelSomeMatch, LabelNoneMatch} && (|q.args| < 2 || |q.args| % 2 == 1))
    || (q.op == TrackType && q.args != [] && q.args[0] != "video" && q.args[0] != "audio")
  }

  /** A pattern is rejected if and only if it, or some pattern below it, has one of the faults. */
  lemma {:induction false} RejectedIff(p: Pattern)
    ensures Valid(p) <==> forall q | q in Nodes(p) :: !Faulty(q)
    decreases p, 1
  {
    assert p in Nodes(p) && forall q | q in Nodes(p) :: q == p || q in NodesOf(p.children);
    assert forall q | q in NodesOf(p.children) :: q in Nodes(p);
    RejectedAmong(p.children);
  }

  lemma {:induction false} RejectedAmong(cs: seq<Pattern>)
    ensures (forall i | 0 <= i < |cs| :: Valid(cs[i])) <==> (forall q | q in NodesOf(cs) :: !Faulty(q))
    decreases cs, 0
  {
    if cs != [] {
      hide Valid, Faulty;
      RejectedIff(cs[0]);
      RejectedAmong(cs[1..]);
      assert cs == [cs[0]] + cs[1..];
      assert forall q | q in NodesOf(cs) :: q in Nodes(cs[0]) || q in NodesOf(cs[1..]);
      assert forall q | q in Nodes(cs[0]) || q in NodesOf(cs[1..]) :: q in NodesOf(cs);
    }
  }

  // ---------------------------------------------------------------- Match as it runs

  /** `Crash` is an index out of range. */
  datatype Answer = Yes | No | Crash

  function Answered(b: bool): Answer { if b then Yes else No }

  /** A loop over the children that returns `out` at the first answer `stop`. */
  function Children(cs: seq<Pattern>, t: TrackInfo, stop: Answer, out: Answer, end: Answer): Answer
    decreases cs
  {
    if cs == [] then end
    else
      var a := Match(cs[0], t);
      if a == Crash then Crash else if a == stop then out else Children(cs[1..], t, stop, out, end)
  }

  /** The loops over pairs of label name and value: `i += 2`, reading `args[i + 1]`. */
  function Pairs(args: seq<string>, t: TrackInfo, stop: bool, out: Answer, end: Answer): Answer
    decreases |args|
  {
    if args == [] then end
    else if |args| == 1 then Crash
    else if MatchLabel(t, args[0], args[1]) == stop then out
    else Pairs(args[2..], t, stop, out, end)
  }

  function Names(args: seq<string>, t: TrackInfo, stop: bool, out: Answer, end: Answer): Answer {
    if args == [] then end
    else if (args[0] in t.labels) == stop then out
    else Names(args[1..], t, stop, out, end)
  }

  predicate MatchLabel(t: TrackInfo, name: string, value: string) { name in t.labels && t.labels[name] == value }

  function Match(p: Pattern, t: TrackInfo): Answer
    decreases p
  {
    match p.op
    case All => Children(p.children, t, No, No, Yes)
    case Some_ => Children(p.children, t, Yes, Yes, No)
    case None_ => Children(p.children, t, Yes, No, Yes)
    case PublishId => Answered(t.pubId in p.args)
    case StreamId => Answered(t.streamId in p.args)
    case TrackId => Answered(t.globalId in p.args)
    case TrackRid => Answered(t.rid in p.args)
    case LabelAllMatch => Pairs(p.args, t, false, No, Yes)
    case LabelSomeMatch => Pairs(p.args, t, true, Yes, No)
    case LabelNoneMatch => Pairs(p.args, t, true, No, Yes)
    case LabelAllHas => Names(p.args, t, false, No, Yes)
    case LabelSomeHas => Names(p.args, t, true, Yes, No)
    case LabelNoneHas => Names(p.args, t, true, No, Yes)
    case TrackType => Answered(t.kind in p.args)
    case Unknown => No
  }

  /** The loops over the arguments two at a time. */
  method MatchPairs(args: seq<string>, t: TrackInfo, stop: bool, out: Answer, end: Answer) returns (a: Answer)
    ensures a == Pairs(args, t, stop, out, end)
  {
    var i := 0;
    while i < |args|
      invariant 0 <= i <= |args| && Pairs(args, t, stop, out, end) == Pairs(args[i..], t, stop, out, end)
    {
      if i + 1 >= |args| { return Crash; }
      if MatchLabel(t, args[i], args[i + 1]) == stop { return out; }
      assert args[i..][2..] == args[i + 2..];
      i := i + 2;
    }
    return end;
  }

  method MatchNames(args: seq<string>, t: TrackInfo, stop: bool, out: Answer, end: Answer) returns (a: Answer)
    ensures a == Names(args, t, stop, out, end)
  {
    var i := 0;
    while i < |args|
      invariant 0 <= i <= |args| && Names(args, t, stop, out, end) == Names(args[i..], t, stop, out, end)
    {
      if (args[i] in t.labels) == stop { return out; }
      assert args[i..][1..] == args[i + 1..];
      i := i + 1;
    }
    return end;
  }

  method MatchChildren(cs: seq<Pattern>, t: TrackInfo, stop: Answer, out: Answer, end: Answer) returns (a: Answer)
    ensures a == Children(cs, t, stop, out, end)
    decreases cs, 0
  {
    var i := 0;
    while i < |cs|
      invariant 0 <= i <= |cs| && Children(cs, t, stop, out, end) == Children(cs[i..], t, stop, out, end)
    {
      a := MatchPattern(cs[i], t);
      if a == Crash { return; }
      if a == stop { return out; }
      assert cs[i..][1..] == cs[i + 1..];
      i := i + 1;
    }
    return end;
  }

  /** `Match`. */
  method MatchPattern(p: Pattern, t: TrackInfo) returns (a: Answer)
    ensures a == Match(p, t)
    ensures Valid(p) ==> a == Answered(Accepts(p, t))
    decreases p, 1
  {
    if Valid(p) { MatchMeans(p, t); }
    match p.op
    case All => a := MatchChildren(p.children, t, No, No, Yes);
    case Some_ => a := MatchChildren(p.children, t, Yes, Yes, No);
    case None_ => a := MatchChildren(p.children, t, Yes, No, Yes);
    case PublishId => a := Answered(t.pubId in p.args);
    case StreamId => a := Answered(t.streamId in p.args);
    case TrackId => a := Answered(t.globalId in p.args);
    case TrackRid => a := Answered(t.rid in p.args);
    case LabelAllMatch => a := MatchPairs(p.args, t, false, No, Yes);
    case LabelSomeMatch => a := MatchPairs(p.args, t, true, Yes, No);
    case LabelNoneMatch => a := MatchPairs(p.args, t, true, No, Yes);
    case LabelAllHas => a := MatchNames(p.args, t, false, No, Yes);
    case LabelSomeHas => a := MatchNames(p.args, t, true, Yes, No);
    case LabelNoneHas => a := MatchNames(p.args, t, true, No, Yes);
    case TrackType => a := Answered(t.kind in p.args);
    case Unknown => a := No;
  }

  /** `Validate`, with false for an error. */
  method Validate(p: Pattern) returns (ok: bool)
    ensures ok == Valid(p)
    decreases p
  {
    if Composite(p.op) {
      if |p.args| != 0 { return false; }
      var i := 0;
      while i < |p.children|
        invariant 0 <= i <= |p.children| && forall j | 0 <= j < i :: Valid(p.children[j])
      {
        ok := Validate(p.children[i]);
        if !ok { return false; }
        i := i + 1;
      }
      return true;
    }
    if |p.children| > 0 { return false; }
    if p.op.Unknown? { return false; }
    if OnPairs(p.op) { return |p.args| >= 2 && |p.args| % 2 == 0; }
    if |p.args| < 1 { return false; }
    return p.op.TrackType? ==> p.args[0] == "video" || p.args[0] == "audio";
  }

  // ---------------------------------------------------------------- what a pattern means

  predicate PairAt(args: seq<string>, t: TrackInfo, i: nat) {
    2 * i + 1 < |args| && MatchLabel(t, args[2 * i], args[2 * i + 1])
  }

  /** The meaning of a pattern, as a formula. */
  predicate Accepts(p: Pattern, t: TrackInfo)
    decreases p
  {
    match p.op
    case All => forall i | 0 <= i < |p.children| :: Accepts(p.children[i], t)
    case Some_ => exists i | 0 <= i < |p.children| :: Accepts(p.children[i], t)
    case None_ => forall i | 0 <= i < |p.children| :: !Accepts(p.children[i], t)
    case PublishId => t.pubId in p.args
    case StreamId => t.streamId in p.args
    case TrackId => t.globalId in p.args
    case TrackRid => t.rid in p.args
    case LabelAllMatch => forall i | 0 <= i < |p.args| / 2 :: PairAt(p.args, t, i)
    case LabelSomeMatch => exists i | 0 <= i < |p.args| / 2 :: PairAt(p.args, t, i)
    case LabelNoneMatch => forall i | 0 <= i < |p.args| / 2 :: !PairAt(p.args, t, i)
    case LabelAllHas => forall i | 0 <= i < |p.args| :: p.args[i] in t.labels
    case LabelSomeHas => exists i | 0 <= i < |p.args| :: p.args[i] in t.labels
    case LabelNoneHas => forall i | 0 <= i < |p.args| :: p.args[i] !in t.labels
    case TrackType => t.kind in p.args
    case Unknown => false
  }

  lemma {:induction false} PairsMeans(args: seq<string>, t: TrackInfo, stop: bool, out: Answer, end: Answer)
    requires |args| % 2 == 0
    ensures Pairs(args, t, stop, out, end) ==
              if exists i | 0 <= i < |args| / 2 :: PairAt(args, t, i) == stop then out else end
    decreases |args|
  {
    if args != [] {
      var rest := args[2..];
      PairsMeans(rest, t, stop, out, end);
      assert PairAt(args, t, 0) == MatchLabel(t, args[0], args[1]);
      assert forall i: nat | i < |rest| / 2 :: PairAt(rest, t, i) == PairAt(args, t, i + 1);
      if i :| 0 <= i < |args| / 2 && PairAt(args, t, i) == stop && i > 0 {
        assert PairAt(rest, t, i - 1) == stop;
      }
    }
  }

  lemma {:induction false} NamesMeans(args: seq<string>, t: TrackInfo, stop: bool, out: Answer, end: Answer)
    ensures Names(args, t, stop, out, end) ==
              if exists i | 0 <= i < |args| :: (args[i] in t.labels) == stop then out else end
  {
    if args != [] {
      NamesMeans(args[1..], t, stop, out, end);
      assert args == [args[0]] + args[1..];
    }
  }

  lemma {:induction false} ChildrenMean(cs: seq<Pattern>, t: TrackInfo, stop: bool, out: Answer, end: Answer)
    requires forall i | 0 <= i < |cs| :: Valid(cs[i])
    ensures Children(cs, t, Answered(stop), out, end) ==
              if exists i | 0 <= i < |cs| :: Accepts(cs[i], t) == stop then out else end
    decreases cs, 0
  {
    if cs != [] {
      MatchMeans(cs[0], t);
      ChildrenMean(cs[1..], t, stop, out, end);
      assert cs == [cs[0]] + cs[1..];
    }
  }

  /** A pattern that passes `Validate` never makes `Match` read past its arguments, and
      `Match` then decides what the pattern means. */
  lemma {:induction false} MatchMeans(p: Pattern, t: TrackInfo)
    requires Valid(p)
    ensures Match(p, t) == Answered(Accepts(p, t))
    decreases p, 1
  {
    if Composite(p.op) {
      ChildrenMean(p.children, t, !p.op.All?, if p.op.Some_? then Yes else No, if p.op.Some_? then No else Yes);
    } else if OnPairs(p.op) {
      PairsMeans(p.args, t, !p.op.LabelAllMatch?, if p.op.LabelSomeMatch? then Yes else No,
                 if p.op.LabelSomeMatch? then No else Yes);
    } else {
      NamesMeans(p.args, t, !p.op.LabelAllHas?, if p.op.LabelSomeHas? then Yes else No,
                 if p.op.LabelSomeHas? then No else Yes);
    }
  }

  // ---------------------------------------------------------------- the filter

  predicate Taken(p: Pattern, t: TrackInfo) { Match(p, t) == Yes }

  /** An accepted track of the publication has the kind. */
  predicate Offers(p: Pattern, tracks: seq<TrackInfo>, pub: string, kind: string) {
    exists i | 0 <= i < |tracks| :: Taken(p, tracks[i]) && tracks[i].pubId == pub && tracks[i].kind == kind
  }

  /** Accepted tracks of the publication cover every requested kind. */
  predicate Covered(p: Pattern, tracks: seq<TrackInfo>, req: seq<string>, pub: string) {
    && ("video" in req ==> Offers(p, tracks, pub, "video"))
    && ("audio" in req ==> Offers(p, tracks, pub, "audio"))
  }

  predicate Kept(p: Pattern, tracks: seq<TrackInfo>, req: seq<string>, t: TrackInfo) {
    Taken(p, t) && Covered(p, tracks, req, t.pubId)
  }

  /** The two lists together are the tracks, and each track is on the side where it belongs. */
  predicate Divides(p: Pattern, tracks: seq<TrackInfo>, req: seq<string>,
                    matched: seq<TrackInfo>, unmatched: seq<TrackInfo>)
  {
    && multiset(matched) + multiset(unmatched) == multiset(tracks)
    && (forall t | t in matched :: Kept(p, tracks, req, t))
    && (forall t | t in unmatched :: !Kept(p, tracks, req, t))
  }

  /** The accepted tracks of one publication, in order. */
  function Group(p: Pattern, tracks: seq<TrackInfo>, pub: string): seq<TrackInfo> {
    if tracks == [] then []
    else
      var t := tracks[|tracks| - 1];
      Group(p, tracks[..|tracks| - 1], pub) + if Taken(p, t) && t.pubId == pub then [t] else []
  }

  function Rest(p: Pattern, tracks: seq<TrackInfo>): seq<TrackInfo> {
    if tracks == [] then []
    else
      var t := tracks[|tracks| - 1];
      Rest(p, tracks[..|tracks| - 1]) + if Taken(p, t) then [] else [t]
  }

  lemma {:induction false} GroupCounts(p: Pattern, tracks: seq<TrackInfo>, pub: string, t: TrackInfo)
    ensures multiset(Group(p, tracks, pub))[t] == if Taken(p, t) && t.pubId == pub then multiset(tracks)[t] else 0
  {
    if tracks != [] {
      hide Taken;
      var n := |tracks| - 1;
      var before, last := tracks[..n], tracks[n];
      GroupCounts(p, before, pub, t);
      assert tracks == before + [last];
      SnocCount(before, last, t);
      SnocCount(Group(p, before, pub), last, t);
      assert !(Taken(p, last) && last.pubId == pub) ==> Group(p, tracks, pub) == Group(p, before, pub);
    }
  }

  lemma {:induction false} RestCounts(p: Pattern, tracks: seq<TrackInfo>, t: TrackInfo)
    ensures multiset(Rest(p, tracks))[t] == if Taken(p, t) then 0 else multiset(tracks)[t]
  {
    if tracks != [] {
      hide Taken;
      var n := |tracks| - 1;
      var before, last := tracks[..n], tracks[n];
      RestCounts(p, before, t);
      assert tracks == before + [last];
      SnocCount(before, last, t);
      SnocCount(Rest(p, before), last, t);
      assert Taken(p, last) ==> Rest(p, tracks) == Rest(p, before);
    }
  }

  lemma SnocCount(s: seq<TrackInfo>, x: TrackInfo, t: TrackInfo)
    ensures multiset(s + [x])[t] == multiset(s)[t] + if x == t then 1 else 0
  {}

  /** The map holds the non-empty groups. */
  ghost predicate Grouped(p: Pattern, tracks: seq<TrackInfo>, byPub: map<string, seq<TrackInfo>>) {
    && (forall pub | pub in byPub :: byPub[pub] == Group(p, tracks, pub))
    && (forall pub | pub !in byPub :: Group(p, tracks, pub) == [])
  }

  lemma SnocGroup(p: Pattern, tracks: seq<TrackInfo>, t: TrackInfo, pub: string)
    ensures Group(p, tracks + [t], pub) ==
              if Taken(p, t) && t.pubId == pub then Group(p, tracks, pub) + [t] else Group(p, tracks, pub)
    ensures Rest(p, tracks + [t]) == if Taken(p, t) then Rest(p, tracks) else Rest(p, tracks) + [t]
  {
    hide Taken;
    assert (tracks + [t])[..|tracks|] == tracks;
  }

  lemma GroupedSnoc(p: Pattern, tracks: seq<TrackInfo>, byPub: map<string, seq<TrackInfo>>, t: TrackInfo)
    requires Grouped(p, tracks, byPub)
    ensures var ts := if t.pubId in byPub then byPub[t.pubId] else [];
            Grouped(p, tracks + [t], if Taken(p, t) then byPub[t.pubId := ts + [t]] else byPub)
  {
    hide Taken, Group;
    forall pub ensures Group(p, tracks + [t], pub) ==
        if Taken(p, t) && t.pubId == pub then Group(p, tracks, pub) + [t] else Group(p, tracks, pub) {
      SnocGroup(p, tracks, t, pub);
    }
  }

  /** Lines 247-254: accepted tracks by publication, and the others. */
  method GroupTracks(p: Pattern, tracks: seq<TrackInfo>)
    returns (crash: bool, byPub: map<string, seq<TrackInfo>>, rest: seq<TrackInfo>)
    ensures crash <==> exists i | 0 <= i < |tracks| :: Match(p, tracks[i]) == Crash
    ensures !crash ==> rest == Rest(p, tracks) && Grouped(p, tracks, byPub)
  {
    byPub, rest := map[], [];
    hide Match, Grouped, Rest;
    assert Grouped(p, tracks[..0], byPub) && rest == Rest(p, tracks[..0]) by { NoGroups(p); }
    var i := 0;
    while i < |tracks|
      invariant 0 <= i <= |tracks| && rest == Rest(p, tracks[..i]) && Grouped(p, tracks[..i], byPub)
      invariant forall j | 0 <= j < i :: Match(p, tracks[j]) != Crash
    {
      var t := tracks[i];
      GroupedSnoc(p, tracks[..i], byPub, t);
      SnocGroup(p, tracks[..i], t, "");
      assert tracks[..i] + [t] == tracks[..i + 1];
      var a := MatchPattern(p, t);
      if a == Crash { return true, map[], []; }
      if a == Yes {
        var ts := if t.pubId in byPub then byPub[t.pubId] else [];
        byPub := byPub[t.pubId := ts + [t]];
      } else {
        rest := rest + [t];
      }
      i := i + 1;
    }
    assert tracks[..i] == tracks;
    return false, byPub, rest;
  }

  lemma NoGroups(p: Pattern)
    ensures Grouped(p, [], map[]) && Rest(p, []) == []
  {}

  /** Lines 259-272: does a group have every requested kind? */
  method Complete(ts: seq<TrackInfo>, reqVideo: bool, reqAudio: bool) returns (ok: bool)
    ensures ok <==> (reqVideo ==> exists i | 0 <= i < |ts| :: ts[i].kind == "video") &&
                    (reqAudio ==> exists i | 0 <= i < |ts| :: ts[i].kind == "audio")
  {
    var video, audio := !reqVideo, !reqAudio;
    if !video || !audio {
      var i := 0;
      while i < |ts| && !(video && audio)
        invariant 0 <= i <= |ts|
        invariant video <==> !reqVideo || exists j | 0 <= j < i :: ts[j].kind == "video"
        invariant audio <==> !reqAudio || exists j | 0 <= j < i :: ts[j].kind == "audio"
      {
        if ts[i].kind == "video" {
          video := true;
        } else if ts[i].kind == "audio" {
          audio := true;
        }
        i := i + 1;
      }
    }
    ok := video && audio;
  }

  lemma {:induction false} GroupOffers(p: Pattern, tracks: seq<TrackInfo>, pub: string, kind: string)
    ensures Offers(p, tracks, pub, kind) <==>
              exists i | 0 <= i < |Group(p, tracks, pub)| :: Group(p, tracks, pub)[i].kind == kind
  {
    if tracks != [] {
      var n := |tracks| - 1;
      hide Match;
      GroupOffers(p, tracks[..n], pub, kind);
      var g, h := Group(p, tracks[..n], pub), Group(p, tracks, pub);
      assert forall i | 0 <= i < n :: tracks[..n][i] == tracks[i];
      assert forall i | 0 <= i < |g| :: h[i] == g[i];
      if Taken(p, tracks[n]) && tracks[n].pubId == pub { assert h[|g|] == tracks[n]; }
    }
  }

  method MatchTracks(p: Pattern, tracks: seq<TrackInfo>, req: seq<string>)
    returns (crash: bool, matched: seq<TrackInfo>, unmatched: seq<TrackInfo>)
    ensures crash <==> exists i | 0 <= i < |tracks| :: Match(p, tracks[i]) == Crash
    ensures Valid(p) ==> !crash
    ensures !crash ==> Divides(p, tracks, req, matched, unmatched)
  {
    var byPub;
    matched := [];
    crash, byPub, unmatched := GroupTracks(p, tracks);
    if crash {
      var i :| 0 <= i < |tracks| && Match(p, tracks[i]) == Crash;
      if Valid(p) { MatchMeans(p, tracks[i]); }
      return;
    }
    hide Match, Covered, Group, Rest, Placed;
    var pubs := byPub.Keys;
    assert Placed(p, tracks, req, pubs, matched, unmatched) by {
      forall t: TrackInfo
        ensures multiset(unmatched)[t] == if Taken(p, t) then 0 else multiset(tracks)[t]
        ensures Taken(p, t) && t.pubId !in pubs ==> multiset(tracks)[t] == 0
      {
        GroupCounts(p, tracks, t.pubId, t);
        RestCounts(p, tracks, t);
      }
      NothingPlaced(p, tracks, req, pubs, unmatched);
    }
    while pubs != {}
      invariant pubs <= byPub.Keys && Placed(p, tracks, req, pubs, matched, unmatched)
      decreases pubs
    {
      var pub :| pub in pubs;
      var ts := byPub[pub];
      var ok := Complete(ts, "video" in req, "audio" in req);
      GroupOffers(p, tracks, pub, "video");
      GroupOffers(p, tracks, pub, "audio");
      assert ok == Covered(p, tracks, req, pub) by { CoveredMeans(p, tracks, req, pub); }
      PlaceGroup(p, tracks, req, pubs, matched, unmatched, pub);
      if !ok {
        unmatched := unmatched + ts;
      } else {
        matched := matched + ts;
      }
      pubs := pubs - {pub};
    }
    AllPlaced(p, tracks, req, matched, unmatched);
  }

  lemma CoveredMeans(p: Pattern, tracks: seq<TrackInfo>, req: seq<string>, pub: string)
    ensures Covered(p, tracks, req, pub) <==>
              && ("video" in req ==> Offers(p, tracks, pub, "video"))
              && ("audio" in req ==> Offers(p, tracks, pub, "audio"))
  {}

  /** Every track is in the list where it belongs, except those of the publications `pubs`,
      which are in neither. */
  ghost predicate Placed(p: Pattern, tracks: seq<TrackInfo>, req: seq<string>, pubs: set<string>,
                         matched: seq<TrackInfo>, unmatched: seq<TrackInfo>)
  {
    forall t ::
      && multiset(matched)[t] == (if Kept(p, tracks, req, t) && t.pubId !in pubs then multiset(tracks)[t] else 0)
      && multiset(unmatched)[t] ==
           (if Kept(p, tracks, req, t) || (Taken(p, t) && t.pubId in pubs) then 0 else multiset(tracks)[t])
  }

  lemma NothingPlaced(p: Pattern, tracks: seq<TrackInfo>, req: seq<string>, pubs: set<string>,
                      unmatched: seq<TrackInfo>)
    requires forall t :: multiset(unmatched)[t] == if Taken(p, t) then 0 else multiset(tracks)[t]
    requires forall t | Taken(p, t) && t.pubId !in pubs :: multiset(tracks)[t] == 0
    ensures Placed(p, tracks, req, pubs, [], unmatched)
  {}

  lemma PlaceGroup(p: Pattern, tracks: seq<TrackInfo>, req: seq<string>, pubs: set<string>,
                   matched: seq<TrackInfo>, unmatched: seq<TrackInfo>, pub: string)
    requires Placed(p, tracks, req, pubs, matched, unmatched) && pub in pubs
    ensures var ts := Group(p, tracks, pub);
            if Covered(p, tracks, req, pub) then Placed(p, tracks, req, pubs - {pub}, matched + ts, unmatched)
            else Placed(p, tracks, req, pubs - {pub}, matched, unmatched + ts)
  {
    hide Match, Covered, Group;
    var ts := Group(p, tracks, pub);
    forall t
      ensures multiset(ts)[t] == (if Taken(p, t) && t.pubId == pub then multiset(tracks)[t] else 0)
      ensures multiset(matched + ts)[t] == multiset(matched)[t] + multiset(ts)[t]
      ensures multiset(unmatched + ts)[t] == multiset(unmatched)[t] + multiset(ts)[t]
    {
      GroupCounts(p, tracks, pub, t);
    }
  }

  lemma AllPlaced(p: Pattern, tracks: seq<TrackInfo>, req: seq<string>,
                  matched: seq<TrackInfo>, unmatched: seq<TrackInfo>)
    requires Placed(p, tracks, req, {}, matched, unmatched)
    ensures Divides(p, tracks, req, matched, unmatched)
  {
    hide Match, Covered;
    forall t ensures (multiset(matched) + multiset(unmatched))[t] == multiset(tracks)[t] {
      assert multiset(matched)[t] == if Kept(p, tracks, req, t) then multiset(tracks)[t] else 0;
    }
    forall t | t in matched ensures Kept(p, tracks, req, t) {
      assert t in multiset(matched);
    }
    forall t | t in unmatched ensures !Kept(p, tracks, req, t) {
      assert t in multiset(unmatched);
    }
  }

  /** Filtering what was matched rejects nothing. */
  lemma FilterIdempotent(p: Pattern, tracks: seq<TrackInfo>, req: seq<string>,
                         matched: seq<TrackInfo>, unmatched: seq<TrackInfo>,
                         again: seq<TrackInfo>, rejected: seq<TrackInfo>)
    requires Divides(p, tracks, req, matched, unmatched)
    requires Divides(p, matched, req, again, rejected)
    ensures rejected == [] && multiset(again) == multiset(matched)
  {
    hide Match;
    assert rejected != [] ==> rejected[0] in rejected;
    forall t | t in matched ensures Kept(p, matched, req, t) {
      OffersKept(p, tracks, req, matched, unmatched, t, "video");
      OffersKept(p, tracks, req, matched, unmatched, t, "audio");
    }
    assert multiset(rejected) <= multiset(matched);
    assert forall t | t in rejected :: t in multiset(rejected);
    assert forall t | t in multiset(matched) :: t in matched;
  }

  /** The tracks that make a publication complete are themselves kept. */
  lemma OffersKept(p: Pattern, tracks: seq<TrackInfo>, req: seq<string>,
                   matched: seq<TrackInfo>, unmatched: seq<TrackInfo>,
                   t: TrackInfo, kind: string)
    requires Divides(p, tracks, req, matched, unmatched) && Kept(p, tracks, req, t)
    ensures Offers(p, tracks, t.pubId, kind) ==> Offers(p, matched, t.pubId, kind)
  {
    hide Match;
    if Offers(p, tracks, t.pubId, kind) {
      var i :| 0 <= i < |tracks| && Taken(p, tracks[i]) && tracks[i].pubId == t.pubId && tracks[i].kind == kind;
      var u := tracks[i];
      assert u in multiset(tracks) && Kept(p, tracks, req, u);
      assert u !in unmatched && u !in multiset(unmatched);
      assert u in multiset(matched) && u in matched;
    }
  }

  // ---------------------------------------------------------------- changing a subscription

  /** The tracks a subscription holds, by global id. */
  class Subscription {
    var accepted: map<string, TrackInfo>
    var pattern: Pattern
    var reqTypes: seq<string>

    ghost predicate Indexed()
      reads this
    {
      forall k | k in accepted :: accepted[k].globalId == k
    }

    /** Gives up exactly the held tracks that the filter rejects; afterwards every held track
        satisfies the new pattern, and its publication the new requested kinds. */
    method UpdatePattern(p: Pattern, req: seq<string>) returns (crash: bool)
      requires Indexed()
      modifies this
      ensures Valid(p) ==> !crash
      ensures !crash ==> Indexed() && pattern == p && reqTypes == req
      ensures !crash ==> exists tracks :: Trimmed(old(accepted), accepted, p, req, tracks)
    {
      var tracks := MapValues(accepted);
      var matched, unmatched;
      crash, matched, unmatched := MatchTracks(p, tracks, req);
      if crash { return; }
      hide Match, Covered;
      var i := 0;
      while i < |unmatched|
        invariant 0 <= i <= |unmatched| && accepted.Keys <= old(accepted).Keys
        invariant forall k | k in accepted :: accepted[k] == old(accepted)[k]
        invariant forall k | k in old(accepted) ::
            k in accepted <==> forall j | 0 <= j < i :: unmatched[j].globalId != k
      {
        accepted := accepted - {unmatched[i].globalId};
        i := i + 1;
      }
      reqTypes := req;
      pattern := p;
      forall k | k in old(accepted) ensures k in accepted <==> Kept(p, tracks, req, old(accepted)[k]) {
        RejectedIds(old(accepted), tracks, p, req, matched, unmatched, k);
      }
      assert Trimmed(old(accepted), accepted, p, req, tracks);
    }
  }

  /** The list holds the values of the map, and nothing else. */
  ghost predicate Lists(m: map<string, TrackInfo>, tracks: seq<TrackInfo>) {
    && (forall k | k in m :: m[k] in tracks)
    && (forall t | t in tracks :: t.globalId in m && m[t.globalId] == t)
  }

  /** Of the tracks held before, which `tracks` lists, those are held now that are kept. */
  ghost predicate Trimmed(before: map<string, TrackInfo>, after: map<string, TrackInfo>, p: Pattern, req: seq<string>,
                          tracks: seq<TrackInfo>)
  {
    && Lists(before, tracks)
    && (forall k :: k in after <==> k in before && Kept(p, tracks, req, before[k]))
    && (forall k | k in after :: after[k] == before[k])
  }

  method MapValues(m: map<string, TrackInfo>) returns (tracks: seq<TrackInfo>)
    requires forall k | k in m :: m[k].globalId == k
    ensures Lists(m, tracks)
  {
    tracks := [];
    var keys := m.Keys;
    while keys != {}
      invariant keys <= m.Keys
      invariant forall k | k in m && k !in keys :: m[k] in tracks
      invariant forall t | t in tracks :: t.globalId in m && m[t.globalId] == t
      decreases keys
    {
      var k :| k in keys;
      tracks := tracks + [m[k]];
      keys := keys - {k};
    }
  }

  lemma RejectedIds(m: map<string, TrackInfo>, tracks: seq<TrackInfo>, p: Pattern, req: seq<string>,
                    matched: seq<TrackInfo>, unmatched: seq<TrackInfo>, k: string)
    requires Lists(m, tracks) && Divides(p, tracks, req, matched, unmatched) && k in m && m[k].globalId == k
    ensures (forall j | 0 <= j < |unmatched| :: unmatched[j].globalId != k) <==> Kept(p, tracks, req, m[k])
  {
    hide Match, Covered;
    assert m[k] in multiset(tracks);
    forall j | 0 <= j < |unmatched| ensures unmatched[j].globalId == k ==> unmatched[j] == m[k] {
      assert unmatched[j] in multiset(unmatched) && unmatched[j] in multiset(tracks) && unmatched[j] in tracks;
    }
    assert m[k] in multiset(matched) ==> m[k] in matched;
    assert m[k] in multiset(unmatched) ==> m[k] in unmatched;
  }
}
