/** Room names, room patterns, and the direct matcher. */
module RoomPattern {
  import opened Octets

  // ---------------------------------------------------------------- segments

  /** `strings.Split(s, ".")`. */
  function Split(s: string): (r: seq<string>)
    ensures |r| > 0
  {
    if s == "" then [""]
    else if s[0] == '.' then [""] + Split(s[1..])
    else
      var r := Split(s[1..]);
      [[s[0]] + r[0]] + r[1..]
  }

  function Join(parts: seq<string>): string
    requires |parts| > 0
  {
    if |parts| == 1 then parts[0] else parts[0] + "." + Join(parts[1..])
  }

  predicate DotFree(parts: seq<string>) { forall i | 0 <= i < |parts| :: '.' !in parts[i] }

  lemma {:induction false} SplitDotFree(s: string)
    ensures DotFree(Split(s))
  {
    if s != "" { SplitDotFree(s[1..]); }
  }

  lemma {:induction false} JoinOfSplit(s: string)
    ensures Join(Split(s)) == s
  {
    if s != "" {
      var r := Split(s[1..]);
      JoinOfSplit(s[1..]);
      if s[0] == '.' {
        assert Split(s)[1..] == r;
      } else {
        assert Split(s)[1..] == r[1..];
        assert |r| > 1 ==> Join(r) == r[0] + "." + Join(r[1..]);
      }
    }
  }

  lemma {:induction false} SplitOfJoin(parts: seq<string>)
    requires |parts| > 0 && DotFree(parts)
    ensures Split(Join(parts)) == parts
    decreases |parts|, |parts[0]|
  {
    var s := Join(parts);
    if parts[0] == "" {
      if |parts| > 1 {
        assert s[0] == '.' && s[1..] == Join(parts[1..]);
        SplitOfJoin(parts[1..]);
        assert parts == [""] + parts[1..];
      }
    } else {
      var less := parts[0 := parts[0][1..]];
      assert less[1..] == parts[1..];
      assert parts[0][0] in parts[0] && s[0] == parts[0][0];
      if |parts| > 1 {
        assert s == parts[0] + "." + Join(parts[1..]) && s[1..] == less[0] + "." + Join(parts[1..]);
      }
      assert s[1..] == Join(less);
      SplitOfJoin(less);
      assert parts[0] == [s[0]] + less[0];
      assert parts == [[s[0]] + less[0]] + less[1..];
    }
  }

  // ---------------------------------------------------------------- validity

  /** `CheckPattern` does not panic. */
  predicate ValidPattern(p: string) {
    p != "" && !Contains(p, "..") && p[0] != '.' && p[|p| - 1] != '.'
  }

  /** `CheckRoom` does not panic. */
  predicate ValidRoom(r: string) {
    r != "" && !Contains(r, "*") && !Contains(r, "..") && r[0] != '.' && r[|r| - 1] != '.'
  }

  predicate Named(parts: seq<string>) { forall i | 0 <= i < |parts| :: parts[i] != "" }

  predicate StarFree(parts: seq<string>) { forall i | 0 <= i < |parts| :: '*' !in parts[i] }

  /** A position where the text, cut at its dots, has an empty segment. */
  predicate EmptySegmentAt(s: string, i: nat) {
    i <= |s| && (i == 0 || s[i - 1] == '.') && (i == |s| || s[i] == '.')
  }

  lemma {:induction false} EmptySegments(s: string)
    ensures Split(s)[0] == "" <==> EmptySegmentAt(s, 0)
    ensures Named(Split(s)[1..]) <==> forall i: nat | i > 0 :: !EmptySegmentAt(s, i)
  {
    if s != "" {
      var t, r := s[1..], Split(s);
      var q := Split(t);
      EmptySegments(t);
      forall i: nat | i > 0 ensures EmptySegmentAt(s, i + 1) == EmptySegmentAt(t, i) {}
      forall i: nat | i > 1 ensures EmptySegmentAt(s, i) == EmptySegmentAt(t, i - 1) {}
      if s[0] == '.' {
        assert r[1..] == q && EmptySegmentAt(s, 1) == EmptySegmentAt(t, 0);
        assert Named(q) <==> q[0] != "" && Named(q[1..]) by { assert q == [q[0]] + q[1..]; }
      } else {
        assert r[1..] == q[1..] && !EmptySegmentAt(s, 1);
      }
    }
  }

  /** A pattern is valid exactly when none of its segments is empty. */
  lemma ValidPatternMeans(p: string)
    ensures ValidPattern(p) <==> Named(Split(p))
  {
    EmptySegments(p);
    var r := Split(p);
    assert Named(r) <==> r[0] != "" && Named(r[1..]) by { assert r == [r[0]] + r[1..]; }
    if ValidPattern(p) {
      forall i: nat ensures !EmptySegmentAt(p, i) {
        if 0 < i < |p| {
          assert !OccursAt(p, "..", i - 1);
          assert p[i - 1..i + 1] == [p[i - 1], p[i]];
        }
      }
    } else if p != "" {
      if Contains(p, "..") {
        var i :| 0 <= i <= |p| && OccursAt(p, "..", i);
        assert p[i] == p[i..i + 2][0] && p[i + 1] == p[i..i + 2][1];
        assert EmptySegmentAt(p, i + 1);
      } else {
        assert EmptySegmentAt(p, 0) || EmptySegmentAt(p, |p|);
      }
    }
  }

  lemma StarsOfCons(x: string, rest: seq<string>)
    ensures StarFree([x] + rest) <==> '*' !in x && StarFree(rest)
  {
    var all := [x] + rest;
    assert all[0] == x && forall i | 0 <= i < |rest| :: all[i + 1] == rest[i];
  }

  lemma {:induction false} StarsOfSplit(s: string)
    ensures StarFree(Split(s)) <==> '*' !in s
  {
    if s != "" {
      var t, r := s[1..], Split(s);
      var q := Split(t);
      StarsOfSplit(t);
      assert q == [q[0]] + q[1..];
      assert s == [s[0]] + t;
      if s[0] == '.' {
        assert r == [""] + q;
        assert StarFree(r) <==> StarFree(q) by { StarsOfCons("", q); }
      } else {
        StarsOfCons(r[0], q[1..]);
        StarsOfCons(q[0], q[1..]);
        assert r == [r[0]] + q[1..];
      }
    }
  }

  /** A room name is valid exactly when its segments are non-empty and free of stars. */
  lemma ValidRoomMeans(r: string)
    ensures ValidRoom(r) <==> Named(Split(r)) && StarFree(Split(r))
  {
    ValidPatternMeans(r);
    StarsOfSplit(r);
    if '*' in r {
      var i :| 0 <= i < |r| && r[i] == '*';
      assert OccursAt(r, "*", i);
    }
    if Contains(r, "*") {
      var i :| 0 <= i <= |r| && OccursAt(r, "*", i);
      assert r[i] == r[i..i + 1][0];
    }
  }

  // ---------------------------------------------------------------- the glob relation

  /** `*` stands for one segment, `**` for any number of them, anything else for itself. */
  predicate Glob(pat: seq<string>, room: seq<string>)
    decreases |pat|
  {
    if pat == [] then room == []
    else if pat[0] == "**" then exists k | 0 <= k <= |room| :: Glob(pat[1..], room[k..])
    else room != [] && (pat[0] == "*" || pat[0] == room[0]) && Glob(pat[1..], room[1..])
  }

  predicate Stars(pat: seq<string>, from: nat, to: nat)
    requires to <= |pat|
  {
    forall i | from <= i < to :: pat[i] == "**"
  }

  lemma {:induction false} GlobNothing(pat: seq<string>)
    ensures Glob(pat, []) <==> Stars(pat, 0, |pat|)
  {
    if pat != [] {
      GlobNothing(pat[1..]);
      assert pat == [pat[0]] + pat[1..];
      var e: seq<string> := [];
      assert e[0..] == e;
    }
  }

  /** Some suffix of the room matches. */
  predicate GlobSuffix(pat: seq<string>, room: seq<string>) {
    exists k | 0 <= k <= |room| :: Glob(pat, room[k..])
  }

  /** A run of `**` consumes any prefix. */
  lemma {:induction false} GlobStars(pat: seq<string>, i: nat, room: seq<string>)
    requires 0 < i <= |pat| && Stars(pat, 0, i)
    ensures Glob(pat, room) <==> GlobSuffix(pat[i..], room)
  {
    if i > 1 {
      forall k | 0 <= k <= |room|
        ensures Glob(pat[1..], room[k..]) <==> exists j | k <= j <= |room| :: Glob(pat[i..], room[j..])
      {
        assert pat[1..][i - 1..] == pat[i..];
        GlobStars(pat[1..], i - 1, room[k..]);
        assert forall j | 0 <= j <= |room| - k :: room[k..][j..] == room[k + j..];
        if j :| k <= j <= |room| && Glob(pat[i..], room[j..]) {
          assert room[k..][j - k..] == room[j..];
        }
      }
    }
  }

  /** The empty suffix need not be tried: the pattern goes on with something else than `**`. */
  lemma NoSuffix(pat: seq<string>, room: seq<string>)
    requires pat != [] && pat[0] != "**" && forall k | 0 <= k < |room| :: !Glob(pat, room[k..])
    ensures !GlobSuffix(pat, room)
  {
    GlobNothing(pat);
    assert room[|room|..] == [];
  }

  lemma StarRun(pt: seq<string>, pi: nat, i: nat, rest: seq<string>)
    requires pi < i <= |pt| && Stars(pt, pi, i)
    ensures Glob(pt[pi..], rest) <==> GlobSuffix(pt[i..], rest)
  {
    assert pt[pi..][i - pi..] == pt[i..];
    GlobStars(pt[pi..], i - pi, rest);
  }

  /** Lines 340-355 of `matchRoom`: skip the run of `**` at `pi`, then try every suffix. */
  method MatchStars(pt: seq<string>, rm: seq<string>, pi: nat, ri: nat) returns (ok: bool)
    requires pi < |pt| && ri < |rm| && pt[pi] == "**"
    ensures ok <==> Glob(pt[pi..], rm[ri..])
    decreases |pt|, 0
  {
    var i := pi + 1;
    while i < |pt| && pt[i] == "**"
      invariant pi < i <= |pt| && Stars(pt, pi, i)
    {
      i := i + 1;
    }
    StarRun(pt, pi, i, rm[ri..]);
    if i == |pt| {
      NothingMatches(rm[ri..]);
      return true;
    }
    hide Glob, GlobSuffix, Stars;
    ok := TrySuffixes(pt[i..], rm, ri);
  }

  lemma NothingMatches(room: seq<string>)
    ensures GlobSuffix([], room)
  {
    assert Glob([], room[|room|..]);
  }

  /** Lines 349-355: the pattern is tried on every suffix but the empty one. */
  method TrySuffixes(pat: seq<string>, rm: seq<string>, ri: nat) returns (ok: bool)
    requires pat != [] && pat[0] != "**" && ri < |rm|
    ensures ok <==> GlobSuffix(pat, rm[ri..])
    decreases |pat|, 2
  {
    hide Glob;
    ghost var rest := rm[ri..];
    var j := ri;
    while j < |rm|
      invariant ri <= j <= |rm|
      invariant forall k | 0 <= k < j - ri :: !Glob(pat, rest[k..])
    {
      assert rm[j..] == rest[j - ri..];
      ok := MatchParts(pat, rm[j..]);
      if ok { return; }
      j := j + 1;
    }
    NoSuffix(pat, rest);
    return false;
  }

  /** `matchRoom`: an index loop that calls itself after each run of `**`. */
  method MatchParts(pt: seq<string>, rm: seq<string>) returns (ok: bool)
    requires |pt| > 0 && |rm| > 0
    ensures ok <==> Glob(pt, rm)
    decreases |pt|, 1
  {
    var pi, ri := 0, 0;
    assert pt[0..] == pt && rm[0..] == rm;
    while true
      invariant 0 <= pi < |pt| && 0 <= ri < |rm|
      invariant Glob(pt, rm) <==> Glob(pt[pi..], rm[ri..])
      decreases |pt| - pi
    {
      if pt[pi] == "**" {
        ok := MatchStars(pt, rm, pi, ri);
        return;
      } else if pt[pi] == "*" || pt[pi] == rm[ri] {
        assert pt[pi..][1..] == pt[pi + 1..] && rm[ri..][1..] == rm[ri + 1..];
        pi := pi + 1;
        ri := ri + 1;
      } else {
        return false;
      }
      if pi >= |pt| {
        return ri == |rm|;
      } else if ri >= |rm| {
        GlobNothing(pt[pi..]);
        var i := pi;
        while i < |pt|
          invariant pi <= i <= |pt| && Stars(pt, pi, i)
        {
          if pt[i] != "**" {
            assert pt[pi..][i - pi] == pt[i];
            return false;
          }
          i := i + 1;
        }
        return true;
      }
    }
  }

  lemma {:induction false} GlobReflexive(room: seq<string>)
    requires StarFree(room)
    ensures Glob(room, room)
  {
    if room != [] { GlobReflexive(room[1..]); }
  }

  /** The source panics on an invalid pattern or room. */
  datatype Verdict = Panics | Says(matched: bool)

  /** What `MatchRoom` answers, without its shortcuts. */
  function Matching(pattern: string, room: string): Verdict {
    if ValidPattern(pattern) && ValidRoom(room) then Says(Glob(Split(pattern), Split(room))) else Panics
  }

  method MatchRoom(pattern: string, room: string) returns (v: Verdict)
    ensures v == Matching(pattern, room)
  {
    if !ValidPattern(pattern) || !ValidRoom(room) { return Panics; }
    if pattern == room || pattern == "**" {
      if pattern == room {
        ValidRoomMeans(room);
        GlobReflexive(Split(room));
      } else {
        assert Split("**") == ["**"] by { SplitOfJoin(["**"]); }
        var rm := Split(room);
        assert Glob(["**"][1..], rm[|rm|..]);
      }
      return Says(true);
    }
    var b := MatchParts(Split(pattern), Split(room));
    return Says(b);
  }
}
