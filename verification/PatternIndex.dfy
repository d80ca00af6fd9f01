/** `PatternMap`: the tree as a map from patterns to data, and the search for all patterns
    that match a room. */
module PatternIndex {
  import opened Outcomes
  import opened RoomPattern
  import opened PatternTree

  // ---------------------------------------------------------------- what a search must find

  /** The data stored at path `q` below `t` belongs to a pattern that matches `m`; with
      `doubleStar`, `t` itself was reached over `**`, which may still consume segments. */
  ghost predicate FoundAt<T(!new)>(t: Tree<T>, m: seq<string>, doubleStar: bool, v: T, q: seq<string>) {
    Lookup(t, q) == Some(v) && if doubleStar then GlobSuffix(q, m) else Glob(q, m)
  }

  ghost predicate Found<T(!new)>(t: Tree<T>, m: seq<string>, doubleStar: bool, v: T) {
    exists q :: FoundAt(t, m, doubleStar, v, q)
  }

  lemma LookupCons<T>(t: Tree<T>, key: string, q: seq<string>)
    ensures Lookup(t, [key] + q) == if key in t.children then Lookup(t.children[key], q) else None
  {
    assert ([key] + q)[1..] == q;
  }

  lemma GlobCons(key: string, q: seq<string>, m: seq<string>)
    ensures Glob([key] + q, m) <==>
              if key == "**" then GlobSuffix(q, m)
              else m != [] && (key == "*" || key == m[0]) && Glob(q, m[1..])
  {
    assert ([key] + q)[1..] == q;
  }

  lemma GlobSuffixNothing(q: seq<string>)
    ensures GlobSuffix(q, []) <==> Glob(q, [])
  {
    var none: seq<string> := [];
    assert none[0..] == none;
  }

  /** No segments left: the node itself and the chain of `**` below it match. */
  lemma FoundEnd<T(!new)>(t: Tree<T>, doubleStar: bool, v: T)
    ensures Found(t, [], doubleStar, v) <==>
              t.data == Some(v) || ("**" in t.children && Found(t.children["**"], [], false, v))
  {
    hide Glob, GlobSuffix;
    forall q ensures FoundAt(t, [], doubleStar, v, q) <==> Lookup(t, q) == Some(v) && Glob(q, []) {
      GlobSuffixNothing(q);
    }
    if t.data == Some(v) {
      GlobNothing([]);
      assert FoundAt(t, [], doubleStar, v, []);
    }
    if "**" in t.children {
      if q :| FoundAt(t.children["**"], [], false, v, q) {
        LookupCons(t, "**", q);
        GlobCons("**", q, []);
        GlobSuffixNothing(q);
        assert FoundAt(t, [], doubleStar, v, ["**"] + q);
      }
    }
    if q :| FoundAt(t, [], doubleStar, v, q) && q != [] {
      assert q == [q[0]] + q[1..];
      LookupCons(t, q[0], q[1..]);
      GlobCons(q[0], q[1..], []);
      GlobSuffixNothing(q[1..]);
      assert FoundAt(t.children["**"], [], false, v, q[1..]);
    }
  }

  /** The next segment is matched by a child `**`, a child `*`, or the child of that name. */
  lemma FoundStep<T(!new)>(t: Tree<T>, m: seq<string>, v: T)
    requires m != [] && StarFree(m)
    ensures Found(t, m, false, v) <==>
              || ("**" in t.children && Found(t.children["**"], m, true, v))
              || ("*" in t.children && Found(t.children["*"], m[1..], false, v))
              || (m[0] in t.children && Found(t.children[m[0]], m[1..], false, v))
  {
    assert '*' !in m[0] && m[0] != "**";
    assert !Glob([], m);
    hide Glob, GlobSuffix;
    if q :| FoundAt(t, m, false, v, q) {
      assert q == [q[0]] + q[1..];
      LookupCons(t, q[0], q[1..]);
      GlobCons(q[0], q[1..], m);
      if q[0] == "**" {
        assert FoundAt(t.children["**"], m, true, v, q[1..]);
      } else {
        assert FoundAt(t.children[q[0]], m[1..], false, v, q[1..]);
      }
    }
    if "**" in t.children {
      if q :| FoundAt(t.children["**"], m, true, v, q) { FoundUp(t, m, v, "**", q); }
    }
    if "*" in t.children {
      if q :| FoundAt(t.children["*"], m[1..], false, v, q) { FoundUp(t, m, v, "*", q); }
    }
    if m[0] in t.children {
      if q :| FoundAt(t.children[m[0]], m[1..], false, v, q) { FoundUp(t, m, v, m[0], q); }
    }
  }

  lemma FoundUp<T(!new)>(t: Tree<T>, m: seq<string>, v: T, key: string, q: seq<string>)
    requires m != [] && key in t.children && (key == "**" || key == "*" || key == m[0])
    requires FoundAt(t.children[key], if key == "**" then m else m[1..], key == "**", v, q)
    ensures Found(t, m, false, v)
  {
    hide Glob, GlobSuffix;
    LookupCons(t, key, q);
    GlobCons(key, q, m);
    assert FoundAt(t, m, false, v, [key] + q);
  }

  /** Below `**`, any number of segments may be skipped. */
  lemma FoundSkip<T(!new)>(t: Tree<T>, m: seq<string>, v: T)
    ensures Found(t, m, true, v) <==> exists k | 0 <= k <= |m| :: Found(t, m[k..], false, v)
  {
    if q :| FoundAt(t, m, true, v, q) {
      var k :| 0 <= k <= |m| && Glob(q, m[k..]);
      assert FoundAt(t, m[k..], false, v, q);
    }
    if k :| 0 <= k <= |m| && Found(t, m[k..], false, v) {
      var q :| FoundAt(t, m[k..], false, v, q);
      assert FoundAt(t, m, true, v, q);
    }
  }

  /** The three sources of results that `collect` uses below `**`. */
  lemma FoundStar<T(!new)>(t: Tree<T>, m: seq<string>, v: T)
    requires m != [] && StarFree(m)
    ensures Found(t, m, true, v) <==>
              || t.data == Some(v) || Found(t, m, false, v)
              || exists k | 1 <= k < |m| :: Found(t, m[k..], false, v)
  {
    FoundSkip(t, m, v);
    assert m[0..] == m && m[|m|..] == [];
    FoundEnd(t, false, v);
    FoundStep(t, m, v);
    if "**" in t.children {
      FoundSkip(t.children["**"], m, v);
    }
  }

  // ---------------------------------------------------------------- collect

  /** `collect`: appends to `acc` the data of every matching pattern, some of them more than
      once. */
  method CollectTree<T(!new)>(t: Tree<T>, m: seq<string>, doubleStar: bool, acc: seq<T>) returns (r: seq<T>)
    requires StarFree(m)
    ensures forall v :: v in r <==> v in acc || Found(t, m, doubleStar, v)
    decreases |m|, t
  {
    r := acc;
    if m == [] {
      r := CollectChain(t, doubleStar, r);
      return;
    }
    if doubleStar && t.data.Some? { r := r + [t.data.value]; }
    ghost var r0 := r;
    if "**" in t.children { r := CollectTree(t.children["**"], m, true, r); }
    if "*" in t.children { r := CollectTree(t.children["*"], m[1..], false, r); }
    if m[0] in t.children { r := CollectTree(t.children[m[0]], m[1..], false, r); }
    forall v ensures v in r <==> v in r0 || Found(t, m, false, v) { FoundStep(t, m, v); }
    if doubleStar {
      ghost var r1 := r;
      var i := 1;
      while i < |m|
        invariant 1 <= i <= |m|
        invariant forall v :: v in r <==> v in r1 || exists k | 1 <= k < i :: Found(t, m[k..], false, v)
      {
        r := CollectTree(t, m[i..], false, r);
        i := i + 1;
      }
      forall v ensures v in r <==> v in acc || Found(t, m, true, v) { FoundStar(t, m, v); }
    }
  }

  /** Lines 156-168: the node's own data and that of the `**` chain below it. */
  method CollectChain<T(!new)>(t: Tree<T>, doubleStar: bool, acc: seq<T>) returns (r: seq<T>)
    ensures forall v :: v in r <==> v in acc || Found(t, [], doubleStar, v)
  {
    r := acc;
    if t.data.Some? { r := r + [t.data.value]; }
    forall v ensures Found(t, [], doubleStar, v) <==>
        t.data == Some(v) || ("**" in t.children && Found(t.children["**"], [], false, v)) {
      FoundEnd(t, doubleStar, v);
    }
    var cur := t;
    while "**" in cur.children
      invariant forall v :: v in acc || Found(t, [], doubleStar, v) <==>
          v in r || ("**" in cur.children && Found(cur.children["**"], [], false, v))
      decreases cur
    {
      var pt := cur.children["**"];
      forall v ensures Found(pt, [], false, v) <==>
          pt.data == Some(v) || ("**" in pt.children && Found(pt.children["**"], [], false, v)) {
        FoundEnd(pt, false, v);
      }
      if pt.data.Some? { r := r + [pt.data.value]; }
      cur := pt;
    }
  }

  // ---------------------------------------------------------------- the map

  /** The forest stores exactly the given patterns with the given data. */
  ghost predicate Represents<T(!new)>(f: Forest<T>, entries: map<string, T>) {
    && (forall p | p in entries :: ValidPattern(p) && Get(f, Split(p)) == Some(entries[p]))
    && (forall q | q != [] && Get(f, q).Some? :: Named(q) && DotFree(q) && Join(q) in entries)
  }

  ghost function Entry<T>(entries: map<string, T>, p: string): Option<T> {
    if p in entries then Some(entries[p]) else None
  }

  /** The finite map after an update of one key. */
  ghost function Updated<T>(entries: map<string, T>, p: string, v: Option<T>): map<string, T> {
    if v.Some? then entries[p := v.value] else entries - {p}
  }

  lemma GetEntry<T(!new)>(f: Forest<T>, entries: map<string, T>, p: string)
    requires Represents(f, entries) && ValidPattern(p)
    ensures Get(f, Split(p)) == Entry(entries, p)
  {
    JoinOfSplit(p);
  }

  /** What is stored at path `q` after `v` was put in place at pattern `p`. */
  ghost function Replaced<T>(f: Forest<T>, p: string, v: Option<T>, q: seq<string>): Option<T>
    requires q != []
  {
    if q == Split(p) then v else Get(f, q)
  }

  lemma UpdatedStored<T(!new)>(f: Forest<T>, entries: map<string, T>, p: string, v: Option<T>, x: string)
    requires Represents(f, entries) && ValidPattern(p) && x in Updated(entries, p, v)
    ensures ValidPattern(x) && Replaced(f, p, v, Split(x)) == Some(Updated(entries, p, v)[x])
  {
    hide Get, Split, Join, ValidPattern, Named, DotFree;
    JoinOfSplit(x);
    JoinOfSplit(p);
    if x != p { assert x in entries; }
  }

  lemma UpdatedAccounted<T(!new)>(f: Forest<T>, entries: map<string, T>, p: string, v: Option<T>, q: seq<string>)
    requires Represents(f, entries) && ValidPattern(p) && q != [] && Replaced(f, p, v, q).Some?
    ensures Named(q) && DotFree(q) && Join(q) in Updated(entries, p, v)
  {
    ValidPatternMeans(p);
    hide Get, Split, Join, ValidPattern, Named, DotFree, Represents;
    if q == Split(p) {
      JoinOfSplit(p);
      SplitDotFree(p);
    } else {
      Accounted(f, entries, q);
      SplitOfJoin(q);
      assert Join(q) != p;
    }
  }

  lemma Accounted<T(!new)>(f: Forest<T>, entries: map<string, T>, q: seq<string>)
    requires Represents(f, entries) && q != [] && Get(f, q).Some?
    ensures Named(q) && DotFree(q) && Join(q) in entries
  {
    hide Get, Split, Join, ValidPattern, Named, DotFree;
  }

  lemma RepresentsUpdated<T(!new)>(f: Forest<T>, g: Forest<T>, entries: map<string, T>, p: string, v: Option<T>)
    requires Represents(f, entries) && ValidPattern(p)
    requires forall q | q != [] :: Get(g, q) == Replaced(f, p, v, q)
    ensures Represents(g, Updated(entries, p, v))
  {
    var e := Updated(entries, p, v);
    assert forall x | x in e :: ValidPattern(x) && Get(g, Split(x)) == Some(e[x]) by {
      hide Get, Split, ValidPattern, Represents, Replaced, Updated;
      forall x | x in e ensures ValidPattern(x) && Get(g, Split(x)) == Some(e[x]) {
        UpdatedStored(f, entries, p, v, x);
      }
    }
    assert forall q | q != [] && Get(g, q).Some? :: Named(q) && DotFree(q) && Join(q) in e by {
      hide Get, Join, Named, DotFree, Represents, Replaced, Updated;
      forall q | q != [] && Get(g, q).Some? ensures Named(q) && DotFree(q) && Join(q) in e {
        UpdatedAccounted(f, entries, p, v, q);
      }
    }
    hide Get, Split, Join, ValidPattern, Named, DotFree, Replaced, Updated;
  }

  /** Updating the tree at a pattern is updating the map at that key. */
  lemma UpdateRepresents<T(!new)>(f: Forest<T>, entries: map<string, T>, p: string, mapper: Option<T> -> Option<T>)
    requires Represents(f, entries) && ValidPattern(p)
    ensures Represents(Update(f, Split(p), mapper), Updated(entries, p, mapper(Entry(entries, p))))
  {
    GetEntry(f, entries, p);
    var g := Update(f, Split(p), mapper);
    forall q | q != []
      ensures Get(g, q) == Replaced(f, p, mapper(Entry(entries, p)), q)
    {
      UpdateGet(f, Split(p), mapper, q);
    }
    hide Get, Update, Represents;
    RepresentsUpdated(f, g, entries, p, mapper(Entry(entries, p)));
  }

  /** The search finds the data of exactly the stored patterns that match the room. */
  lemma FoundMeansMatching<T(!new)>(f: Forest<T>, entries: map<string, T>, room: string, v: T)
    requires Represents(f, entries) && ValidRoom(room)
    ensures Found(Node(f, None), Split(room), false, v) <==>
              exists p :: p in entries && entries[p] == v && Matching(p, room) == Says(true)
  {
    var root, m := Node(f, None), Split(room);
    hide Glob, Get;
    assert forall q | q != [] :: Lookup(root, q) == Get(f, q);
    if q :| FoundAt(root, m, false, v, q) {
      assert q != [] && Join(q) in entries;
      SplitOfJoin(q);
      assert entries[Join(q)] == v && Matching(Join(q), room) == Says(true);
    }
    if p :| p in entries && entries[p] == v && Matching(p, room) == Says(true) {
      assert FoundAt(root, m, false, v, Split(p));
    }
  }

  lemma {:induction false} JoinSnoc(parts: seq<string>, k: string)
    requires parts != []
    ensures Join(parts + [k]) == Join(parts) + "." + k
  {
    assert (parts + [k])[1..] == parts[1..] + [k];
    if |parts| > 1 { JoinSnoc(parts[1..], k); }
  }

  /** `m` holds entries only, among them everything stored at or below `t`. */
  ghost predicate Covers<T(!new)>(m: map<string, T>, t: Tree<T>, path: seq<string>, entries: map<string, T>)
    requires path != []
  {
    && (forall s | s in m :: s in entries && m[s] == entries[s])
    && (forall q | Lookup(t, q).Some? :: Join(path + q) in m)
  }

  ghost predicate StoredUnder<T(!new)>(t: Tree<T>, path: seq<string>, entries: map<string, T>)
    requires path != []
  {
    forall q | Lookup(t, q).Some? :: Join(path + q) in entries && Lookup(t, q) == Some(entries[Join(path + q)])
  }

  lemma StoredInChild<T(!new)>(t: Tree<T>, path: seq<string>, entries: map<string, T>, k: string)
    requires path != [] && StoredUnder(t, path, entries) && k in t.children
    ensures StoredUnder(t.children[k], path + [k], entries)
  {
    forall q | Lookup(t.children[k], q).Some?
      ensures Join(path + [k] + q) in entries && Lookup(t.children[k], q) == Some(entries[Join(path + [k] + q)])
    {
      LookupCons(t, k, q);
      assert path + [k] + q == path + ([k] + q);
    }
  }

  /** `RawData` on a node: `pattern` is the path to it, written with dots. */
  method RawTree<T(!new)>(t: Tree<T>, pattern: string, ghost path: seq<string>, ghost entries: map<string, T>)
    returns (m: map<string, T>)
    requires path != [] && pattern == Join(path) && StoredUnder(t, path, entries)
    ensures Covers(m, t, path, entries)
    decreases t
  {
    m := map[];
    assert path + [] == path;
    if t.data.Some? {
      assert Lookup(t, []) == t.data;
      m := m[pattern := t.data.value];
    }
    var keys := t.children.Keys;
    while keys != {}
      invariant keys <= t.children.Keys
      invariant forall s | s in m :: s in entries && m[s] == entries[s]
      invariant t.data.Some? ==> pattern in m
      invariant forall k, q {:trigger [k] + q} | k in t.children && k !in keys && Lookup(t, [k] + q).Some? ::
          Join(path + ([k] + q)) in m
      decreases keys
    {
      var k :| k in keys;
      StoredInChild(t, path, entries, k);
      JoinSnoc(path, k);
      var rs := RawTree(t.children[k], pattern + "." + k, path + [k], entries);
      ghost var before := m;
      m := m + rs;
      forall j, q {:trigger [j] + q} | j in t.children && j !in keys - {k} && Lookup(t, [j] + q).Some?
        ensures Join(path + ([j] + q)) in m
      {
        LookupCons(t, j, q);
        assert path + ([j] + q) == path + [j] + q;
      }
      keys := keys - {k};
    }
    forall q | Lookup(t, q).Some? ensures Join(path + q) in m {
      if q == [] {
        assert path + q == path;
      } else {
        assert q == [q[0]] + q[1..];
        LookupCons(t, q[0], q[1..]);
      }
    }
  }

  class PatternMap<T(!new)> {
    var inner: Forest<T>
    ghost var entries: map<string, T>

    ghost predicate Valid()
      reads this
    {
      Represents(inner, entries) && TidyForest(inner)
    }

    constructor ()
      ensures Valid() && entries == map[]
    {
      inner, entries := map[], map[];
    }

    /** False for the panic on an invalid pattern.  Otherwise the mapper is given the data
        stored for the pattern, if any, and decides what is stored from now on. */
    method UpdatePatternData(pattern: string, mapper: Option<T> -> Option<T>) returns (ok: bool)
      requires Valid()
      modifies this
      ensures Valid() && ok == ValidPattern(pattern)
      ensures entries ==
                if ok then Updated(old(entries), pattern, mapper(Entry(old(entries), pattern))) else old(entries)
    {
      if !ValidPattern(pattern) { return false; }
      UpdateRepresents(inner, entries, pattern, mapper);
      UpdateTidy(inner, Split(pattern), mapper);
      entries := Updated(entries, pattern, mapper(Entry(entries, pattern)));
      inner := Update(inner, Split(pattern), mapper);
      return true;
    }

    /** `None` for the panic on an invalid room.  Otherwise exactly the data of the stored
        patterns that `MatchRoom` accepts for the room. */
    method Collect(room: string) returns (r: Option<seq<T>>)
      requires Valid()
      ensures r.Some? == ValidRoom(room)
      ensures r.Some? ==> forall v ::
                v in r.value <==> exists p :: p in entries && entries[p] == v && Matching(p, room) == Says(true)
    {
      if !ValidRoom(room) { return None; }
      ValidRoomMeans(room);
      var m := Split(room);
      var results: seq<T> := [];
      if "**" in inner { results := CollectTree(inner["**"], m, true, results); }
      if "*" in inner { results := CollectTree(inner["*"], m[1..], false, results); }
      if m[0] in inner { results := CollectTree(inner[m[0]], m[1..], false, results); }
      forall v ensures v in results <==>
          exists p :: p in entries && entries[p] == v && Matching(p, room) == Says(true) {
        FoundStep(Node(inner, None), m, v);
        FoundMeansMatching(inner, entries, room, v);
      }
      return Some(results);
    }

    method RawData() returns (m: map<string, T>)
      requires Valid()
      ensures m == entries
    {
      hide Represents, StoredUnder, Covers, Get, Lookup, Split, Join, TidyForest;
      TopPresent(inner, entries);
      m := map[];
      var keys := inner.Keys;
      while keys != {}
        invariant keys <= inner.Keys
        invariant forall s | s in m :: s in entries && m[s] == entries[s]
        invariant forall p | p in entries && Split(p)[0] !in keys :: p in m
        decreases keys
      {
        var k :| k in keys;
        assert Join([k]) == k by { JoinOne(k); }
        TopStored(inner, entries, k);
        var rs := RawTree(inner[k], k, [k], entries);
        TopCovered(inner, entries, rs, k);
        m := m + rs;
        keys := keys - {k};
      }
    }
  }

  lemma JoinOne(k: string)
    ensures Join([k]) == k
  {}

  /** What lies below a node of the first level is stored under its patterns. */
  lemma TopStored<T(!new)>(f: Forest<T>, entries: map<string, T>, k: string)
    requires Represents(f, entries) && k in f
    ensures StoredUnder(f[k], [k], entries)
  {
    forall q | Lookup(f[k], q).Some?
      ensures Join([k] + q) in entries && Lookup(f[k], q) == Some(entries[Join([k] + q)])
    {
      GetCons(f, k, q);
      hide Get, Lookup, Split, Join, Named, DotFree, ValidPattern;
      SplitOfJoin([k] + q);
    }
  }

  lemma GetCons<T>(f: Forest<T>, k: string, q: seq<string>)
    requires k in f
    ensures Get(f, [k] + q) == Lookup(f[k], q)
  {
    assert ([k] + q)[1..] == q;
  }

  lemma TopCovered<T(!new)>(f: Forest<T>, entries: map<string, T>, rs: map<string, T>, k: string)
    requires Represents(f, entries) && k in f && Covers(rs, f[k], [k], entries)
    ensures forall s | s in rs :: s in entries && rs[s] == entries[s]
    ensures forall p | p in entries && Split(p)[0] == k :: p in rs
  {
    hide Get, Lookup, Split, Join, Named, DotFree, ValidPattern;
    forall p | p in entries && Split(p)[0] == k ensures p in rs {
      assert Get(f, Split(p)).Some?;
      var q := Split(p)[1..];
      assert [k] + q == Split(p);
      GetCons(f, k, q);
      JoinOfSplit(p);
    }
  }

  lemma TopPresent<T(!new)>(f: Forest<T>, entries: map<string, T>)
    requires Represents(f, entries)
    ensures forall p | p in entries :: Split(p)[0] in f
  {}
}
