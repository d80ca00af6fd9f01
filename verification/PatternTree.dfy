/** The index of room patterns: a tree over pattern segments. */
module PatternTree {
  import opened Outcomes

  datatype Tree<T> = Node(children: map<string, Tree<T>>, data: Option<T>)

  type Forest<T> = map<string, Tree<T>>

  function Bare<T>(): Tree<T> { Node(map[], None) }

  predicate IsEmpty<T>(t: Tree<T>) { t.data.None? && |t.children| == 0 }

  /** The data stored at a path below a node. */
  function Lookup<T>(t: Tree<T>, path: seq<string>): Option<T>
    decreases |path|, 1
  {
    if path == [] then t.data else Get(t.children, path)
  }

  function Get<T>(f: Forest<T>, path: seq<string>): Option<T>
    requires path != []
    decreases |path|, 0
  {
    if path[0] in f then Lookup(f[path[0]], path[1..]) else None
  }

  // ---------------------------------------------------------------- updates

  function ChildOrBare<T>(f: Forest<T>, key: string): Tree<T> { if key in f then f[key] else Bare() }

  /** Descend along the path, creating missing nodes, and store `v` at its end. */
  function Put<T>(f: Forest<T>, path: seq<string>, v: T): Forest<T>
    requires path != []
    decreases |path|
  {
    var t := ChildOrBare(f, path[0]);
    f[path[0] := if |path| == 1 then t.(data := Some(v)) else t.(children := Put(t.children, path[1..], v))]
  }

  /** The descent of `UpdatePatternData` alone: it creates every node but the last. */
  function Prepare<T>(f: Forest<T>, path: seq<string>): Forest<T>
    requires path != []
    decreases |path|
  {
    if |path| == 1 then f
    else
      var t := ChildOrBare(f, path[0]);
      f[path[0] := t.(children := Prepare(t.children, path[1..]))]
  }

  /** `removePatternData` on a node: nodes left empty are deleted on the way back. */
  function Erase<T>(t: Tree<T>, path: seq<string>): Tree<T>
    decreases |path|
  {
    if path == [] then t.(data := None)
    else if path[0] !in t.children then t
    else
      var c := Erase(t.children[path[0]], path[1..]);
      t.(children := WithChild(t.children, path[0], c))
  }

  /** A child that has become empty is deleted. */
  function WithChild<T>(f: Forest<T>, key: string, c: Tree<T>): Forest<T> {
    if IsEmpty(c) then f - {key} else f[key := c]
  }

  /** `removePatternData` on the map: first-level nodes stay. */
  function EraseTop<T>(f: Forest<T>, path: seq<string>): Forest<T>
    requires path != []
  {
    if path[0] in f then f[path[0] := Erase(f[path[0]], path[1..])] else f
  }

  /** `UpdatePatternData` on a path; the mapper returns `None` for "remove". */
  function Update<T>(f: Forest<T>, path: seq<string>, mapper: Option<T> -> Option<T>): Forest<T>
    requires path != []
  {
    match mapper(Get(f, path))
    case Some(v) => Put(f, path, v)
    case None => EraseTop(Prepare(f, path), path)
  }

  lemma {:induction false} PutGet<T>(f: Forest<T>, path: seq<string>, v: T, q: seq<string>)
    requires path != [] && q != []
    ensures Get(Put(f, path, v), q) == if q == path then Some(v) else Get(f, q)
    decreases |path|
  {
    if q[0] == path[0] {
      assert q == [q[0]] + q[1..] && path == [path[0]] + path[1..];
      var c := ChildOrBare(f, path[0]);
      assert Get(f, q) == Lookup(c, q[1..]);
      if |path| > 1 && |q| > 1 { PutGet(c.children, path[1..], v, q[1..]); }
    }
  }

  lemma {:induction false} PrepareGet<T>(f: Forest<T>, path: seq<string>, q: seq<string>)
    requires path != [] && q != []
    ensures Get(Prepare(f, path), q) == Get(f, q)
    decreases |path|
  {
    if q[0] == path[0] && |path| > 1 && |q| > 1 {
      PrepareGet(ChildOrBare(f, path[0]).children, path[1..], q[1..]);
    }
  }

  lemma {:induction false} EraseLookup<T>(t: Tree<T>, path: seq<string>, q: seq<string>)
    ensures Lookup(Erase(t, path), q) == if q == path then None else Lookup(t, q)
    decreases |path|
  {
    if path != [] && q != [] && q[0] == path[0] {
      assert q == [q[0]] + q[1..] && path == [path[0]] + path[1..];
      if path[0] in t.children {
        EraseLookup(t.children[path[0]], path[1..], q[1..]);
      }
    }
  }

  /** An update changes what is stored at its path, as the mapper says, and nothing else. */
  lemma UpdateGet<T>(f: Forest<T>, path: seq<string>, mapper: Option<T> -> Option<T>, q: seq<string>)
    requires path != [] && q != []
    ensures Get(Update(f, path, mapper), q) == if q == path then mapper(Get(f, path)) else Get(f, q)
  {
    match mapper(Get(f, path))
    case Some(v) =>
      PutGet(f, path, v, q);
    case None =>
      var g := Prepare(f, path);
      PrepareGet(f, path, q);
      if q[0] == path[0] && path[0] in g {
        assert q == [q[0]] + q[1..] && path == [path[0]] + path[1..];
        EraseLookup(g[path[0]], path[1..], q[1..]);
      }
  }

  // ---------------------------------------------------------------- no dead nodes

  /** Some node of the tree holds data. */
  predicate Live<T>(t: Tree<T>)
    decreases t
  {
    t.data.Some? || exists k | k in t.children :: Live(t.children[k])
  }

  /** Every node below this one has data in its subtree. */
  predicate Tidy<T>(t: Tree<T>)
    decreases t
  {
    forall k | k in t.children :: Live(t.children[k]) && Tidy(t.children[k])
  }

  predicate TidyForest<T>(f: Forest<T>) { forall k | k in f :: Tidy(f[k]) }

  lemma {:induction false} PutLive<T>(f: Forest<T>, path: seq<string>, v: T)
    requires path != []
    ensures path[0] in Put(f, path, v) && Live(Put(f, path, v)[path[0]])
    decreases |path|
  {
    if |path| > 1 { PutLive(ChildOrBare(f, path[0]).children, path[1..], v); }
  }

  lemma {:induction false} PutTidy<T>(t: Tree<T>, path: seq<string>, v: T)
    requires Tidy(t) && path != []
    ensures Tidy(t.(children := Put(t.children, path, v)))
    decreases |path|
  {
    PutLive(t.children, path, v);
    var c := ChildOrBare(t.children, path[0]);
    assert Tidy(c);
    if |path| > 1 { PutTidy(c, path[1..], v); }
  }

  lemma {:induction false} EraseTidy<T>(t: Tree<T>, path: seq<string>)
    requires Tidy(t)
    ensures Tidy(Erase(t, path))
    decreases |path|
  {
    if path != [] && path[0] in t.children {
      var c := Erase(t.children[path[0]], path[1..]);
      EraseTidy(t.children[path[0]], path[1..]);
      if !IsEmpty(c) && c.data.None? {
        var k :| k in c.children;
        assert Live(c.children[k]);
      }
    }
  }

  lemma EraseStep<T>(t: Tree<T>, path: seq<string>)
    requires path != [] && path[0] in t.children
    ensures Erase(t, path) ==
              t.(children := WithChild(t.children, path[0], Erase(t.children[path[0]], path[1..])))
  {}

  lemma PrepareStep<T>(f: Forest<T>, path: seq<string>)
    requires |path| > 1
    ensures var c := ChildOrBare(f, path[0]);
            Prepare(f, path) == f[path[0] := c.(children := Prepare(c.children, path[1..]))]
  {}

  lemma EraseAbsent<T>(t: Tree<T>, path: seq<string>)
    requires path != [] && path[0] !in t.children
    ensures Erase(t, path) == t
  {}

  lemma WithChildAgain<T>(f: Forest<T>, key: string, d: Tree<T>, c: Tree<T>)
    ensures WithChild(f[key := d], key, c) == WithChild(f, key, c)
    ensures IsEmpty(c) && key !in f ==> WithChild(f, key, c) == f
  {
    assert f[key := d] - {key} == f - {key} && f[key := d][key := c] == f[key := c];
    if key !in f { assert f - {key} == f; }
  }

  /** Removing a pattern also removes the nodes that the descent created for it. */
  lemma {:induction false} EraseUndoesPrepare<T>(t: Tree<T>, path: seq<string>)
    requires path != []
    ensures Erase(t.(children := Prepare(t.children, path)), path) == Erase(t, path)
    decreases |path|
  {
    if |path| == 1 {
      assert Prepare(t.children, path) == t.children;
    } else {
      hide Erase, Prepare, WithChild;
      var f, k, rest := t.children, path[0], path[1..];
      var c := ChildOrBare(f, k);
      var d, e := c.(children := Prepare(c.children, rest)), Erase(c, rest);
      EraseUndoesPrepare(c, rest);
      PrepareStep(f, path);
      EraseStep(t.(children := f[k := d]), path);
      WithChildAgain(f, k, d, e);
      if k in f {
        EraseStep(t, path);
      } else {
        EraseAbsent(c, rest);
        EraseAbsent(t, path);
      }
    }
  }

  /** No node below the first level is ever left without data in its subtree, even when the
      removal of an absent pattern first creates nodes. */
  lemma UpdateTidy<T>(f: Forest<T>, path: seq<string>, mapper: Option<T> -> Option<T>)
    requires path != [] && TidyForest(f)
    ensures TidyForest(Update(f, path, mapper))
  {
    var k, rest := path[0], path[1..];
    var t := ChildOrBare(f, k);
    assert Tidy(t);
    match mapper(Get(f, path))
    case Some(v) =>
      if |path| > 1 { PutTidy(t, rest, v); }
    case None =>
      EraseTidy(t, rest);
      if |path| > 1 { EraseUndoesPrepare(t, rest); }
  }
}
