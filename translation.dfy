/**
 * The translation lookup engine: split a dotted key, walk the dictionary one
 * owned key at a time, and answer the leaf string reached, or the key itself.
 * A segment that is not owned by the current node (or a walk that would
 * descend into a leaf string) aborts the walk; only that case warns. A walk
 * that ends on a sub-dictionary falls back to the key without a warning.
 */
module Translation {
  import opened Wrappers
  import opened Catalog
  import opened KeyPath

  /** The node reached by following `path` from `node`, or `None` when some segment is not owned. */
  function Resolve(node: Node, path: seq<string>): Option<Node>
    decreases |path|
  {
    if path == [] then Some(node)
    else match node
      case Dict(entries) => if path[0] in entries then Resolve(entries[path[0]], path[1..]) else None
      case Leaf(_) => None
  }

  /** The walk aborts, and the lookup warns, exactly when some segment of the key is missing. */
  predicate Missing(root: Node, key: string) {
    Resolve(root, Split(key)).None?
  }

  /** What `t` answers for `key` against the dictionary `root`. */
  function Translate(root: Node, key: string): (r: string)
    ensures r != key ==> Resolve(root, Split(key)) == Some(Leaf(r))
  {
    match Resolve(root, Split(key))
    case Some(Leaf(s)) => s
    case _ => key
  }

  /** The loop of `t`: one descent per segment, an early return with a warning on a miss. */
  method Lookup(root: Node, key: string) returns (text: string, warned: bool)
    ensures text == Translate(root, key)
    ensures warned == Missing(root, key)
  {
    var keys := Split(key);
    var result := root;
    var i := 0;
    while i < |keys|
      invariant 0 <= i <= |keys|
      invariant Resolve(root, keys) == Resolve(result, keys[i..])
    {
      var k := keys[i];
      if result.Dict? && k in result.entries {
        result := result.entries[k];
      } else {
        return key, true;
      }
      i := i + 1;
    }
    text := if result.Leaf? then result.text else key;
    warned := false;
  }

  /** Step `i` of the walk along `path`: the node reached after `i` segments is a dictionary owning segment `i`. */
  ghost predicate Owned(root: Node, path: seq<string>, i: int)
    requires 0 <= i < |path|
  {
    match Resolve(root, path[..i])
    case Some(Dict(m)) => path[i] in m
    case _ => false
  }

  /** Walking a concatenation walks the first part, then the second from where the first ended. */
  lemma {:induction false} ResolveConcat(node: Node, p: seq<string>, q: seq<string>)
    ensures Resolve(node, p + q) == match Resolve(node, p) case Some(n) => Resolve(n, q) case None => None
    decreases |p|
  {
    if p == [] {
      assert p + q == q;
    } else {
      assert (p + q)[0] == p[0];
      assert (p + q)[1..] == p[1..] + q;
      if node.Dict? && p[0] in node.entries {
        ResolveConcat(node.entries[p[0]], p[1..], q);
      }
    }
  }

  /** The walk completes exactly when every segment is an owned key of the node reached before it. */
  lemma {:induction false} ResolveSomeIffOwned(root: Node, path: seq<string>)
    ensures Resolve(root, path).Some? <==> forall i :: 0 <= i < |path| ==> Owned(root, path, i)
    decreases |path|
  {
    if path != [] {
      var n := |path| - 1;
      var p, k := path[..n], path[n];
      assert path == p + [k];
      ResolveConcat(root, p, [k]);
      ResolveSomeIffOwned(root, p);
      forall i | 0 <= i < n
        ensures Owned(root, path, i) == Owned(root, p, i)
      {
        assert path[..i] == p[..i];
        assert path[i] == p[i];
      }
      assert path[..n] == p;
      if Resolve(root, path).Some? {
        assert Owned(root, path, n);
      } else if Resolve(root, p).Some? {
        assert !Owned(root, path, n);
      } else {
        var j :| 0 <= j < n && !Owned(root, p, j);
        assert !Owned(root, path, j);
      }
    }
  }

  /** A key written as dot-free segments that lead to a leaf translates to that leaf. */
  lemma TranslateLeaf(root: Node, segs: seq<string>, s: string)
    requires |segs| >= 1
    requires forall i :: 0 <= i < |segs| ==> IsSegment(segs[i])
    requires Resolve(root, segs) == Some(Leaf(s))
    ensures Translate(root, Join(segs)) == s
    ensures !Missing(root, Join(segs))
  {
    SplitJoin(segs);
  }

  /** A key whose walk ends on a sub-dictionary falls back to the key, and does not warn. */
  lemma TranslateBranch(root: Node, segs: seq<string>, m: map<string, Node>)
    requires |segs| >= 1
    requires forall i :: 0 <= i < |segs| ==> IsSegment(segs[i])
    requires Resolve(root, segs) == Some(Dict(m))
    ensures Translate(root, Join(segs)) == Join(segs)
    ensures !Missing(root, Join(segs))
  {
    SplitJoin(segs);
  }

  /** A key with a segment, at any depth, that the node reached before it does not own falls back to the key, and warns. */
  lemma TranslateMissing(root: Node, key: string, i: int)
    requires 0 <= i < |Split(key)| && !Owned(root, Split(key), i)
    ensures Missing(root, key)
    ensures Translate(root, key) == key
  {
    ResolveSomeIffOwned(root, Split(key));
  }

  /** The empty key splits to one empty segment, which no dictionary without an empty key owns. */
  lemma EmptyKey(root: Node)
    requires !(root.Dict? && "" in root.entries)
    ensures Translate(root, "") == "" && Missing(root, "")
  {
  }

}

/** Lookups in a sample dictionary and in the two catalog excerpts. */
module TranslationExamples {
  import opened Wrappers
  import opened Catalog
  import opened KeyPath
  import opened Translation

  /** The dictionary `{a: {b: {c: "X"}}}`. */
  const Sample: Node := Dict(map["a" := Dict(map["b" := Dict(map["c" := Leaf("X")])])])

  /** `a.b.c` reaches the leaf "X" and does not warn. */
  lemma SampleLeaf()
    ensures Translate(Sample, "a.b.c") == "X" && !Missing(Sample, "a.b.c")
  {
    assert Join(["a", "b", "c"]) == "a.b.c";
    TranslateLeaf(Sample, ["a", "b", "c"], "X");
  }

  /** `a.b` ends on a dictionary: the key comes back unchanged, without a warning. */
  lemma SampleBranch()
    ensures Translate(Sample, "a.b") == "a.b" && !Missing(Sample, "a.b")
  {
    assert Join(["a", "b"]) == "a.b";
    TranslateBranch(Sample, ["a", "b"], map["c" := Leaf("X")]);
  }

  /** `x.y.z` is missing its first segment: the key comes back unchanged, with a warning. */
  lemma SampleMissing()
    ensures Translate(Sample, "x.y.z") == "x.y.z" && Missing(Sample, "x.y.z")
  {
    assert "x" + [Separator] + "y.z" == "x.y.z";
    SplitCons("x", "y.z");
    assert Split("x.y.z")[..0] == [];
    TranslateMissing(Sample, "x.y.z", 0);
  }

  /** `toolbar.nope` is missing its second segment: the key comes back unchanged, with a warning. */
  lemma MissingBelowRoot()
    ensures Translate(EnUS, "toolbar.nope") == "toolbar.nope" && Missing(EnUS, "toolbar.nope")
  {
    var segs := ["toolbar", "nope"];
    assert Join(segs) == "toolbar.nope";
    SplitJoin(segs);
    assert segs[..1] == ["toolbar"];
    assert !Owned(EnUS, segs, 1);
    TranslateMissing(EnUS, "toolbar.nope", 1);
  }

  /** `toolbar.save` in each language pack. */
  lemma SaveInBothLocales()
    ensures Translate(EnUS, "toolbar.save") == "Save"
    ensures Translate(ZhCN, "toolbar.save") == "保存" && !Missing(ZhCN, "toolbar.save")
  {
    assert Join(["toolbar", "save"]) == "toolbar.save";
    TranslateLeaf(EnUS, ["toolbar", "save"], "Save");
    TranslateLeaf(ZhCN, ["toolbar", "save"], "保存");
  }

  /** A leaf three levels down. */
  lemma NestedLeaf()
    ensures Translate(EnUS, "dialog.hyperlink.title") == "Insert Hyperlink"
  {
    var segs := ["dialog", "hyperlink", "title"];
    assert Join(segs) == "dialog.hyperlink.title";
    TranslateLeaf(EnUS, segs, "Insert Hyperlink");
  }

  /** A path through a leaf string is a missing segment: `toolbar.save.0` falls back and warns. */
  lemma PastLeaf()
    ensures Translate(EnUS, "toolbar.save.0") == "toolbar.save.0" && Missing(EnUS, "toolbar.save.0")
  {
    var segs := ["toolbar", "save", "0"];
    assert Join(segs) == "toolbar.save.0";
    SplitJoin(segs);
    assert segs == ["toolbar", "save"] + ["0"];
    assert Resolve(EnUS, ["toolbar", "save"]) == Some(Leaf("Save"));
    ResolveConcat(EnUS, ["toolbar", "save"], ["0"]);
  }
}
