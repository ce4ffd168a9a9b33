/**
 * What the view model's constructor builds from a stash's changed files:
 * each non-blank path is split on '/' and walked down from the root, reusing
 * the first child with the segment's text and otherwise adding a new last
 * child; a new node whose text equals the path's last segment is tagged with
 * the file's flags.
 */
module ChangeTreeBuilder {
  import opened Wrappers
  import opened Strings
  import opened Models
  import opened TreeNodes

  // ---------------------------------------------------------------------
  // Existing nodes are only ever extended
  // ---------------------------------------------------------------------

  /** `r` is `t` with nodes appended and children appended to existing nodes;
      no existing node changes its text, tag or parent. */
  ghost predicate Extends(t: seq<TreeNode>, r: seq<TreeNode>) {
    && |t| <= |r|
    && (forall n :: 0 <= n < |t| ==>
          r[n].text == t[n].text && r[n].tag == t[n].tag && r[n].parent == t[n].parent
          && t[n].children <= r[n].children)
  }

  lemma ExtendsTransitive(a: seq<TreeNode>, b: seq<TreeNode>, c: seq<TreeNode>)
    requires Extends(a, b) && Extends(b, c)
    ensures Extends(a, c)
  {
    forall n | 0 <= n < |a|
      ensures a[n].children <= c[n].children
    {
      assert a[n].children <= b[n].children <= c[n].children;
    }
  }

  lemma WithChildExtends(t: seq<TreeNode>, p: nat, text: string)
    requires p < |t|
    ensures Extends(t, WithChild(t, p, text))
  {
    var r := WithChild(t, p, text);
    forall n | 0 <= n < |t|
      ensures r[n].text == t[n].text && r[n].tag == t[n].tag && r[n].parent == t[n].parent
      ensures t[n].children <= r[n].children
    {
      if n == p {
        assert t[n].children <= t[n].children + [|t|];
      }
    }
  }

  lemma WithTagBeyondExtends(t: seq<TreeNode>, r: seq<TreeNode>, n: nat, attrs: FileAttributes)
    requires Extends(t, r) && |t| <= n < |r|
    ensures Extends(t, WithTag(r, n, attrs))
  {
    var r' := WithTag(r, n, attrs);
    forall m | 0 <= m < |t|
      ensures r'[m] == r[m]
    { }
  }

  /** One new node: `text` added as the last child of `current`, tagged with
      `attrs` when `tagIt` holds. */
  function Grow(t: seq<TreeNode>, current: nat, text: string, tagIt: bool, attrs: FileAttributes): (r: seq<TreeNode>)
    requires WellFormed(t) && current < |t|
    ensures WellFormed(r) && |r| == |t| + 1 && Extends(t, r)
    ensures r[|t|] == TreeNode(text, if tagIt then Some(attrs) else None, current, [])
    ensures r[current].children == t[current].children + [|t|]
    ensures SiblingsDistinct(t) && ChildWithText(t, current, text).None? ==> SiblingsDistinct(r)
  {
    GrowFacts(t, current, text, tagIt, attrs);
    var added := WithChild(t, current, text);
    if tagIt then WithTag(added, |t|, attrs) else added
  }

  lemma GrowFacts(t: seq<TreeNode>, current: nat, text: string, tagIt: bool, attrs: FileAttributes)
    requires WellFormed(t) && current < |t|
    ensures var added := WithChild(t, current, text);
      var r := if tagIt then WithTag(added, |t|, attrs) else added;
      && WellFormed(r) && Extends(t, r)
      && (SiblingsDistinct(t) && ChildWithText(t, current, text).None? ==> SiblingsDistinct(r))
  {
    WithChildWellFormed(t, current, text);
    WithChildExtends(t, current, text);
    var added := WithChild(t, current, text);
    if SiblingsDistinct(t) && ChildWithText(t, current, text).None? {
      WithChildKeepsSiblingsDistinct(t, current, text);
    }
    if tagIt {
      WithTagWellFormed(added, |t|, attrs);
      WithTagBeyondExtends(t, added, |t|, attrs);
    }
  }

  /** The walk of one path from node `current`, from segment `j` on. */
  function InsertSegments(t: seq<TreeNode>, current: nat, segs: seq<string>, j: nat, attrs: FileAttributes): (r: seq<TreeNode>)
    requires WellFormed(t) && current < |t| && j <= |segs|
    ensures WellFormed(r) && |r| >= |t|
    decreases |segs| - j
  {
    if j == |segs| then t
    else
      match ChildWithText(t, current, segs[j])
      case Some(c) =>
        assert c < |t| by { var k :| 0 <= k < |t[current].children| && t[current].children[k] == c; }
        InsertSegments(t, c, segs, j + 1, attrs)
      case None =>
        InsertSegments(Grow(t, current, segs[j], segs[j] == Last(segs), attrs), |t|, segs, j + 1, attrs)
  }

  /** A walk through an existing child goes on from that child. */
  lemma InsertSegmentsThroughChild(t: seq<TreeNode>, current: nat, segs: seq<string>, j: nat, attrs: FileAttributes, c: nat)
    requires WellFormed(t) && current < |t| && j < |segs|
    requires ChildWithText(t, current, segs[j]) == Some(c)
    ensures c < |t| && InsertSegments(t, current, segs, j, attrs) == InsertSegments(t, c, segs, j + 1, attrs)
  {
    var k :| 0 <= k < |t[current].children| && t[current].children[k] == c;
  }

  /** A walk that finds no child with the segment's text adds one and goes
      on from it. */
  lemma InsertSegmentsThroughNewChild(t: seq<TreeNode>, current: nat, segs: seq<string>, j: nat, attrs: FileAttributes)
    requires WellFormed(t) && current < |t| && j < |segs|
    requires ChildWithText(t, current, segs[j]).None?
    ensures InsertSegments(t, current, segs, j, attrs)
         == InsertSegments(Grow(t, current, segs[j], segs[j] == Last(segs), attrs), |t|, segs, j + 1, attrs)
  { }

  /** One iteration of the constructor's outer loop: a path that is empty or
      white space once trimmed is skipped. */
  function InsertFile(t: seq<TreeNode>, file: ChangedFile): (r: seq<TreeNode>)
    requires WellFormed(t)
    ensures WellFormed(r) && |r| >= |t|
  {
    if IsBlank(file.path) then t
    else InsertSegments(t, 0, Split(file.path, '/'), 0, AttributesOf(file))
  }

  /** The tree built from the files in order, starting from a lone root. */
  function BuildTree(files: seq<ChangedFile>): (t: seq<TreeNode>)
    ensures WellFormed(t)
    decreases |files|
  {
    if files == [] then [RootNode]
    else InsertFile(BuildTree(files[..|files| - 1]), files[|files| - 1])
  }

  /** A walk only extends the tree: an existing node is never retagged. */
  lemma {:induction false} InsertSegmentsExtends(t: seq<TreeNode>, current: nat, segs: seq<string>, j: nat, attrs: FileAttributes)
    requires WellFormed(t) && current < |t| && j <= |segs|
    ensures Extends(t, InsertSegments(t, current, segs, j, attrs))
    decreases |segs| - j
  {
    if j < |segs| {
      match ChildWithText(t, current, segs[j])
      case Some(c) =>
        assert c < |t| by { var k :| 0 <= k < |t[current].children| && t[current].children[k] == c; }
        InsertSegmentsExtends(t, c, segs, j + 1, attrs);
      case None =>
        var grown := Grow(t, current, segs[j], segs[j] == Last(segs), attrs);
        InsertSegmentsExtends(grown, |t|, segs, j + 1, attrs);
        ExtendsTransitive(t, grown, InsertSegments(grown, |t|, segs, j + 1, attrs));
    }
  }

  /** Adding a file only extends the tree. */
  lemma InsertFileExtends(t: seq<TreeNode>, file: ChangedFile)
    requires WellFormed(t)
    ensures Extends(t, InsertFile(t, file))
  {
    if !IsBlank(file.path) {
      InsertSegmentsExtends(t, 0, Split(file.path, '/'), 0, AttributesOf(file));
    }
  }

  /** The tree of a prefix of the files is extended by the tree of all of
      them: later files never retag, rename, move or reorder a node. */
  lemma {:induction false} BuildTreeExtendsPrefix(files: seq<ChangedFile>, i: nat)
    requires i <= |files|
    ensures Extends(BuildTree(files[..i]), BuildTree(files))
    decreases |files| - i
  {
    if i < |files| {
      var init := files[..|files| - 1];
      assert files[..|files|] == files;
      BuildTreeExtendsPrefix(init, i);
      assert init[..i] == files[..i];
      InsertFileExtends(BuildTree(init), files[|files| - 1]);
      ExtendsTransitive(BuildTree(files[..i]), BuildTree(init), BuildTree(files));
    } else {
      assert files[..i] == files;
    }
  }

  /** Segments of an existing node are unchanged by an extension. */
  lemma {:induction false} SegmentsExtend(t: seq<TreeNode>, r: seq<TreeNode>, n: nat)
    requires WellFormed(t) && WellFormed(r) && Extends(t, r) && n < |t|
    ensures Segments(r, n) == Segments(t, n)
    decreases n
  {
    if n > 0 {
      SegmentsExtend(t, r, t[n].parent);
    }
  }

  // ---------------------------------------------------------------------
  // Siblings stay distinct and in order of creation
  // ---------------------------------------------------------------------

  lemma {:induction false} InsertSegmentsKeepsSiblingsDistinct(t: seq<TreeNode>, current: nat, segs: seq<string>, j: nat, attrs: FileAttributes)
    requires WellFormed(t) && SiblingsDistinct(t) && current < |t| && j <= |segs|
    ensures SiblingsDistinct(InsertSegments(t, current, segs, j, attrs))
    decreases |segs| - j
  {
    if j < |segs| {
      match ChildWithText(t, current, segs[j])
      case Some(c) =>
        assert c < |t| by { var k :| 0 <= k < |t[current].children| && t[current].children[k] == c; }
        InsertSegmentsKeepsSiblingsDistinct(t, c, segs, j + 1, attrs);
      case None =>
        InsertSegmentsKeepsSiblingsDistinct(Grow(t, current, segs[j], segs[j] == Last(segs), attrs), |t|, segs, j + 1, attrs);
    }
  }

  /** No two children of a node in the built tree have the same text. */
  lemma {:induction false} BuildTreeSiblingsDistinct(files: seq<ChangedFile>)
    ensures SiblingsDistinct(BuildTree(files))
    decreases |files|
  {
    if files != [] {
      var t := BuildTree(files[..|files| - 1]);
      BuildTreeSiblingsDistinct(files[..|files| - 1]);
      var file := files[|files| - 1];
      if !IsBlank(file.path) {
        InsertSegmentsKeepsSiblingsDistinct(t, 0, Split(file.path, '/'), 0, AttributesOf(file));
      }
    }
  }

  // ---------------------------------------------------------------------
  // Blank paths
  // ---------------------------------------------------------------------

  /** The files whose path is not blank, in order. */
  function NonBlank(files: seq<ChangedFile>): (kept: seq<ChangedFile>)
    ensures |kept| <= |files|
    ensures forall k :: 0 <= k < |kept| ==> !IsBlank(kept[k].path) && kept[k] in files
    decreases |files|
  {
    if files == [] then []
    else
      var init := NonBlank(files[..|files| - 1]);
      var file := files[|files| - 1];
      assert forall f :: f in files[..|files| - 1] ==> f in files;
      if IsBlank(file.path) then init else init + [file]
  }

  /** Files with a blank path add nothing: the tree is the one built from
      the other files alone. */
  lemma {:induction false} BlankFilesAddNothing(files: seq<ChangedFile>)
    ensures BuildTree(files) == BuildTree(NonBlank(files))
    decreases |files|
  {
    if files != [] {
      var init := files[..|files| - 1];
      var file := files[|files| - 1];
      BlankFilesAddNothing(init);
      if !IsBlank(file.path) {
        var kept := NonBlank(init) + [file];
        assert kept[..|kept| - 1] == NonBlank(init);
      }
    }
  }

  // ---------------------------------------------------------------------
  // Tags
  // ---------------------------------------------------------------------

  /** The nodes a walk creates are untagged except those whose text equals
      the path's last segment, which carry the file's flags; this includes
      a directory that happens to have the file's name. */
  lemma {:induction false} NewNodesTaggedByLastSegment(t: seq<TreeNode>, current: nat, segs: seq<string>, j: nat, attrs: FileAttributes)
    requires WellFormed(t) && current < |t| && j <= |segs|
    ensures j < |segs| ==> TaggedByLast(InsertSegments(t, current, segs, j, attrs), |t|, Last(segs), attrs)
    decreases |segs| - j
  {
    if j < |segs| {
      match ChildWithText(t, current, segs[j])
      case Some(c) =>
        assert c < |t| by { var k :| 0 <= k < |t[current].children| && t[current].children[k] == c; }
        NewNodesTaggedByLastSegment(t, c, segs, j + 1, attrs);
      case None =>
        var grown := Grow(t, current, segs[j], segs[j] == Last(segs), attrs);
        var r := InsertSegments(grown, |t|, segs, j + 1, attrs);
        assert r == InsertSegments(t, current, segs, j, attrs);
        NewNodesTaggedByLastSegment(grown, |t|, segs, j + 1, attrs);
        InsertSegmentsExtends(grown, |t|, segs, j + 1, attrs);
        TaggedByLastFrom(grown, r, |t|, Last(segs), attrs);
    }
  }

  /** Every node of `r` from `from` on is tagged exactly when its text is `last`. */
  ghost predicate TaggedByLast(r: seq<TreeNode>, from: nat, last: string, attrs: FileAttributes) {
    forall m :: from <= m < |r| ==> r[m].tag == (if r[m].text == last then Some(attrs) else None)
  }

  lemma TaggedByLastFrom(grown: seq<TreeNode>, r: seq<TreeNode>, n: nat, last: string, attrs: FileAttributes)
    requires |grown| == n + 1 && Extends(grown, r)
    requires grown[n].tag == (if grown[n].text == last then Some(attrs) else None)
    requires TaggedByLast(r, n + 1, last, attrs)
    ensures TaggedByLast(r, n, last, attrs)
  {
    assert r[n].tag == grown[n].tag && r[n].text == grown[n].text;
  }

  // ---------------------------------------------------------------------
  // Paths in the tree
  // ---------------------------------------------------------------------

  /** From `current`, each segment from `j` on is found as a child's text. */
  ghost predicate HasPath(t: seq<TreeNode>, current: nat, segs: seq<string>, j: nat)
    requires WellFormed(t) && current < |t| && j <= |segs|
    decreases |segs| - j
  {
    j == |segs| ||
    match ChildWithText(t, current, segs[j])
    case Some(c) => c < |t| && HasPath(t, c, segs, j + 1)
    case None => false
  }

  /** The node reached by following the segments from `current`. */
  ghost function PathEnd(t: seq<TreeNode>, current: nat, segs: seq<string>, j: nat): (end: nat)
    requires WellFormed(t) && current < |t| && j <= |segs| && HasPath(t, current, segs, j)
    ensures end < |t|
    decreases |segs| - j
  {
    if j == |segs| then current else PathEnd(t, ChildWithText(t, current, segs[j]).value, segs, j + 1)
  }

  /** A child of `p` in `t` is still the child found for its text once the
      tree has been extended, as long as siblings stay distinct. */
  lemma ChildPersists(t: seq<TreeNode>, r: seq<TreeNode>, p: nat, c: nat)
    requires WellFormed(t) && WellFormed(r) && SiblingsDistinct(r) && Extends(t, r)
    requires p < |t| && c in t[p].children
    ensures c < |t| && ChildWithText(r, p, t[c].text) == Some(c)
  {
    var k :| 0 <= k < |t[p].children| && t[p].children[k] == c;
    assert r[p].children[k] == c;
    ChildWithTextUnique(r, p, c);
  }

  /** A path present in `t` is present, and ends at the same node, in every
      extension of `t` that keeps siblings distinct. */
  lemma {:induction false} HasPathPersists(t: seq<TreeNode>, r: seq<TreeNode>, current: nat, segs: seq<string>, j: nat)
    requires WellFormed(t) && WellFormed(r) && SiblingsDistinct(r) && Extends(t, r)
    requires current < |t| && j <= |segs| && HasPath(t, current, segs, j)
    ensures HasPath(r, current, segs, j) && PathEnd(r, current, segs, j) == PathEnd(t, current, segs, j)
    decreases |segs| - j
  {
    if j < |segs| {
      var c := ChildWithText(t, current, segs[j]).value;
      ChildPersists(t, r, current, c);
      HasPathPersists(t, r, c, segs, j + 1);
    }
  }

  /** After the walk the whole path is present from `current`. */
  lemma {:induction false} InsertSegmentsHasPath(t: seq<TreeNode>, current: nat, segs: seq<string>, j: nat, attrs: FileAttributes)
    requires WellFormed(t) && SiblingsDistinct(t) && current < |t| && j <= |segs|
    ensures var r := InsertSegments(t, current, segs, j, attrs);
      HasPath(r, current, segs, j)
    decreases |segs| - j
  {
    if j < |segs| {
      var r := InsertSegments(t, current, segs, j, attrs);
      InsertSegmentsKeepsSiblingsDistinct(t, current, segs, j, attrs);
      match ChildWithText(t, current, segs[j])
      case Some(c) =>
        assert c < |t| by { var k :| 0 <= k < |t[current].children| && t[current].children[k] == c; }
        InsertSegmentsHasPath(t, c, segs, j + 1, attrs);
        InsertSegmentsExtends(t, c, segs, j + 1, attrs);
        ChildPersists(t, r, current, c);
      case None =>
        var grown := Grow(t, current, segs[j], segs[j] == Last(segs), attrs);
        assert |t| in grown[current].children;
        InsertSegmentsHasPath(grown, |t|, segs, j + 1, attrs);
        InsertSegmentsExtends(grown, |t|, segs, j + 1, attrs);
        ChildPersists(grown, r, current, |t|);
    }
  }

  /** A walk along a path that is already present changes nothing. */
  lemma {:induction false} InsertSegmentsPresentPath(t: seq<TreeNode>, current: nat, segs: seq<string>, j: nat, attrs: FileAttributes)
    requires WellFormed(t) && current < |t| && j <= |segs| && HasPath(t, current, segs, j)
    ensures InsertSegments(t, current, segs, j, attrs) == t
    decreases |segs| - j
  {
    if j < |segs| {
      InsertSegmentsPresentPath(t, ChildWithText(t, current, segs[j]).value, segs, j + 1, attrs);
    }
  }

  /** The node a path leads to has that path's segments after the ones of
      the node it starts from. */
  lemma {:induction false} PathEndSegments(t: seq<TreeNode>, current: nat, segs: seq<string>, j: nat)
    requires WellFormed(t) && current < |t| && j <= |segs| && HasPath(t, current, segs, j)
    ensures Segments(t, PathEnd(t, current, segs, j)) == Segments(t, current) + segs[j..]
    decreases |segs| - j
  {
    if j < |segs| {
      var c := ChildWithText(t, current, segs[j]).value;
      ChildSegments(t, current, c);
      PathEndSegments(t, c, segs, j + 1);
      HeadAndRest(Segments(t, current), segs, j);
    } else {
      assert segs[j..] == [];
    }
  }

  /** A child's segments are its parent's and its own text. */
  lemma ChildSegments(t: seq<TreeNode>, p: nat, c: nat)
    requires WellFormed(t) && p < |t| && c in t[p].children
    ensures 0 < c < |t| && Segments(t, c) == Segments(t, p) + [t[c].text]
  {
    var k :| 0 <= k < |t[p].children| && t[p].children[k] == c;
    assert t[c].parent == p;
  }

  /** Every node a walk creates lies on the walked path: its segments are a
      prefix of the path's, longer than the starting node's. */
  lemma {:induction false} NewNodesOnPath(t: seq<TreeNode>, current: nat, segs: seq<string>, j: nat, attrs: FileAttributes)
    requires WellFormed(t) && current < |t| && j <= |segs|
    ensures AllOnPath(InsertSegments(t, current, segs, j, attrs), |t|, Segments(t, current), segs[j..])
    decreases |segs| - j, 1
  {
    if j < |segs| {
      match ChildWithText(t, current, segs[j])
      case Some(c) =>
        var r := InsertSegments(t, current, segs, j, attrs);
        ChildSegments(t, current, c);
        NewNodesOnPath(t, c, segs, j + 1, attrs);
        AllOnPathShift(r, |t|, Segments(t, current), segs[j], segs[j + 1..]);
        HeadAndRest([], segs, j);
      case None =>
        NewNodeOnPath(t, current, segs, j, attrs);
    } else {
      assert |InsertSegments(t, current, segs, j, attrs)| == |t|;
    }
  }

  /** `NewNodesOnPath` when the walk adds a node for segment `j`. */
  lemma {:induction false} NewNodeOnPath(t: seq<TreeNode>, current: nat, segs: seq<string>, j: nat, attrs: FileAttributes)
    requires WellFormed(t) && current < |t| && j < |segs| && ChildWithText(t, current, segs[j]).None?
    ensures AllOnPath(InsertSegments(t, current, segs, j, attrs), |t|, Segments(t, current), segs[j..])
    decreases |segs| - j, 0
  {
    var grown := Grow(t, current, segs[j], segs[j] == Last(segs), attrs);
    var r := InsertSegments(grown, |t|, segs, j + 1, attrs);
    assert r == InsertSegments(t, current, segs, j, attrs);
    assert AllOnPath(r, |t|, Segments(t, current), [segs[j]] + segs[j + 1..]) by {
      NewNodesOnPath(grown, |t|, segs, j + 1, attrs);
      InsertSegmentsExtends(grown, |t|, segs, j + 1, attrs);
      GrowStepOnPath(t, grown, r, current, segs[j + 1..]);
    }
    HeadAndRest([], segs, j);
  }

  lemma GrowStepOnPath(t: seq<TreeNode>, grown: seq<TreeNode>, r: seq<TreeNode>, current: nat, rest: seq<string>)
    requires WellFormed(t) && WellFormed(grown) && WellFormed(r) && current < |t|
    requires Extends(t, grown) && Extends(grown, r) && |grown| == |t| + 1
    requires |t| in grown[current].children
    requires AllOnPath(r, |t| + 1, Segments(grown, |t|), rest)
    ensures AllOnPath(r, |t|, Segments(t, current), [grown[|t|].text] + rest)
  {
    SegmentsExtend(t, grown, current);
    SegmentsExtend(grown, r, |t|);
    ChildSegments(grown, current, |t|);
    AllOnPathGrow(r, |t|, Segments(t, current), grown[|t|].text, rest);
  }

  /** Every node of `r` from `from` on lies on the path `base + rest`
      strictly below `base`. */
  ghost predicate AllOnPath(r: seq<TreeNode>, from: nat, base: seq<string>, rest: seq<string>)
    requires WellFormed(r)
  {
    forall m :: from <= m < |r| ==> OnPath(Segments(r, m), base, rest)
  }

  lemma AllOnPathShift(r: seq<TreeNode>, from: nat, base: seq<string>, x: string, rest: seq<string>)
    requires WellFormed(r) && AllOnPath(r, from, base + [x], rest)
    ensures AllOnPath(r, from, base, [x] + rest)
  {
    forall m | from <= m < |r|
      ensures OnPath(Segments(r, m), base, [x] + rest)
    {
      OnPathStep(Segments(r, m), base, x, rest);
    }
  }

  lemma AllOnPathGrow(r: seq<TreeNode>, n: nat, base: seq<string>, x: string, rest: seq<string>)
    requires WellFormed(r) && n < |r| && Segments(r, n) == base + [x]
    requires AllOnPath(r, n + 1, base + [x], rest)
    ensures AllOnPath(r, n, base, [x] + rest)
  {
    AllOnPathShift(r, n + 1, base, x, rest);
    assert base + [x] + rest == base + ([x] + rest);
  }

  lemma HeadAndRest(base: seq<string>, segs: seq<string>, j: nat)
    requires j < |segs|
    ensures [segs[j]] + segs[j + 1..] == segs[j..]
    ensures base + [segs[j]] + segs[j + 1..] == base + segs[j..]
  {
    assert [segs[j]] + segs[j + 1..] == segs[j..];
  }

  /** `s` is `base` followed by at least one and at most all of `rest`. */
  ghost predicate OnPath(s: seq<string>, base: seq<string>, rest: seq<string>) {
    |base| < |s| && s <= base + rest
  }

  lemma OnPathStep(s: seq<string>, base: seq<string>, x: string, rest: seq<string>)
    requires OnPath(s, base + [x], rest)
    ensures OnPath(s, base, [x] + rest)
  {
    assert base + [x] + rest == base + ([x] + rest);
  }


  // ---------------------------------------------------------------------
  // The built tree
  // ---------------------------------------------------------------------

  /** The tree of the first `i + 1` files is the tree of the first `i` with
      file `i` added. */
  lemma BuildTreeStep(files: seq<ChangedFile>, i: nat)
    requires i < |files|
    ensures BuildTree(files[..i + 1]) == InsertFile(BuildTree(files[..i]), files[i])
  {
    assert files[..i + 1][..i] == files[..i];
  }

  /** Completeness: every file with a non-blank path is reached from the
      root by its '/'-separated segments, at a node whose segments are
      exactly those of the path. */
  lemma BuildTreeHasEveryFile(files: seq<ChangedFile>, i: nat)
    requires i < |files| && !IsBlank(files[i].path)
    ensures var t := BuildTree(files);
      var segs := Split(files[i].path, '/');
      HasPath(t, 0, segs, 0) && Segments(t, PathEnd(t, 0, segs, 0)) == segs
  {
    var segs := Split(files[i].path, '/');
    var before := BuildTree(files[..i]);
    var after := BuildTree(files[..i + 1]);
    var t := BuildTree(files);
    assert HasPath(after, 0, segs, 0) by {
      BuildTreeStep(files, i);
      BuildTreeSiblingsDistinct(files[..i]);
      InsertSegmentsHasPath(before, 0, segs, 0, AttributesOf(files[i]));
    }
    assert HasPath(t, 0, segs, 0) by {
      BuildTreeExtendsPrefix(files, i + 1);
      BuildTreeSiblingsDistinct(files);
      HasPathPersists(after, t, 0, segs, 0);
    }
    PathEndSegmentsFromRoot(t, segs);
  }

  /** `PathEndSegments` from the root: the end node's segments are the path's. */
  lemma PathEndSegmentsFromRoot(t: seq<TreeNode>, segs: seq<string>)
    requires WellFormed(t) && HasPath(t, 0, segs, 0)
    ensures Segments(t, PathEnd(t, 0, segs, 0)) == segs
  {
    PathEndSegments(t, 0, segs, 0);
    assert segs[0..] == segs;
  }

  /** The node of a file whose path has no empty segment shows that very
      path as its full path. */
  lemma BuildTreeFullPathOfFile(files: seq<ChangedFile>, i: nat)
    requires i < |files| && !IsBlank(files[i].path)
    requires forall k :: 0 <= k < |Split(files[i].path, '/')| ==> Split(files[i].path, '/')[k] != ""
    ensures var t := BuildTree(files);
      var segs := Split(files[i].path, '/');
      HasPath(t, 0, segs, 0) && FullPath(t, PathEnd(t, 0, segs, 0)) == files[i].path
  {
    var t := BuildTree(files);
    var segs := Split(files[i].path, '/');
    BuildTreeHasEveryFile(files, i);
    FullPathOfSegments(t, PathEnd(t, 0, segs, 0), files[i].path);
  }

  /** A node whose segments are those of `path`, none of them empty, shows
      `path` as its full path. */
  lemma FullPathOfSegments(t: seq<TreeNode>, n: nat, path: string)
    requires WellFormed(t) && n < |t|
    requires Segments(t, n) == Split(path, '/')
    requires forall k :: 0 <= k < |Split(path, '/')| ==> Split(path, '/')[k] != ""
    ensures FullPath(t, n) == path
  {
    assert n != 0 by { assert |Segments(t, n)| >= 1; }
    FullPathJoinsSegments(t, n);
    JoinSplit(path, '/');
  }

  /** Some file with a non-blank path passes through the node with segments `s`. */
  ghost predicate OnSomeFilePath(files: seq<ChangedFile>, s: seq<string>) {
    exists i :: 0 <= i < |files| && !IsBlank(files[i].path) && s <= Split(files[i].path, '/')
  }

  /** Every node of `t` but the root lies on the path of one of `files`. */
  ghost predicate AllOnFilePaths(files: seq<ChangedFile>, t: seq<TreeNode>)
    requires WellFormed(t)
  {
    forall m :: 0 < m < |t| ==> OnSomeFilePath(files, Segments(t, m))
  }

  /** Soundness: every node but the root lies on the path of some file with
      a non-blank path; the builder makes up no other node. */
  lemma {:induction false} BuildTreeNodesOnFilePaths(files: seq<ChangedFile>)
    ensures AllOnFilePaths(files, BuildTree(files))
    decreases |files|
  {
    if files != [] {
      var init := files[..|files| - 1];
      var file := files[|files| - 1];
      var before := BuildTree(init);
      var t := BuildTree(files);
      assert t == InsertFile(before, file);
      BuildTreeNodesOnFilePaths(init);
      InsertFileExtends(before, file);
      if IsBlank(file.path) {
        OnFilePathsStep(init, files, before, t, []);
      } else {
        var segs := Split(file.path, '/');
        NewNodesOnPath(before, 0, segs, 0, AttributesOf(file));
        assert segs[0..] == segs;
        OnFilePathsStep(init, files, before, t, segs);
      }
    }
  }

  lemma OnFilePathsStep(init: seq<ChangedFile>, files: seq<ChangedFile>, before: seq<TreeNode>, t: seq<TreeNode>, segs: seq<string>)
    requires WellFormed(before) && WellFormed(t) && Extends(before, t)
    requires |init| + 1 == |files| && init == files[..|init|]
    requires AllOnFilePaths(init, before)
    requires |t| == |before| || (!IsBlank(files[|init|].path) && segs == Split(files[|init|].path, '/'))
    requires AllOnPath(t, |before|, [], segs)
    ensures AllOnFilePaths(files, t)
  {
    forall m | 0 < m < |t|
      ensures OnSomeFilePath(files, Segments(t, m))
    {
      if m < |before| {
        OldNodeOnSomeFilePath(init, files, before, t, m);
      } else {
        NewNodeOnSomeFilePath(files, |init|, Segments(t, m), segs);
      }
    }
  }

  /** A node added for file `i` lies on that file's path. */
  lemma NewNodeOnSomeFilePath(files: seq<ChangedFile>, i: nat, s: seq<string>, segs: seq<string>)
    requires i < |files| && !IsBlank(files[i].path) && segs == Split(files[i].path, '/')
    requires OnPath(s, [], segs)
    ensures OnSomeFilePath(files, s)
  {
    assert [] + segs == segs;
  }

  lemma OldNodeOnSomeFilePath(init: seq<ChangedFile>, files: seq<ChangedFile>, before: seq<TreeNode>, t: seq<TreeNode>, m: nat)
    requires WellFormed(before) && WellFormed(t) && Extends(before, t)
    requires |init| < |files| && init == files[..|init|]
    requires 0 < m < |before| && OnSomeFilePath(init, Segments(before, m))
    ensures m < |t| && OnSomeFilePath(files, Segments(t, m))
  {
    SegmentsExtend(before, t, m);
    OnSomeFilePathGrows(init, files, Segments(before, m));
  }

  /** A node on the path of one of the first files is on the path of one of
      all the files. */
  lemma OnSomeFilePathGrows(init: seq<ChangedFile>, files: seq<ChangedFile>, s: seq<string>)
    requires |init| < |files| && init == files[..|init|]
    requires OnSomeFilePath(init, s)
    ensures OnSomeFilePath(files, s)
  {
    var i :| 0 <= i < |init| && !IsBlank(init[i].path) && s <= Split(init[i].path, '/');
    assert files[i] == init[i];
  }

  /** A file whose path is already in the tree adds nothing: its flags are
      ignored and the earlier file's stay on the node. */
  lemma DuplicatePathAddsNothing(files: seq<ChangedFile>, i: nat, file: ChangedFile)
    requires i < |files| && file.path == files[i].path
    ensures BuildTree(files + [file]) == BuildTree(files)
  {
    var all := files + [file];
    assert all[..|all| - 1] == files;
    if !IsBlank(file.path) {
      BuildTreeHasEveryFile(files, i);
      InsertSegmentsPresentPath(BuildTree(files), 0, Split(file.path, '/'), 0, AttributesOf(file));
    }
  }

  /** The node a file ends at carries the file's flags when the file created
      it; a node that already existed (a folder of the same path, or the
      node of an earlier file) keeps the tag it had, possibly none. */
  lemma InsertFileTagsItsNode(t: seq<TreeNode>, file: ChangedFile)
    requires WellFormed(t) && SiblingsDistinct(t) && !IsBlank(file.path)
    ensures var r := InsertFile(t, file);
      var segs := Split(file.path, '/');
      HasPath(r, 0, segs, 0)
      && var end := PathEnd(r, 0, segs, 0);
      && (end >= |t| ==> r[end].tag == Some(FileAttributes(file.isNew, file.isStaged)))
      && (end < |t| ==> r[end].tag == t[end].tag)
  {
    var r := InsertFile(t, file);
    var segs := Split(file.path, '/');
    InsertSegmentsHasPath(t, 0, segs, 0, AttributesOf(file));
    var end := PathEnd(r, 0, segs, 0);
    PathEndSegmentsFromRoot(r, segs);
    assert end != 0 && r[end].text == Last(segs);
    InsertSegmentsExtends(t, 0, segs, 0, AttributesOf(file));
    NewNodesTaggedByLastSegment(t, 0, segs, 0, AttributesOf(file));
  }
}
