/**
 * The WinForms `TreeNode` graph the change tree is built in, kept as a table
 * of node records: a node is identified by its index, the root is index 0,
 * a node records its text, its tag, the index of its parent (-1 for the
 * root) and the indices of its children in the order of its `Nodes`
 * collection.
 */
module TreeNodes {
  import opened Wrappers
  import opened Strings
  import opened Models

  datatype TreeNode = TreeNode(text: string, tag: Option<FileAttributes>, parent: int, children: seq<nat>)

  /** `new TreeNode()`: empty text, no tag, no parent, no children. */
  const RootNode := TreeNode("", None, -1, [])

  /** The shape every table built from a root keeps: the root has empty text
      and no parent, every other node's parent was created before it, a
      node's children were created after it and are listed in creation
      order, and a node is a child of exactly the node it names as parent. */
  ghost predicate WellFormed(t: seq<TreeNode>) {
    && |t| >= 1
    && t[0].text == "" && t[0].parent == -1
    && (forall n :: 0 < n < |t| ==> 0 <= t[n].parent < n)
    && (forall n, k :: 0 <= n < |t| && 0 <= k < |t[n].children| ==>
          n < t[n].children[k] < |t| && t[t[n].children[k]].parent == n)
    && (forall n, k1, k2 :: 0 <= n < |t| && 0 <= k1 < k2 < |t[n].children| ==>
          t[n].children[k1] < t[n].children[k2])
    && (forall c :: 0 < c < |t| ==> c in t[t[c].parent].children)
  }

  /** The part of `WellFormed` that walking up to the root and down to the
      children relies on: parents come before and children after a node,
      all within the table. */
  ghost predicate Ordered(t: seq<TreeNode>) {
    && (forall n :: 0 <= n < |t| ==> t[n].parent < n && (n > 0 ==> 0 <= t[n].parent))
    && (forall n, k :: 0 <= n < |t| && 0 <= k < |t[n].children| ==> n < t[n].children[k] < |t|)
  }

  /** A well-formed table is ordered. */
  lemma WellFormedOrdered(t: seq<TreeNode>)
    requires WellFormed(t)
    ensures Ordered(t)
  { }

  /** No two children of one node have the same text. */
  ghost predicate SiblingsDistinct(t: seq<TreeNode>)
    requires WellFormed(t)
  {
    forall n, k1, k2 :: 0 <= n < |t| && 0 <= k1 < |t[n].children| && 0 <= k2 < |t[n].children| && k1 != k2 ==>
      t[t[n].children[k1]].text != t[t[n].children[k2]].text
  }

  /** Every child listed is a node of the table. */
  ghost predicate ChildrenInTable(t: seq<TreeNode>, cs: seq<nat>) {
    forall k :: 0 <= k < |cs| ==> cs[k] < |t|
  }

  /** `FirstOrDefault(x => x.Text == text)` over the children `cs`. */
  function FirstWithText(t: seq<TreeNode>, cs: seq<nat>, text: string): (found: Option<nat>)
    requires ChildrenInTable(t, cs)
    ensures found.Some? ==> found.value in cs && t[found.value].text == text
    ensures found.Some? ==> forall k :: 0 <= k < |cs| && cs[k] != found.value && t[cs[k]].text == text ==>
                              exists k' :: 0 <= k' < k && cs[k'] == found.value
    ensures found.None? <==> forall k :: 0 <= k < |cs| ==> t[cs[k]].text != text
    decreases |cs|
  {
    if cs == [] then None
    else if t[cs[0]].text == text then Some(cs[0])
    else
      var r := FirstWithText(t, cs[1..], text);
      assert forall k :: 1 <= k < |cs| ==> cs[k] == cs[1..][k - 1];
      r
  }

  /** The first child of `p` whose text is `text`, if any. */
  function ChildWithText(t: seq<TreeNode>, p: nat, text: string): (found: Option<nat>)
    requires WellFormed(t) && p < |t|
    ensures found.Some? ==> found.value in t[p].children && t[found.value].text == text
    ensures found.None? <==> forall c :: c in t[p].children ==> t[c].text != text
  {
    FirstWithText(t, t[p].children, text)
  }

  /** With distinct siblings the first child with a text is the only one. */
  lemma ChildWithTextUnique(t: seq<TreeNode>, p: nat, x: nat)
    requires WellFormed(t) && SiblingsDistinct(t) && p < |t|
    requires x in t[p].children
    ensures ChildWithText(t, p, t[x].text) == Some(x)
  {
    var found := ChildWithText(t, p, t[x].text);
    var cs := t[p].children;
    var kx :| 0 <= kx < |cs| && cs[kx] == x;
    assert found.Some?;
    var kf :| 0 <= kf < |cs| && cs[kf] == found.value;
    assert t[cs[kf]].text == t[cs[kx]].text;
    assert kf == kx;
  }

  /** `parent.Nodes.Add(text)`: a new node, last among the parent's children. */
  function WithChild(t: seq<TreeNode>, p: nat, text: string): (r: seq<TreeNode>)
    requires p < |t|
    ensures |r| == |t| + 1
    ensures r[|t|] == TreeNode(text, None, p, [])
    ensures r[p].children == t[p].children + [|t|]
    ensures forall n :: 0 <= n < |t| && n != p ==> r[n] == t[n]
    ensures r[p].text == t[p].text && r[p].tag == t[p].tag && r[p].parent == t[p].parent
  {
    t[p := t[p].(children := t[p].children + [|t|])] + [TreeNode(text, None, p, [])]
  }

  /** `node.Tag = attrs`. */
  function WithTag(t: seq<TreeNode>, n: nat, attrs: FileAttributes): (r: seq<TreeNode>)
    requires n < |t|
    ensures |r| == |t|
    ensures r[n] == t[n].(tag := Some(attrs))
    ensures forall m :: 0 <= m < |t| && m != n ==> r[m] == t[m]
  {
    t[n := t[n].(tag := Some(attrs))]
  }

  /** Adding a child keeps the table well formed. */
  lemma WithChildWellFormed(t: seq<TreeNode>, p: nat, text: string)
    requires WellFormed(t) && p < |t|
    ensures WellFormed(WithChild(t, p, text))
  {
    WithChildLinksChildren(t, p, text);
    WithChildOrdersChildren(t, p, text);
    WithChildListsEveryNode(t, p, text);
  }

  lemma WithChildLinksChildren(t: seq<TreeNode>, p: nat, text: string)
    requires WellFormed(t) && p < |t|
    ensures var r := WithChild(t, p, text);
      forall n, k :: 0 <= n < |r| && 0 <= k < |r[n].children| ==>
        n < r[n].children[k] < |r| && r[r[n].children[k]].parent == n
  {
    var r := WithChild(t, p, text);
    forall n, k | 0 <= n < |r| && 0 <= k < |r[n].children|
      ensures n < r[n].children[k] < |r| && r[r[n].children[k]].parent == n
    {
      if n == p && k == |t[p].children| {
        assert r[n].children[k] == |t|;
      } else {
        assert r[n].children[k] == t[n].children[k];
      }
    }
  }

  lemma WithChildOrdersChildren(t: seq<TreeNode>, p: nat, text: string)
    requires WellFormed(t) && p < |t|
    ensures var r := WithChild(t, p, text);
      forall n, k1, k2 :: 0 <= n < |r| && 0 <= k1 < k2 < |r[n].children| ==>
        r[n].children[k1] < r[n].children[k2]
  {
    var r := WithChild(t, p, text);
    forall n, k1, k2 | 0 <= n < |r| && 0 <= k1 < k2 < |r[n].children|
      ensures r[n].children[k1] < r[n].children[k2]
    {
      if n == p && k2 == |t[p].children| {
        assert r[n].children[k1] == t[n].children[k1];
      } else {
        assert r[n].children[k1] == t[n].children[k1];
        assert r[n].children[k2] == t[n].children[k2];
      }
    }
  }

  lemma WithChildListsEveryNode(t: seq<TreeNode>, p: nat, text: string)
    requires WellFormed(t) && p < |t|
    ensures var r := WithChild(t, p, text);
      forall c :: 0 < c < |r| ==> c in r[r[c].parent].children
  {
    var r := WithChild(t, p, text);
    forall c | 0 < c < |r|
      ensures c in r[r[c].parent].children
    {
      if c < |t| {
        var q := t[c].parent;
        assert c in t[q].children;
        assert t[q].children <= r[q].children;
      } else {
        assert r[p].children[|t[p].children|] == |t|;
      }
    }
  }

  /** Adding a child whose text no child of the parent has yet keeps
      siblings distinct. */
  lemma WithChildKeepsSiblingsDistinct(t: seq<TreeNode>, p: nat, text: string)
    requires WellFormed(t) && SiblingsDistinct(t) && p < |t|
    requires ChildWithText(t, p, text).None?
    ensures WellFormed(WithChild(t, p, text)) && SiblingsDistinct(WithChild(t, p, text))
  {
    var r := WithChild(t, p, text);
    WithChildWellFormed(t, p, text);
    forall n, k1, k2 | 0 <= n < |r| && 0 <= k1 < |r[n].children| && 0 <= k2 < |r[n].children| && k1 != k2
      ensures r[r[n].children[k1]].text != r[r[n].children[k2]].text
    {
      WithChildSiblingsDiffer(t, p, text, n, k1, k2);
    }
  }

  lemma WithChildSiblingsDiffer(t: seq<TreeNode>, p: nat, text: string, n: nat, k1: nat, k2: nat)
    requires WellFormed(t) && SiblingsDistinct(t) && p < |t|
    requires ChildWithText(t, p, text).None?
    requires var r := WithChild(t, p, text);
      n < |r| && k1 < |r[n].children| && k2 < |r[n].children| && k1 != k2
    ensures var r := WithChild(t, p, text);
      r[n].children[k1] < |r| && r[n].children[k2] < |r| &&
      r[r[n].children[k1]].text != r[r[n].children[k2]].text
  {
    var r := WithChild(t, p, text);
    var cs := t[n].children;
    if n == p && (k1 == |cs| || k2 == |cs|) {
      var other := if k1 == |cs| then k2 else k1;
      assert r[n].children[other] == cs[other];
      assert cs[other] in t[p].children;
    } else {
      assert r[n].children[k1] == cs[k1] && r[n].children[k2] == cs[k2];
    }
  }

  /** Tagging changes neither the shape nor any text. */
  lemma WithTagWellFormed(t: seq<TreeNode>, n: nat, attrs: FileAttributes)
    requires WellFormed(t) && n < |t|
    ensures WellFormed(WithTag(t, n, attrs))
    ensures SiblingsDistinct(t) ==> SiblingsDistinct(WithTag(t, n, attrs))
  {
    SameShapeWellFormed(t, WithTag(t, n, attrs));
  }

  /** Two tables with the same texts, parents and children. */
  ghost predicate SameShape(t: seq<TreeNode>, r: seq<TreeNode>) {
    |r| == |t| && forall m :: 0 <= m < |t| ==> r[m].text == t[m].text && r[m].parent == t[m].parent && r[m].children == t[m].children
  }

  lemma SameShapeWellFormed(t: seq<TreeNode>, r: seq<TreeNode>)
    requires WellFormed(t) && SameShape(t, r)
    ensures WellFormed(r)
    ensures SiblingsDistinct(t) ==> SiblingsDistinct(r)
  {
    forall n, k | 0 <= n < |r| && 0 <= k < |r[n].children|
      ensures n < r[n].children[k] < |r| && r[r[n].children[k]].parent == n
    {
      assert r[n].children[k] == t[n].children[k];
    }
    forall n, k1, k2 | 0 <= n < |r| && 0 <= k1 < k2 < |r[n].children|
      ensures r[n].children[k1] < r[n].children[k2]
    {
      assert r[n].children[k1] == t[n].children[k1] && r[n].children[k2] == t[n].children[k2];
    }
    forall c | 0 < c < |r|
      ensures c in r[r[c].parent].children
    {
      assert c in t[t[c].parent].children;
    }
    if SiblingsDistinct(t) {
      forall n, k1, k2 | 0 <= n < |r| && 0 <= k1 < |r[n].children| && 0 <= k2 < |r[n].children| && k1 != k2
        ensures r[r[n].children[k1]].text != r[r[n].children[k2]].text
      {
        assert r[n].children[k1] == t[n].children[k1] && r[n].children[k2] == t[n].children[k2];
      }
    }
  }

  // ---------------------------------------------------------------------
  // Paths
  // ---------------------------------------------------------------------

  /** `GetTreeViewNodeFullPath`: the parent's full path and a "/" when the
      parent's text is not empty, then the node's own text. */
  function FullPath(t: seq<TreeNode>, n: nat): (path: string)
    requires Ordered(t) && n < |t|
    decreases n
  {
    var p := t[n].parent;
    var prefix := if p >= 0 && t[p].text != "" then FullPath(t, p) + "/" else "";
    prefix + t[n].text
  }

  /** A node's full path ends with its own text. */
  lemma FullPathEndsWithText(t: seq<TreeNode>, n: nat)
    requires Ordered(t) && n < |t|
    ensures var path := FullPath(t, n);
      |t[n].text| <= |path| && path[|path| - |t[n].text|..] == t[n].text
  {
    var p := t[n].parent;
    var prefix := if p >= 0 && t[p].text != "" then FullPath(t, p) + "/" else "";
    assert FullPath(t, n) == prefix + t[n].text;
    assert (prefix + t[n].text)[|prefix|..] == t[n].text;
  }

  /** The texts on the way from the root (excluded) down to `n`. */
  function Segments(t: seq<TreeNode>, n: nat): (segs: seq<string>)
    requires Ordered(t) && n < |t|
    ensures |segs| == 0 <==> n == 0
    ensures n > 0 ==> Last(segs) == t[n].text
    decreases n
  {
    if n == 0 then [] else Segments(t, t[n].parent) + [t[n].text]
  }

  /** When no segment on the way to a node is empty, its full path is its
      segments joined with "/". */
  lemma {:induction false} FullPathJoinsSegments(t: seq<TreeNode>, n: nat)
    requires WellFormed(t) && 0 < n < |t|
    requires forall k :: 0 <= k < |Segments(t, n)| ==> Segments(t, n)[k] != ""
    ensures FullPath(t, n) == Join(Segments(t, n), '/')
    decreases n
  {
    var p := t[n].parent;
    var segs := Segments(t, n);
    if p == 0 {
      assert Segments(t, p) == [];
      assert segs == [t[n].text];
    } else {
      var above := Segments(t, p);
      assert segs == above + [t[n].text];
      assert forall k :: 0 <= k < |above| ==> above[k] == segs[k];
      FullPathJoinsSegments(t, p);
      assert t[p].text == Last(above) == segs[|above| - 1];
      JoinSnoc(above, t[n].text, '/');
    }
  }

  /** A node under a parent with empty text (the root, or a node made by an
      empty segment such as the one before a leading '/') has just its own
      text as full path: the prefix above it is lost. */
  lemma FullPathUnderEmptyParent(t: seq<TreeNode>, n: nat)
    requires Ordered(t) && 0 < n < |t|
    requires t[t[n].parent].text == ""
    ensures FullPath(t, n) == t[n].text
  { }

  // ---------------------------------------------------------------------
  // The mutable table
  // ---------------------------------------------------------------------

  /** The nodes created from one root, updated in place. */
  class Tree {
    var nodes: seq<TreeNode>

    /** `new TreeNode()`: a lone root. */
    constructor ()
      ensures nodes == [RootNode]
      ensures WellFormed(nodes) && SiblingsDistinct(nodes)
    {
      nodes := [RootNode];
    }

    /** `p.Nodes.Cast<TreeNode>().FirstOrDefault(x => x.Text == text)`,
        scanning the children in order. */
    method FindChild(p: nat, text: string) returns (found: Option<nat>)
      requires WellFormed(nodes) && p < |nodes|
      ensures found == ChildWithText(nodes, p, text)
    {
      var cs := nodes[p].children;
      var i := 0;
      while i < |cs|
        invariant 0 <= i <= |cs|
        invariant FirstWithText(nodes, cs, text) == FirstWithText(nodes, cs[i..], text)
      {
        if nodes[cs[i]].text == text {
          return Some(cs[i]);
        }
        assert cs[i..][1..] == cs[i + 1..];
        i := i + 1;
      }
      return None;
    }

    /** `p.Nodes.Add(text)`, returning the new node. */
    method Add(p: nat, text: string) returns (n: nat)
      requires p < |nodes|
      modifies this
      ensures n == |old(nodes)|
      ensures nodes == WithChild(old(nodes), p, text)
    {
      n := |nodes|;
      nodes := WithChild(nodes, p, text);
    }

    /** `node.Tag = attrs`. */
    method SetTag(n: nat, attrs: FileAttributes)
      requires n < |nodes|
      modifies this
      ensures nodes == WithTag(old(nodes), n, attrs)
    {
      nodes := WithTag(nodes, n, attrs);
    }
  }
}
