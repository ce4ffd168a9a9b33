/**
 * The projection of the change tree to tree-view items (`ToTreeViewItem`
 * and `GetTreeViewNodeFullPath`), as functions of the node table.
 */
module TreeViewProjection {
  import opened Wrappers
  import opened Strings
  import opened Models
  import opened TreeNodes

  /** The icon an item asks for: a file's by its extension, an open folder's
      otherwise. */
  function IconFor(text: string, isFile: bool): (icon: Icon)
    ensures isFile ==> icon.FileIcon? && icon.extension == ExtensionOf(text)
    ensures !isFile ==> icon == FolderIcon(true)
  {
    if isFile then FileIcon(ExtensionOf(text)) else FolderIcon(true)
  }

  /** The item for node `n`, shown as a file when `isFile` holds: its text,
      full path and icon, expanded exactly when it is not a file, its child
      items (`None` when it has no children) and the flags of its tag
      (`None` when untagged). */
  function ProjectItem(t: seq<TreeNode>, n: nat, isFile: bool): (item: TreeViewItemWithIcon)
    requires Ordered(t) && n < |t|
    decreases |t| - n, 1
  {
    var node := t[n];
    TreeViewItemWithIcon(
      node.text,
      FullPath(t, n),
      IconFor(node.text, isFile),
      !isFile,
      isFile,
      if |node.children| == 0 then None else Some(ChildItems(t, n)),
      if node.tag.Some? then Some(node.tag.value.isNew) else None,
      if node.tag.Some? then Some(node.tag.value.isStaged) else None)
  }

  /** The items of the children of `n` in order, each shown as a file
      exactly when it has no children. */
  function ChildItems(t: seq<TreeNode>, n: nat): (items: seq<TreeViewItemWithIcon>)
    requires Ordered(t) && n < |t|
    ensures |items| == |t[n].children|
    decreases |t| - n, 0
  {
    var children := t[n].children;
    seq(|children|, i requires 0 <= i < |children| => ProjectItem(t, children[i], |t[children[i]].children| == 0))
  }

  /** An item is its fields with the child items put in. */
  lemma ProjectItemShell(t: seq<TreeNode>, n: nat, isFile: bool)
    requires Ordered(t) && n < |t|
    ensures var node := t[n];
      var shell := TreeViewItemWithIcon(node.text, FullPath(t, n), IconFor(node.text, isFile), !isFile, isFile, None,
        if node.tag.Some? then Some(node.tag.value.isNew) else None,
        if node.tag.Some? then Some(node.tag.value.isStaged) else None);
      ProjectItem(t, n, isFile) == shell.(items := if |node.children| == 0 then None else Some(ChildItems(t, n)))
  { }

  /** `ChangeItems`: the root's child items, an empty list when it has none. */
  function ChangeItems(t: seq<TreeNode>): (items: seq<TreeViewItemWithIcon>)
    requires Ordered(t) && |t| >= 1
  {
    ProjectItem(t, 0, false).items.GetOr([])
  }

  /** Item `i` of a node with children is the projection of its child `i`. */
  lemma ItemsAt(t: seq<TreeNode>, n: nat, isFile: bool, i: nat)
    requires Ordered(t) && n < |t| && i < |t[n].children|
    ensures var item := ProjectItem(t, n, isFile);
      var c := t[n].children[i];
      item.items.Some? && |item.items.value| == |t[n].children|
      && item.items.value[i] == ProjectItem(t, c, |t[c].children| == 0)
  { }

  /** Below the root, an item is a file exactly when it has no child items,
      and it is expanded exactly when it is not a file; its text is its
      node's. */
  lemma ChildItemIsFileIffLeaf(t: seq<TreeNode>, n: nat, isFile: bool, i: nat)
    requires Ordered(t) && n < |t| && i < |t[n].children|
    ensures var child := ProjectItem(t, n, isFile).items.value[i];
      var c := t[n].children[i];
      && child.text == t[c].text
      && (child.isFile <==> child.items.None?)
      && (child.isFile <==> |t[c].children| == 0)
      && child.isExpanded == !child.isFile
      && child.source == (if |t[c].children| == 0 then FileIcon(ExtensionOf(t[c].text)) else FolderIcon(true))
  {
    ItemsAt(t, n, isFile, i);
  }

  /** An item's flags are its node's tag: both null on an untagged node, and
      the context menu offers "Open" exactly for a node tagged as new. */
  lemma ItemFlagsFollowTag(t: seq<TreeNode>, n: nat, isFile: bool)
    requires Ordered(t) && n < |t|
    ensures var item := ProjectItem(t, n, isFile);
      && (t[n].tag.None? <==> item.isNew.None?)
      && (t[n].tag.None? <==> item.isStaged.None?)
      && (t[n].tag.Some? ==> item.isNew == Some(t[n].tag.value.isNew) && item.isStaged == Some(t[n].tag.value.isStaged))
      && (item.ContextMenuText() == "Open" <==> t[n].tag.Some? && t[n].tag.value.isNew)
  { }

  /** `ChangeItems` lists the projections of the root's children in order,
      each a top-level item whose full path is just its text. */
  lemma ChangeItemsAreTopLevel(t: seq<TreeNode>)
    requires WellFormed(t)
    ensures |ChangeItems(t)| == |t[0].children|
    ensures forall i :: 0 <= i < |t[0].children| ==>
      ChangeItems(t)[i] == ProjectItem(t, t[0].children[i], |t[t[0].children[i]].children| == 0)
      && ChangeItems(t)[i].fullPath == ChangeItems(t)[i].text
  {
    ChangeItemsLength(t);
    forall i | 0 <= i < |t[0].children|
      ensures ChangeItems(t)[i] == ProjectItem(t, t[0].children[i], |t[t[0].children[i]].children| == 0)
        && ChangeItems(t)[i].fullPath == ChangeItems(t)[i].text
    {
      ChangeItemAt(t, i);
    }
  }

  lemma ChangeItemsLength(t: seq<TreeNode>)
    requires WellFormed(t)
    ensures |ChangeItems(t)| == |t[0].children|
  {
    var item := ProjectItem(t, 0, false);
    if |t[0].children| == 0 {
      assert item.items == None;
    } else {
      assert item.items == Some(ChildItems(t, 0));
    }
  }

  lemma ChangeItemAt(t: seq<TreeNode>, i: nat)
    requires WellFormed(t) && i < |t[0].children|
    ensures |ChangeItems(t)| == |t[0].children|
    ensures ChangeItems(t)[i] == ProjectItem(t, t[0].children[i], |t[t[0].children[i]].children| == 0)
    ensures ChangeItems(t)[i].fullPath == ChangeItems(t)[i].text
  {
    var c := t[0].children[i];
    ItemsAt(t, 0, false, i);
    FullPathUnderEmptyParent(t, c);
  }

  /** With nothing but the root, `ChangeItems` is an empty list, not null. */
  lemma NoChangesNoItems()
    ensures ChangeItems([RootNode]) == []
  { }
}
