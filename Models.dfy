/**
 * The records the change tree is built from and projected to: a changed
 * file of a stash, the flags a tree node is tagged with, and the tree-view
 * item the Team Explorer page binds to.
 */
module Models {
  import opened Wrappers
  import opened Strings

  /** One file a stash changes: its repository-relative path, whether it was
      new (untracked) and whether it was staged before the stash. */
  datatype ChangedFile = ChangedFile(path: string, isNew: bool, isStaged: bool)

  /** The flags the tree builder attaches to a node (`Models.FileAttributes`). */
  datatype FileAttributes = FileAttributes(isNew: bool, isStaged: bool)

  /** The flags a changed file contributes to the node for its last segment. */
  function AttributesOf(file: ChangedFile): (attrs: FileAttributes)
    ensures attrs.isNew == file.isNew && attrs.isStaged == file.isStaged
  {
    FileAttributes(file.isNew, file.isStaged)
  }

  /** The icon an item shows. The image service is not modelled: an icon is
      identified by the request made for it, the icon of a file extension
      (given with its leading dot) or a folder icon, open or closed. */
  datatype Icon = FileIcon(extension: string) | FolderIcon(expanded: bool)

  /** The extension asked for a file item: a dot and the text after the last
      '.' of the name, or the whole name when it has no '.'. */
  function ExtensionOf(name: string): (extension: string)
    ensures |extension| >= 1 && extension[0] == '.'
    ensures '.' !in extension[1..]
    ensures exists k :: 0 <= k <= |name| && extension[1..] == name[k..] && (k == 0 || name[k - 1] == '.')
  {
    var parts := Split(name, '.');
    SplitLastIsSuffix(name, '.');
    assert '.' !in Last(parts);
    assert ("." + Last(parts))[1..] == Last(parts);
    "." + Last(parts)
  }

  /** A tree-view item. `None` in `items`, `isNew` or `isStaged` is a C# null. */
  datatype TreeViewItemWithIcon = TreeViewItemWithIcon(
    text: string,
    fullPath: string,
    source: Icon,
    isExpanded: bool,
    isFile: bool,
    items: Option<seq<TreeViewItemWithIcon>>,
    isNew: Option<bool>,
    isStaged: Option<bool>)
  {
    /** The context-menu header: "Open" for a new file, otherwise (not new,
        or no flag at all) "Compare with previous". */
    function ContextMenuText(): (header: string)
      ensures header == "Open" <==> isNew == Some(true)
      ensures header == "Open" || header == "Compare with previous"
    {
      if isNew.GetOr(false) then "Open" else "Compare with previous"
    }
  }

  /** The header depends on `isNew` alone: two items that agree on it show the
      same header whatever their other fields. */
  lemma ContextMenuTextDependsOnlyOnIsNew(a: TreeViewItemWithIcon, b: TreeViewItemWithIcon)
    requires a.isNew == b.isNew
    ensures a.ContextMenuText() == b.ContextMenuText()
  { }

  /** An item without flags (an untagged node) offers a comparison. */
  lemma UntaggedItemOffersComparison(item: TreeViewItemWithIcon)
    requires item.isNew == None
    ensures item.ContextMenuText() == "Compare with previous"
  { }
}
