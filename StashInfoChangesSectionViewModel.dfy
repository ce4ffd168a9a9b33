/**
 * The stash-details view model: its constructor builds the tree of changed
 * files and projects it to tree-view items; `RunDiff` saves versions of one
 * file and opens them.
 */
module StashInfoChangesSectionViewModel {
  import opened Wrappers
  import opened Strings
  import opened Models
  import opened TreeNodes
  import opened ChangeTreeBuilder
  import opened TreeViewProjection
  import opened DiffOrchestration

  /** The two parts of a stash the view model reads: its number and its
      changed files. */
  datatype Stash = Stash(id: int, changedFiles: seq<ChangedFile>)

  class StashInfoChangesSectionViewModel {
    /** `_stash`, `None` for a null stash. */
    const stash: Option<Stash>
    /** Whether `_teamExplorer` is non-null, so that notifications show. */
    const hasTeamExplorer: bool
    /** `ChangeItems`, `None` while unset. */
    var changeItems: Option<seq<TreeViewItemWithIcon>>
    /** The host calls made so far by `RunDiff`. */
    var trace: seq<Event>

    /** `_stash.Id`, or `None` where reading it throws. */
    function StashId(): (id: Option<int>)
      ensures id.Some? <==> stash.Some?
      ensures stash.Some? ==> id.value == stash.value.id
    {
      if stash.Some? then Some(stash.value.id) else None
    }

    /** Without a stash nothing is built and `ChangeItems` stays unset;
        otherwise it holds the items of the tree built from the stash's
        changed files, in order. */
    constructor (stash: Option<Stash>, hasTeamExplorer: bool)
      ensures this.stash == stash && this.hasTeamExplorer == hasTeamExplorer && trace == []
      ensures stash.None? ==> changeItems == None
      ensures stash.Some? ==> changeItems == Some(ChangeItems(BuildTree(stash.value.changedFiles)))
    {
      this.stash := stash;
      this.hasTeamExplorer := hasTeamExplorer;
      changeItems := None;
      trace := [];
      new;
      if stash.None? {
        return;
      }
      var files := stash.value.changedFiles;
      var rootNode := BuildRoot(files);
      ghost var t := rootNode.nodes;
      WellFormedOrdered(t);
      var rootTreeViewItem := ToTreeViewItem(rootNode, 0, false);
      changeItems := Some(rootTreeViewItem.items.GetOr([]));
    }

    /** The item for node `n` and, recursively, its children in order; a
        child is shown as a file exactly when it has no children. */
    method ToTreeViewItem(tree: Tree, n: nat, isFile: bool) returns (treeViewItem: TreeViewItemWithIcon)
      requires Ordered(tree.nodes) && n < |tree.nodes|
      ensures treeViewItem == ProjectItem(tree.nodes, n, isFile)
      decreases |tree.nodes| - n, 1
    {
      var node := tree.nodes[n];
      var attributes := node.tag;
      var items := ChildTreeViewItems(tree, n);
      treeViewItem := TreeViewItemWithIcon(
        node.text,
        FullPath(tree.nodes, n),
        IconFor(node.text, isFile),
        !isFile,
        isFile,
        items,
        if attributes.Some? then Some(attributes.value.isNew) else None,
        if attributes.Some? then Some(attributes.value.isStaged) else None);
      ProjectItemShell(tree.nodes, n, isFile);
    }

    /** The loop of `ToTreeViewItem` over the children of `n`: the list is
        created with the first child's item, so a node without children
        keeps a null list. */
    method ChildTreeViewItems(tree: Tree, n: nat) returns (items: Option<seq<TreeViewItemWithIcon>>)
      requires Ordered(tree.nodes) && n < |tree.nodes|
      ensures items == if |tree.nodes[n].children| == 0 then None
                       else Some(ChildItems(tree.nodes, n))
      decreases |tree.nodes| - n, 0
    {
      var nodes := tree.nodes;
      var children := nodes[n].children;
      ghost var expected := ChildItems(nodes, n);
      var list: seq<TreeViewItemWithIcon> := [];
      var k := 0;
      while k < |children|
        invariant 0 <= k <= |children|
        invariant list == expected[..k]
      {
        var child := children[k];
        var childItem := ToTreeViewItem(tree, child, |nodes[child].children| == 0);
        PrefixSnoc(expected, k, childItem);
        list := list + [childItem];
        k := k + 1;
      }
      assert list == expected by { PrefixAll(expected); }
      items := if k == 0 then None else Some(list);
    }

    /** `_teamExplorer?.ShowNotification(message, ...)`. */
    method ShowNotification(message: string)
      modifies this
      ensures hasTeamExplorer ==> trace == old(trace) + [Notify(message)]
      ensures !hasTeamExplorer ==> trace == old(trace)
      ensures changeItems == old(changeItems)
    {
      if hasTeamExplorer {
        trace := trace + [Notify(message)];
      }
    }

    /** One diff request: the host calls are appended to `trace` as
        `DiffTrace` lists them; the change items are untouched. */
    method RunDiff(filePath: string, fileName: string, isNew: bool, isStaged: bool, host: DiffHost)
      modifies this
      ensures trace == old(trace) + DiffTrace(StashId(), hasTeamExplorer, filePath, fileName, isNew, isStaged, host)
      ensures changeItems == old(changeItems)
    {
      var beforeTempPath := host.beforeTemp;
      var afterTempPath := host.afterTemp;
      var untrackedTempPath := host.untrackedTemp;
      trace := trace + [CreateTempFile(beforeTempPath), CreateTempFile(afterTempPath), CreateTempFile(untrackedTempPath)];
      ghost var start := trace;
      ghost var body := TryBlock(StashId(), hasTeamExplorer, filePath, fileName, isNew, isStaged, host);
      var threw;
      if stash.None? {
        threw := true;
      } else if isNew {
        threw := DiffNewFile(stash.value.id, filePath, isStaged, host);
      } else {
        threw := DiffTrackedFile(stash.value.id, filePath, fileName, host);
      }
      assert trace == start + body.events && threw == body.threw;
      ghost var tried := trace;
      if threw {
        trace := trace + [LogException];
        ShowNotification(host.unexpectedErrorMessage + host.newLine + "Find error info in " + host.logFilePath);
      }
      assert trace == tried + Caught(body.threw, hasTeamExplorer, host);
      trace := trace + [DeleteFile(beforeTempPath), DeleteFile(afterTempPath)];
      Associate(old(trace), Created(host), body.events, Caught(body.threw, hasTeamExplorer, host), Deleted(host));
    }

    /** The `try` block for a new file. The source repeats this branch once
        per value of `isStaged`, differing only in the flag passed on; here
        the flag is passed directly. */
    method DiffNewFile(id: int, filePath: string, isStaged: bool, host: DiffHost) returns (threw: bool)
      modifies this
      ensures trace == old(trace) + NewFileTry(id, hasTeamExplorer, filePath, isStaged, host).events
      ensures threw == NewFileTry(id, hasTeamExplorer, filePath, isStaged, host).threw
      ensures changeItems == old(changeItems)
    {
      threw := false;
      trace := trace + [SaveUntracked(id, filePath, host.untrackedTemp, isStaged)];
      match host.untrackedSave {
        case NotSaved(error) =>
          ShowNotification(error);
        case SaveThrows =>
          threw := true;
        case Saved =>
          trace := trace + [OpenFile(host.untrackedTemp)];
          threw := host.openFileThrows;
      }
    }

    /** The `try` block for a tracked file. */
    method DiffTrackedFile(id: int, filePath: string, fileName: string, host: DiffHost) returns (threw: bool)
      modifies this
      ensures trace == old(trace) + TrackedFileTry(id, hasTeamExplorer, filePath, fileName, host).events
      ensures threw == TrackedFileTry(id, hasTeamExplorer, filePath, fileName, host).threw
      ensures changeItems == old(changeItems)
    {
      threw := false;
      trace := trace + [SaveBefore(id, filePath, host.beforeTemp)];
      match host.beforeSave {
        case NotSaved(errorMessage) =>
          ShowNotification(errorMessage);
        case SaveThrows =>
          threw := true;
        case Saved =>
          trace := trace + [SaveAfter(id, filePath, host.afterTemp)];
          match host.afterSave {
            case NotSaved(errorMessage) =>
              ShowNotification(errorMessage);
            case SaveThrows =>
              threw := true;
            case Saved =>
              trace := trace + [Comparison(host, fileName)];
              threw := host.comparisonThrows;
          }
      }
    }
  }

  lemma PrefixSnoc<T>(s: seq<T>, k: nat, x: T)
    requires k < |s| && s[k] == x
    ensures s[..k] + [x] == s[..k + 1]
  { }

  lemma PrefixAll<T>(s: seq<T>)
    ensures s[..|s|] == s
  { }

  lemma Associate(o: seq<Event>, a: seq<Event>, b: seq<Event>, c: seq<Event>, d: seq<Event>)
    ensures o + a + b + c + d == o + (a + b + c + d)
  { }

  /** The loop of the constructor over the stash's changed files: a fresh
      tree holding just the root, with each file added in turn. */
  method BuildRoot(files: seq<ChangedFile>) returns (rootNode: Tree)
    ensures fresh(rootNode)
    ensures rootNode.nodes == BuildTree(files)
  {
    rootNode := new Tree();
    var i := 0;
    while i < |files|
      invariant 0 <= i <= |files|
      invariant fresh(rootNode)
      invariant rootNode.nodes == BuildTree(files[..i])
    {
      BuildTreeStep(files, i);
      AddChangedFile(rootNode, files[i]);
      i := i + 1;
    }
    assert files[..i] == files;
  }

  /** One pass of the constructor's outer loop: a file whose path is blank
      once trimmed is skipped; otherwise its '/'-separated segments are
      walked from the root, reusing the first child with the segment's text
      and adding a node where there is none, and a node added for a segment
      equal to the path's last one gets the file's flags. */
  method AddChangedFile(rootNode: Tree, file: ChangedFile)
    requires WellFormed(rootNode.nodes)
    modifies rootNode
    ensures rootNode.nodes == InsertFile(old(rootNode.nodes), file)
  {
    if IsBlank(file.path) {
      return;
    }
    ghost var goal := InsertFile(rootNode.nodes, file);
    ghost var attrs := AttributesOf(file);
    var currentNode: nat := 0;
    var pathNodes := Split(file.path, '/');
    var j := 0;
    while j < |pathNodes|
      invariant 0 <= j <= |pathNodes|
      invariant WellFormed(rootNode.nodes) && currentNode < |rootNode.nodes|
      invariant InsertSegments(rootNode.nodes, currentNode, pathNodes, j, attrs) == goal
    {
      ghost var t := rootNode.nodes;
      var item := pathNodes[j];
      if ChildWithText(t, currentNode, item).Some? {
        InsertSegmentsThroughChild(t, currentNode, pathNodes, j, attrs, ChildWithText(t, currentNode, item).value);
      } else {
        InsertSegmentsThroughNewChild(t, currentNode, pathNodes, j, attrs);
      }
      currentNode := WalkSegment(rootNode, currentNode, item, item == Last(pathNodes), file);
      j := j + 1;
    }
  }

  /** One pass of the inner loop: reuse the first child of `currentNode`
      with text `item`, or add one, tagged with the file's flags when
      `tagIt`; the node walked to is returned. */
  method WalkSegment(rootNode: Tree, currentNode: nat, item: string, tagIt: bool, file: ChangedFile) returns (next: nat)
    requires WellFormed(rootNode.nodes) && currentNode < |rootNode.nodes|
    modifies rootNode
    ensures next < |rootNode.nodes|
    ensures match ChildWithText(old(rootNode.nodes), currentNode, item)
      case Some(c) => rootNode.nodes == old(rootNode.nodes) && next == c
      case None => rootNode.nodes == Grow(old(rootNode.nodes), currentNode, item, tagIt, AttributesOf(file))
                   && next == |old(rootNode.nodes)|
  {
    var foundedNode := rootNode.FindChild(currentNode, item);
    if foundedNode.Some? {
      next := foundedNode.value;
      assert next < |rootNode.nodes| by {
        var k :| 0 <= k < |rootNode.nodes[currentNode].children| && rootNode.nodes[currentNode].children[k] == next;
      }
    } else {
      ghost var before := rootNode.nodes;
      next := rootNode.Add(currentNode, item);
      if tagIt {
        rootNode.SetTag(next, FileAttributes(file.isNew, file.isStaged));
      }
      assert rootNode.nodes == Grow(before, currentNode, item, tagIt, AttributesOf(file));
    }
  }
}
