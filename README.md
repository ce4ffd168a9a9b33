# Git Stash extension for Visual Studio: stash details and git commands

This project models the core of the Visual Studio Git Stash extension in
Dafny:

- **Stash details view model** (`StashInfoChangesSectionViewModel`):
  - The constructor turns a stash's flat list of changed files into a tree.
    It splits each path on '/' and walks down from a root node. At each level
    it reuses the first child with the segment's text or appends a new child.
    It tags a new node with the file's flags when its segment equals the
    path's last one.
  - The tree is then projected into `TreeViewItemWithIcon` records, and the
    root's items become `ChangeItems`.
  - `RunDiff` saves the before/after or the untracked version of one file to
    temp files and opens them. It reports failures and exceptions, and always
    deletes the before and after temp files.
- **Git command executer** (`GitCommandExecuter`): runs git in the active
  repository. It maps the outcome to the `Try*` results, a success flag, an
  error message and a parsed payload.
- **Command templates** (`GitCommandConstants`): .NET composite format strings
  and the commands they render to.

## Layout

| file | module | contents |
|---|---|---|
| Wrappers.dfy | `Wrappers` | `Option` (a nullable value) and `Result` |
| Strings.dfy | `Strings` | the .NET string operations the code uses: `Trim`, `Split`, `Join`, `Int32.ToString`, `String.Format` |
| Models.dfy | `Models` | `ChangedFile`, `FileAttributes`, `TreeViewItemWithIcon` and `ContextMenuText` |
| TreeNodes.dfy | `TreeNodes` | the WinForms `TreeNode` graph as a node table, the `Tree` class the constructor mutates, and `GetTreeViewNodeFullPath` |
| ChangeTreeBuilder.dfy | `ChangeTreeBuilder` | the tree the constructor builds, as a function of the files (`BuildTree`), and its properties |
| TreeViewProjection.dfy | `TreeViewProjection` | `ToTreeViewItem` and `ChangeItems` as functions of the node table, and their properties |
| DiffOrchestration.dfy | `DiffOrchestration` | the sequence of host calls `RunDiff` makes (`DiffTrace`), and its properties |
| StashInfoChangesSectionViewModel.dfy | `StashInfoChangesSectionViewModel` | the view-model class: the constructor's loops, `ToTreeViewItem`, and `RunDiff` |
| GitCommandConstants.dfy | `GitCommandConstants` | the templates and the commands they format to |
| GitCommandExecuter.dfy | `GitCommandExecuter` | `Execute`/`ExecuteAsync` over a process oracle, and the `Try*` methods |

### How the model is built

**Nodes.** WinForms tree nodes are a table `seq<TreeNode>`:
- Node 0 is the root.
- Each node records its text, its optional tag, its parent's index and its children's indices in order.
- A new node always gets the next index, so a parent's index is below its children's.

**Loops against functions.** The constructor mutates a `Tree` object in place through `FindChild`, `Add` and `SetTag`. Its loop invariants tie the table to the function `BuildTree`. The recursive method `ToTreeViewItem` is proved equal to the function `ProjectItem`.

**`RunDiff` as a trace.** Each host call is an `Event` appended to the view model's `trace`. What the host answers comes in as a `DiffHost` value, namely:
- the temp file names;
- the outcome of each save: saved, not saved with a message, or throws;
- whether opening a file or the comparison window throws;
- the texts of the unexpected-error notification.

**Git processes.** The executer reaches git through a `GitHost` oracle, namely:
- the repository lookup;
- the git path;
- a function from the start info to how the process ends: an exit code with stdout and stderr, or an exception.

### Behaviour the model keeps as the code has it

- **Temp files.** `RunDiff` creates three temp files but deletes only the before and after ones. The untracked copy is never deleted.
- **Creating a stash.** `TryCreateStash` only ever issues "stash" or "stash save {message}". The include-untracked templates are declared but unused.
- **Synchronous `Execute`.** It returns both stdout and stderr whatever the exit code. Only `ExecuteAsync` looks at the exit code.
- **Tagging by segment.** A node is tagged when its segment equals the path's last segment. A folder with the file's name is therefore tagged too.
- **Existing nodes.** A node that already exists is never retagged, so a repeated path keeps the first file's flags.
- **Files.** An item is a file exactly when its node has no children, whatever its tag.
- **Full paths.** A node under a parent with empty text shows only its own text as its full path.
- **Unexpected-error text.** `RunDiff` notifies with `Constants.UnexpectedErrorMessage`. `Constants.cs` in this repository declares no such member, so the text is a host input (`DiffHost.unexpectedErrorMessage`).

## Model

All source paths are relative to the repository root, under `VisualStudio.GitStashExtension/VisualStudio.GitStashExtension/`.

| member | source | states |
|---|---|---|
| `Strings.BlankIffAllWhiteSpace` | VisualStudio.GitStashExtension/VisualStudio.GitStashExtension/VS.UI/StashInfoChangesSectionViewModel.cs:55 | `string.IsNullOrEmpty(path.Trim())` holds exactly when every character of the path is white space |
| `Strings.Split` | VisualStudio.GitStashExtension/VisualStudio.GitStashExtension/VS.UI/StashInfoChangesSectionViewModel.cs:61 | `Split('/')` yields at least one piece and no piece contains the separator |
| `Strings.JoinSplit` | VisualStudio.GitStashExtension/VisualStudio.GitStashExtension/VS.UI/StashInfoChangesSectionViewModel.cs:61 | joining the pieces of a split with the separator gives back the path |
| `Strings.SplitJoin` | VisualStudio.GitStashExtension/VisualStudio.GitStashExtension/VS.UI/StashInfoChangesSectionViewModel.cs:61 | splitting a join gives back the pieces when no piece holds the separator |
| `Strings.IntToStringRoundTrip` | VisualStudio.GitStashExtension/VisualStudio.GitStashExtension/GitHelpers/GitCommandExecuter.cs:54 | a stash id rendered into a command reads back as the same integer |
| `Strings.IntToStringInjective` | VisualStudio.GitStashExtension/VisualStudio.GitStashExtension/GitHelpers/GitCommandExecuter.cs:54 | distinct ids render as distinct texts |
| `Strings.FormatBracedItem` | VisualStudio.GitStashExtension/VisualStudio.GitStashExtension/GitHelpers/GitCommandConstants.cs:10 | "{{{0}}}" renders the argument between literal braces |
| `Strings.FormatItemOutOfRange` | VisualStudio.GitStashExtension/VisualStudio.GitStashExtension/GitHelpers/GitCommandExecuter.cs:128 | a format item whose index has no argument makes `String.Format` throw |
| `Strings.FormatConcat` | VisualStudio.GitStashExtension/VisualStudio.GitStashExtension/GitHelpers/GitCommandExecuter.cs:54 | formatting a template is formatting its parts one after the other |
| `Models.ExtensionOf` | VisualStudio.GitStashExtension/VisualStudio.GitStashExtension/VS.UI/StashInfoChangesSectionViewModel.cs:180-183 | the extension asked for a file icon is "." followed by the text after the name's last '.', or by the whole name when it has none |
| `Strings.SplitLastIsSuffix` | VisualStudio.GitStashExtension/VisualStudio.GitStashExtension/VS.UI/StashInfoChangesSectionViewModel.cs:180-181 | `Split('.').Last()` is the text after the last separator, or the whole string without one |
| `Models.TreeViewItemWithIcon.ContextMenuText` | VisualStudio.GitStashExtension/VisualStudio.GitStashExtension/Models/TreeViewItemWithIcon.cs:67 | "Open" exactly when `IsNew` is true; "Compare with previous" otherwise (false or null) |
| `Models.ContextMenuTextDependsOnlyOnIsNew` | VisualStudio.GitStashExtension/VisualStudio.GitStashExtension/Models/TreeViewItemWithIcon.cs:67 | two items with the same `IsNew` have the same header, whatever their other fields |
| `Models.UntaggedItemOffersComparison` | VisualStudio.GitStashExtension/VisualStudio.GitStashExtension/Models/TreeViewItemWithIcon.cs:57-67 | an item whose `IsNew` is null offers "Compare with previous" |
| `TreeNodes.FirstWithText` | VisualStudio.GitStashExtension/VisualStudio.GitStashExtension/VS.UI/StashInfoChangesSectionViewModel.cs:64 | `FirstOrDefault(x => x.Text == item)`: a child with that text that comes before every other such child, none exactly when no child has it |
| `TreeNodes.ChildWithText` | VisualStudio.GitStashExtension/VisualStudio.GitStashExtension/VS.UI/StashInfoChangesSectionViewModel.cs:64 | the child found is one of the node's children and has the text; none is found exactly when no child has it |
| `TreeNodes.ChildWithTextUnique` | VisualStudio.GitStashExtension/VisualStudio.GitStashExtension/VS.UI/StashInfoChangesSectionViewModel.cs:64-68 | with distinct siblings the lookup by a child's text finds that very child |
| `TreeNodes.WithChild` | VisualStudio.GitStashExtension/VisualStudio.GitStashExtension/VS.UI/StashInfoChangesSectionViewModel.cs:71 | `Nodes.Add(item)`: one new untagged, childless node, last among the parent's children; no other node changes |
| `TreeNodes.WithTag` | VisualStudio.GitStashExtension/VisualStudio.GitStashExtension/VS.UI/StashInfoChangesSectionViewModel.cs:76-80 | setting `Tag` changes that node's tag and nothing else |
| `TreeNodes.WithChildWellFormed` | VisualStudio.GitStashExtension/VisualStudio.GitStashExtension/VS.UI/StashInfoChangesSectionViewModel.cs:71 | adding a child keeps the parent/child links of the table consistent |
| `TreeNodes.WithChildKeepsSiblingsDistinct` | VisualStudio.GitStashExtension/VisualStudio.GitStashExtension/VS.UI/StashInfoChangesSectionViewModel.cs:64-71 | adding a child whose text no sibling has keeps sibling texts distinct |
| `TreeNodes.WithTagWellFormed` | VisualStudio.GitStashExtension/VisualStudio.GitStashExtension/VS.UI/StashInfoChangesSectionViewModel.cs:76-80 | tagging keeps the table consistent and sibling texts distinct |
| `TreeNodes.FullPathEndsWithText` | VisualStudio.GitStashExtension/VisualStudio.GitStashExtension/VS.UI/StashInfoChangesSectionViewModel.cs:211-222 | `GetTreeViewNodeFullPath`: a node's full path ends with its own text |
| `TreeNodes.Segments` | VisualStudio.GitStashExtension/VisualStudio.GitStashExtension/VS.UI/StashInfoChangesSectionViewModel.cs:211-222 | the texts from below the root down to a node: empty only for the root, ending with the node's text |
| `TreeNodes.FullPathJoinsSegments` | VisualStudio.GitStashExtension/VisualStudio.GitStashExtension/VS.UI/StashInfoChangesSectionViewModel.cs:211-222 | when no text on the way is empty, the full path is the node's segments joined with "/" |
| `TreeNodes.FullPathUnderEmptyParent` | VisualStudio.GitStashExtension/VisualStudio.GitStashExtension/VS.UI/StashInfoChangesSectionViewModel.cs:214-217 | under a parent with empty text (the root among them) the full path is just the node's text |
| `TreeNodes.Tree.constructor` | VisualStudio.GitStashExtension/VisualStudio.GitStashExtension/VS.UI/StashInfoChangesSectionViewModel.cs:51 | `new TreeNode()`: a lone root |
| `TreeNodes.Tree.FindChild` | VisualStudio.GitStashExtension/VisualStudio.GitStashExtension/VS.UI/StashInfoChangesSectionViewModel.cs:64 | the loop over the children returns what `ChildWithText` specifies |
| `TreeNodes.Tree.Add` | VisualStudio.GitStashExtension/VisualStudio.GitStashExtension/VS.UI/StashInfoChangesSectionViewModel.cs:71 | returns the new node, the table becomes `WithChild` of the old one |
| `TreeNodes.Tree.SetTag` | VisualStudio.GitStashExtension/VisualStudio.GitStashExtension/VS.UI/StashInfoChangesSectionViewModel.cs:76-80 | the table becomes `WithTag` of the old one |
| `ChangeTreeBuilder.Grow` | VisualStudio.GitStashExtension/VisualStudio.GitStashExtension/VS.UI/StashInfoChangesSectionViewModel.cs:69-81 | one new node, last child of the current node, tagged exactly when its segment equals the path's last; old nodes keep text, tag and parent, and sibling texts stay distinct when no sibling had that text |
| `ChangeTreeBuilder.InsertSegments` | VisualStudio.GitStashExtension/VisualStudio.GitStashExtension/VS.UI/StashInfoChangesSectionViewModel.cs:59-83 | the inner loop over a path's segments keeps the table consistent and never removes a node |
| `ChangeTreeBuilder.InsertFile` | VisualStudio.GitStashExtension/VisualStudio.GitStashExtension/VS.UI/StashInfoChangesSectionViewModel.cs:55-83 | one pass of the outer loop keeps the table consistent and never removes a node |
| `ChangeTreeBuilder.BuildTree` | VisualStudio.GitStashExtension/VisualStudio.GitStashExtension/VS.UI/StashInfoChangesSectionViewModel.cs:51-84 | the tree built from the files in order is a consistent table rooted at an empty-text node |
| `ChangeTreeBuilder.InsertSegmentsExtends` | VisualStudio.GitStashExtension/VisualStudio.GitStashExtension/VS.UI/StashInfoChangesSectionViewModel.cs:62-82 | walking a path only appends: old nodes keep text, tag and parent, and their children lists only grow at the end |
| `ChangeTreeBuilder.BuildTreeExtendsPrefix` | VisualStudio.GitStashExtension/VisualStudio.GitStashExtension/VS.UI/StashInfoChangesSectionViewModel.cs:53-84 | later files never retag, rename, move or reorder a node built for earlier ones: children keep first-encounter order |
| `ChangeTreeBuilder.BuildTreeSiblingsDistinct` | VisualStudio.GitStashExtension/VisualStudio.GitStashExtension/VS.UI/StashInfoChangesSectionViewModel.cs:61-71 | no two children of a node share a text |
| `ChangeTreeBuilder.NonBlank` | VisualStudio.GitStashExtension/VisualStudio.GitStashExtension/VS.UI/StashInfoChangesSectionViewModel.cs:55-58 | the files whose path is not blank, drawn from the input |
| `ChangeTreeBuilder.BlankFilesAddNothing` | VisualStudio.GitStashExtension/VisualStudio.GitStashExtension/VS.UI/StashInfoChangesSectionViewModel.cs:55-58 | files whose path is empty or white space add no node: the tree equals the one built from the other files |
| `ChangeTreeBuilder.NewNodesTaggedByLastSegment` | VisualStudio.GitStashExtension/VisualStudio.GitStashExtension/VS.UI/StashInfoChangesSectionViewModel.cs:71-81 | every node a walk creates is tagged with the file's flags exactly when its text equals the path's last segment (a same-named folder included), and untagged otherwise |
| `ChangeTreeBuilder.InsertSegmentsPresentPath` | VisualStudio.GitStashExtension/VisualStudio.GitStashExtension/VS.UI/StashInfoChangesSectionViewModel.cs:64-68 | walking a path that is already present changes nothing |
| `ChangeTreeBuilder.PathEndSegments` | VisualStudio.GitStashExtension/VisualStudio.GitStashExtension/VS.UI/StashInfoChangesSectionViewModel.cs:62-82 | the node a present path ends at has the walked segments appended to the start node's |
| `ChangeTreeBuilder.BuildTreeHasEveryFile` | VisualStudio.GitStashExtension/VisualStudio.GitStashExtension/VS.UI/StashInfoChangesSectionViewModel.cs:53-84 | every file with a non-blank path is reached from the root by its segments, at a node whose segments are exactly the path's |
| `ChangeTreeBuilder.BuildTreeFullPathOfFile` | VisualStudio.GitStashExtension/VisualStudio.GitStashExtension/VS.UI/StashInfoChangesSectionViewModel.cs:211-222 | a file whose path has no empty segment ends at a node whose full path is that path |
| `ChangeTreeBuilder.BuildTreeNodesOnFilePaths` | VisualStudio.GitStashExtension/VisualStudio.GitStashExtension/VS.UI/StashInfoChangesSectionViewModel.cs:53-84 | every node but the root lies on the path of some file with a non-blank path: no other node is made up |
| `ChangeTreeBuilder.DuplicatePathAddsNothing` | VisualStudio.GitStashExtension/VisualStudio.GitStashExtension/VS.UI/StashInfoChangesSectionViewModel.cs:64-81 | a file whose path is already present leaves the tree unchanged, so the first file's flags stay |
| `ChangeTreeBuilder.InsertFileTagsItsNode` | VisualStudio.GitStashExtension/VisualStudio.GitStashExtension/VS.UI/StashInfoChangesSectionViewModel.cs:64-81 | the node a file ends at carries the file's own `IsNew` and `IsStaged` when the file created it, and keeps its earlier tag (possibly none) when it already existed |
| `TreeViewProjection.ChildItems` | VisualStudio.GitStashExtension/VisualStudio.GitStashExtension/VS.UI/StashInfoChangesSectionViewModel.cs:199-207 | one item per child of the node, in the children's order (`ItemsAt` states what each item is) |
| `TreeViewProjection.ChangeItemsLength` | VisualStudio.GitStashExtension/VisualStudio.GitStashExtension/VS.UI/StashInfoChangesSectionViewModel.cs:86-87 | `ChangeItems` has one item per child of the root |
| `TreeViewProjection.ItemsAt` | VisualStudio.GitStashExtension/VisualStudio.GitStashExtension/VS.UI/StashInfoChangesSectionViewModel.cs:199-207 | a node with children gets non-null `Items`, one per child, in the children's order |
| `TreeViewProjection.ChildItemIsFileIffLeaf` | VisualStudio.GitStashExtension/VisualStudio.GitStashExtension/VS.UI/StashInfoChangesSectionViewModel.cs:188-206 | below the root an item is a file exactly when its `Items` is null, exactly when its node has no children, and `IsExpanded == !IsFile`; a file item asks for the icon of its name's extension (as `ExtensionOf` pins it), a folder item for the open folder icon |
| `TreeViewProjection.ItemFlagsFollowTag` | VisualStudio.GitStashExtension/VisualStudio.GitStashExtension/VS.UI/StashInfoChangesSectionViewModel.cs:186-197 | `IsNew`/`IsStaged` are null exactly on untagged nodes and the tag's flags otherwise; the menu offers "Open" exactly for a node tagged new |
| `TreeViewProjection.ChangeItemsAreTopLevel` | VisualStudio.GitStashExtension/VisualStudio.GitStashExtension/VS.UI/StashInfoChangesSectionViewModel.cs:86-87 | `ChangeItems` lists the projections of the root's children in order, each with `FullPath == Text` |
| `TreeViewProjection.NoChangesNoItems` | VisualStudio.GitStashExtension/VisualStudio.GitStashExtension/VS.UI/StashInfoChangesSectionViewModel.cs:87 | a lone root gives an empty, not null, `ChangeItems` |
| `DiffOrchestration.TryBlockEvents` | VisualStudio.GitStashExtension/VisualStudio.GitStashExtension/VS.UI/StashInfoChangesSectionViewModel.cs:113-158 | the `try` block makes at most three calls, all saves, opens or notifications; a notification is its last call and there is none when it throws |
| `DiffOrchestration.TempFilesCreatedAndDeleted` | VisualStudio.GitStashExtension/VisualStudio.GitStashExtension/VS.UI/StashInfoChangesSectionViewModel.cs:109-169 | on every path the three temp files are created first and the before and after ones deleted last; nothing else is deleted, the untracked copy included |
| `DiffOrchestration.NewFileDiff` | VisualStudio.GitStashExtension/VisualStudio.GitStashExtension/VS.UI/StashInfoChangesSectionViewModel.cs:115-142 | a new file gets exactly one save, of the untracked version with `isStaged` passed on; the copy is opened exactly when it was saved, a failed save's message is the only notification, and no comparison opens |
| `DiffOrchestration.TrackedFileDiff` | VisualStudio.GitStashExtension/VisualStudio.GitStashExtension/VS.UI/StashInfoChangesSectionViewModel.cs:145-157 | the before version is saved first and the after version only when that succeeded; the comparison opens exactly when both succeeded, with the before copy on the left and the after copy on the right; no single file is opened; a save that fails without throwing has its error as the one notification, and nothing is notified when the comparison opens without throwing |
| `DiffOrchestration.FailuresNotifyOnce` | VisualStudio.GitStashExtension/VisualStudio.GitStashExtension/VS.UI/StashInfoChangesSectionViewModel.cs:160-164 | at most one notification, none without a Team Explorer; the exception is logged exactly when the `try` block throws (a null stash included), and the notification then points at the log (with `ShowNotification` itself taken never to throw, see "## Left out") |
| `DiffOrchestration.LoggedIffThrew` | VisualStudio.GitStashExtension/VisualStudio.GitStashExtension/VS.UI/StashInfoChangesSectionViewModel.cs:160-162 | `Log.LogException` is called exactly when the `try` block throws |
| `StashInfoChangesSectionViewModel.StashInfoChangesSectionViewModel.constructor` | VisualStudio.GitStashExtension/VisualStudio.GitStashExtension/VS.UI/StashInfoChangesSectionViewModel.cs:33-88 | without a stash `ChangeItems` stays null; otherwise the nested loops build `BuildTree` of the changed files and `ChangeItems` holds its projection |
| `StashInfoChangesSectionViewModel.BuildRoot` | VisualStudio.GitStashExtension/VisualStudio.GitStashExtension/VS.UI/StashInfoChangesSectionViewModel.cs:51-84 | the outer loop over the changed files leaves a fresh tree equal to `BuildTree` of the files |
| `StashInfoChangesSectionViewModel.AddChangedFile` | VisualStudio.GitStashExtension/VisualStudio.GitStashExtension/VS.UI/StashInfoChangesSectionViewModel.cs:55-83 | one pass of the outer loop turns the tree into `InsertFile` of it |
| `StashInfoChangesSectionViewModel.WalkSegment` | VisualStudio.GitStashExtension/VisualStudio.GitStashExtension/VS.UI/StashInfoChangesSectionViewModel.cs:64-81 | one pass of the inner loop: the first child with the segment's text is reused and the tree is unchanged; otherwise the tree becomes `Grow` of it and the walk goes on from the new last node |
| `StashInfoChangesSectionViewModel.StashInfoChangesSectionViewModel.ToTreeViewItem` | VisualStudio.GitStashExtension/VisualStudio.GitStashExtension/VS.UI/StashInfoChangesSectionViewModel.cs:178-209 | the recursive method returns `ProjectItem` of the node |
| `StashInfoChangesSectionViewModel.StashInfoChangesSectionViewModel.ChildTreeViewItems` | VisualStudio.GitStashExtension/VisualStudio.GitStashExtension/VS.UI/StashInfoChangesSectionViewModel.cs:199-207 | the loop over the children leaves `Items` null for a node without children and otherwise holds `ChildItems` of the node |
| `StashInfoChangesSectionViewModel.StashInfoChangesSectionViewModel.ShowNotification` | VisualStudio.GitStashExtension/VisualStudio.GitStashExtension/VS.UI/StashInfoChangesSectionViewModel.cs:121 | with a Team Explorer appends exactly one notification of the message; without one the trace is unchanged; `ChangeItems` stays |
| `StashInfoChangesSectionViewModel.StashInfoChangesSectionViewModel.RunDiff` | VisualStudio.GitStashExtension/VisualStudio.GitStashExtension/VS.UI/StashInfoChangesSectionViewModel.cs:107-170 | appends exactly `DiffTrace` to the calls made so far and leaves `ChangeItems` alone; with no stash, reading `_stash.Id` throws before any save (`DiffTrace` of `None`), which `LoggedIffThrew` and `FailuresNotifyOnce` then cover |
| `StashInfoChangesSectionViewModel.StashInfoChangesSectionViewModel.DiffNewFile` | VisualStudio.GitStashExtension/VisualStudio.GitStashExtension/VS.UI/StashInfoChangesSectionViewModel.cs:115-142 | the new-file branch makes the calls of `NewFileTry` and throws exactly when it says |
| `StashInfoChangesSectionViewModel.StashInfoChangesSectionViewModel.DiffTrackedFile` | VisualStudio.GitStashExtension/VisualStudio.GitStashExtension/VS.UI/StashInfoChangesSectionViewModel.cs:145-157 | the tracked-file branch makes the calls of `TrackedFileTry` and throws exactly when it says |
| `GitCommandConstants.BareCommandsTakeNoArguments` | VisualStudio.GitStashExtension/VisualStudio.GitStashExtension/GitHelpers/GitCommandConstants.cs:8-14 | "stash list", "stash" and "stash --include-untracked" format to themselves |
| `GitCommandConstants.ApplyCommand` | VisualStudio.GitStashExtension/VisualStudio.GitStashExtension/GitHelpers/GitCommandConstants.cs:10 | formatting the apply template with id N succeeds, with "stash apply stash@{N}" |
| `GitCommandConstants.SaveCommand` | VisualStudio.GitStashExtension/VisualStudio.GitStashExtension/GitHelpers/GitCommandConstants.cs:16 | formatting the save template with a message succeeds, with "stash save " and the message verbatim |
| `GitCommandConstants.SaveIncludeUntrackedCommand` | VisualStudio.GitStashExtension/VisualStudio.GitStashExtension/GitHelpers/GitCommandConstants.cs:18 | formatting the include-untracked save template succeeds, with the message verbatim at the end |
| `GitCommandConstants.DropCommand` | VisualStudio.GitStashExtension/VisualStudio.GitStashExtension/GitHelpers/GitCommandConstants.cs:20 | formatting the drop template with id N succeeds, with "stash drop stash@{N}" |
| `GitCommandConstants.InfoCommand` | VisualStudio.GitStashExtension/VisualStudio.GitStashExtension/GitHelpers/GitCommandConstants.cs:22 | formatting the show template with id N succeeds, naming "stash@{N}" with `--name-only` |
| `GitCommandConstants.UntrackedInfoCommand` | VisualStudio.GitStashExtension/VisualStudio.GitStashExtension/GitHelpers/GitCommandConstants.cs:24 | the untracked listing addresses "stash@{N}^^3" |
| `GitCommandConstants.CatFileUntrackedCommand` | VisualStudio.GitStashExtension/VisualStudio.GitStashExtension/GitHelpers/GitCommandConstants.cs:26 | the cat-file probe addresses "stash@{N}^^3" |
| `GitCommandConstants.FileDiffCommand` | VisualStudio.GitStashExtension/VisualStudio.GitStashExtension/GitHelpers/GitCommandConstants.cs:28 | formatting the diff template with its three arguments succeeds; both revisions name stash N, the first with "^^" |
| `GitCommandConstants.AfterVersionCommand` | VisualStudio.GitStashExtension/VisualStudio.GitStashExtension/GitHelpers/GitCommandConstants.cs:30 | the after dump shows "stash@{N}" with the quoted path, redirected to the destination |
| `GitCommandConstants.BeforeVersionCommand` | VisualStudio.GitStashExtension/VisualStudio.GitStashExtension/GitHelpers/GitCommandConstants.cs:32 | the before dump shows "stash@{N}^^" with the quoted path, redirected to the destination |
| `GitCommandConstants.FileDiffWithTwoArgumentsThrows` | VisualStudio.GitStashExtension/VisualStudio.GitStashExtension/GitHelpers/GitCommandExecuter.cs:128 | the diff template formatted with only an id and a path throws for every id and path |
| `GitCommandConstants.ApplyCommandInjective` | VisualStudio.GitStashExtension/VisualStudio.GitStashExtension/GitHelpers/GitCommandConstants.cs:10 | distinct ids give distinct apply commands |
| `GitCommandConstants.DropCommandInjective` | VisualStudio.GitStashExtension/VisualStudio.GitStashExtension/GitHelpers/GitCommandConstants.cs:20 | distinct ids give distinct drop commands: a drop never names another stash |
| `GitCommandConstants.BeforeAndAfterDumpsDiffer` | VisualStudio.GitStashExtension/VisualStudio.GitStashExtension/GitHelpers/GitCommandConstants.cs:30-32 | for the same id, path and destination the before and after dumps are different commands |
| `GitCommandExecuter.NoRepositoryStartsNothing` | VisualStudio.GitStashExtension/VisualStudio.GitStashExtension/GitHelpers/GitCommandExecuter.cs:139-141 | without an active repository no process starts and both paths report "Select repository to find stashes." |
| `GitCommandExecuter.ExceptionsBecomeUnexpectedError` | VisualStudio.GitStashExtension/VisualStudio.GitStashExtension/GitHelpers/GitCommandExecuter.cs:168-171 | a failed lookup, git path or process start gives "Unexpected error." on both paths |
| `GitCommandExecuter.MessagesSet` | VisualStudio.GitStashExtension/VisualStudio.GitStashExtension/GitHelpers/GitCommandExecuter.cs:159-165 | the async path sets exactly one message; the sync path always sets the error message and sets the output exactly when the process ran |
| `GitCommandExecuter.SyncAndAsyncAgree` | VisualStudio.GitStashExtension/VisualStudio.GitStashExtension/GitHelpers/GitCommandExecuter.cs:204-219 | the paths agree except on an exited process, where the async one keeps stderr alone on a non-zero code and stdout alone on zero |
| `GitCommandExecuter.CreateCommand` | VisualStudio.GitStashExtension/VisualStudio.GitStashExtension/GitHelpers/GitCommandExecuter.cs:69-71 | "stash" for a null or empty message, otherwise the save template formatted with the message |
| `GitCommandExecuter.CreateCommandKeepsMessage` | VisualStudio.GitStashExtension/VisualStudio.GitStashExtension/GitHelpers/GitCommandExecuter.cs:69-71 | a non-empty message reaches git verbatim after "stash save " |
| `GitCommandExecuter.GitCommandExecuter.constructor` | VisualStudio.GitStashExtension/VisualStudio.GitStashExtension/GitHelpers/GitCommandExecuter.cs:19-23 | the executer keeps its host |
| `GitCommandExecuter.GitCommandExecuter.Execute` | VisualStudio.GitStashExtension/VisualStudio.GitStashExtension/GitHelpers/GitCommandExecuter.cs:135-172 | returns `ExecuteResult`; a process is started exactly when a repository is active and the git path is known, and it is git at that path with the command as its arguments, in the repository's directory |
| `GitCommandExecuter.GitCommandExecuter.ExecuteAsync` | VisualStudio.GitStashExtension/VisualStudio.GitStashExtension/GitHelpers/GitCommandExecuter.cs:175-231 | completes with `ExecuteAsyncResult` and starts exactly the process `Launch` describes |
| `GitCommandExecuter.GitCommandExecuter.TryGetAllStashes` | VisualStudio.GitStashExtension/VisualStudio.GitStashExtension/GitHelpers/GitCommandExecuter.cs:31-44 | on error: false, no stashes and the result's error; otherwise true, the parsed output and an empty error |
| `GitCommandExecuter.GitCommandExecuter.TryApplyStash` | VisualStudio.GitStashExtension/VisualStudio.GitStashExtension/GitHelpers/GitCommandExecuter.cs:52-58 | runs the apply command for the id; success is `!IsError` and the error passes through verbatim |
| `GitCommandExecuter.GitCommandExecuter.TryCreateStash` | VisualStudio.GitStashExtension/VisualStudio.GitStashExtension/GitHelpers/GitCommandExecuter.cs:67-77 | runs `CreateCommand` of the message; success is `!IsError` and the error passes through verbatim |
| `GitCommandExecuter.GitCommandExecuter.TryDeleteStash` | VisualStudio.GitStashExtension/VisualStudio.GitStashExtension/GitHelpers/GitCommandExecuter.cs:85-92 | runs the drop command for the id; success is `!IsError` and the error passes through verbatim |
| `GitCommandExecuter.GitCommandExecuter.TryGetStashInfo` | VisualStudio.GitStashExtension/VisualStudio.GitStashExtension/GitHelpers/GitCommandExecuter.cs:102-118 | on error: false, no stash and the result's error; otherwise true, the parsed output and an empty error |
| `GitCommandExecuter.GitCommandExecuter.TryRunFileDiff` | VisualStudio.GitStashExtension/VisualStudio.GitStashExtension/GitHelpers/GitCommandExecuter.cs:126-133 | as written, formatting the command fails for every id and path, before any process starts |
| `GitCommandExecuter.GitCommandExecuter.TryRunFileDiffCorrected` | VisualStudio.GitStashExtension/VisualStudio.GitStashExtension/GitHelpers/GitCommandExecuter.cs:126-133 | with the diff tool as first argument, the formatted command reaches `ExecuteAsync` unchanged |

## Left out

- Processes, streams, tasks and events: starting git, draining its streams with `Task.Run`, waiting for exit, and the `Exited` handler with its `TaskCompletionSource`. These are replaced by the `GitHost.run` oracle, which returns the exit code and the whole of both streams, or an exception.
- `GitCommandExecuter.GitCommandExecuter.ExecuteAsync`: models the value the returned task completes with, not when it completes. A process that never exits, or an exception inside the `Exited` handler, leaves the task pending in the code and is not modelled.
- `GitCommandExecuter.Launch`: the fixed `ProcessStartInfo` flags (no window, redirected streams, no shell execute) are left out, because they are the same for every command.
- `GitResultParser`, `GitPathHelper` and `GitCommandResult.IsError` are not part of this model. The parsers and `IsError` are parameters of the methods that use them, and the git path is an input that may be missing when the helper throws.
- `TrySaveFileUntrackedStashVersion`, `TrySaveFileBeforeStashVersion` and `TrySaveFileAfterStashVersion` are not part of this model: `GitCommandExecuter.cs` does not define them. Their outcomes are inputs (`SaveOutcome` in `DiffHost`).
- `FileIconsService` is not part of this model. An icon is only the request made to it (`Icon`): a file's extension or the open folder.
- Host side effects (temp files, `OpenFile`, `OpenComparisonWindow2`, `ShowNotification`, `Log.LogException`) are recorded as trace events only. The model does not cover these calls throwing inside the `catch` or `finally` blocks, nor `ShowNotification` throwing inside the `try` (StashInfoChangesSectionViewModel.cs:121, 134, 147, 153), nor `GetTempFileName` throwing before the `try`.
- `DiffOrchestration.FailuresNotifyOnce`: "at most one notification" rests on the notifications inside the `try` never throwing. In the source such a throw is caught, logged and followed by a second notification attempt, which the model does not capture.
- A null `_dte` or `_vsDiffService` is covered only as the open or the comparison throwing (`openFileThrows`, `comparisonThrows`).
- `INotifyPropertyChanged`, the `ChangeItems` setter's change notification and `ObservableCollection` are left out. `ChangeItems` is a sequence.
- `Stash` fields other than `Id` and `ChangedFiles` are left out: the view model reads nothing else.
- Null strings are not modelled where the code would throw on them, such as a null `ChangedFile.Path` at `Trim()`. They are modelled (as `Option`) where the code tests for null, as with the message of `TryCreateStash`.
- `Char.IsWhiteSpace` covers the Unicode space separators, the line and paragraph separators and the ASCII and Latin-1 control blanks. No other Unicode handling is modelled.

## Findings

| source | as written | input that shows it | evidently intended | confidence | as-written member | corrected member |
|---|---|---|---|---|---|---|
| VisualStudio.GitStashExtension/VisualStudio.GitStashExtension/GitHelpers/GitCommandExecuter.cs:128 | `string.Format(StashFileDiffFormatted, id, filePath)` passes two arguments to a template that uses items {0}, {1} and {2} (GitCommandConstants.cs:28) | any id and path, e.g. id 0 and path "a.txt": item {2} has no argument, so `String.Format` throws `FormatException` and no diff runs | format the template with the diff tool as {0}, the id as {1} and the path as {2}, and hand the command to `ExecuteAsync` | not executed | `GitCommandExecuter.GitCommandExecuter.TryRunFileDiff` (with `GitCommandConstants.FileDiffWithTwoArgumentsThrows`) | `GitCommandExecuter.GitCommandExecuter.TryRunFileDiffCorrected` (with `GitCommandConstants.FileDiffCommand`) |
