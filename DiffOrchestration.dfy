/**
 * What `RunDiff` does, as the sequence of host calls it makes. The temp
 * files, the executer's `TrySaveFile*Version` calls, the file and diff
 * windows, notifications and the log are the host's; each call is an
 * event, and what the host answers is an input (`DiffHost`).
 */
module DiffOrchestration {
  import opened Wrappers

  /** What one `TrySaveFile*Version` call does: saves the version, reports
      that it could not (with its error message), or throws. */
  datatype SaveOutcome = Saved | NotSaved(error: string) | SaveThrows

  /** The host's side of one `RunDiff`: the names `GetTempFileName` returns
      (before, after, untracked), what each save does, whether opening the
      untracked copy or the comparison window throws, and the parts of the
      unexpected-error notification (`Constants.UnexpectedErrorMessage`,
      `Environment.NewLine`, the log file path). */
  datatype DiffHost = DiffHost(
    beforeTemp: string,
    afterTemp: string,
    untrackedTemp: string,
    untrackedSave: SaveOutcome,
    beforeSave: SaveOutcome,
    afterSave: SaveOutcome,
    openFileThrows: bool,
    comparisonThrows: bool,
    unexpectedErrorMessage: string,
    newLine: string,
    logFilePath: string)

  /** One call `RunDiff` makes to the host. */
  datatype Event =
    | CreateTempFile(path: string)
    | SaveUntracked(stashId: int, filePath: string, destination: string, isStaged: bool)
    | SaveBefore(stashId: int, filePath: string, destination: string)
    | SaveAfter(stashId: int, filePath: string, destination: string)
    | OpenFile(path: string)
    | OpenComparison(leftFile: string, rightFile: string, caption: string, tooltip: string,
                     leftLabel: string, rightLabel: string, inlineLabel: string, roles: string, options: int)
    | Notify(message: string)
    | LogException
    | DeleteFile(path: string)

  /** `_teamExplorer?.ShowNotification(message)`: nothing without a Team
      Explorer. */
  function NotifyIf(hasTeamExplorer: bool, message: string): (events: seq<Event>)
    ensures hasTeamExplorer ==> events == [Notify(message)]
    ensures !hasTeamExplorer ==> events == []
  {
    if hasTeamExplorer then [Notify(message)] else []
  }

  /** The comparison window for `fileName`: the before copy on the left,
      the after copy on the right. */
  function Comparison(host: DiffHost, fileName: string): (e: Event)
    ensures e.OpenComparison? && e.leftFile == host.beforeTemp && e.rightFile == host.afterTemp
  {
    OpenComparison(host.beforeTemp, host.afterTemp, fileName + " stash diff", "Stash diff",
      fileName + " before stash", fileName + " after stash", "Stash file content", "", 0)
  }

  /** The notification shown for an exception. */
  function UnexpectedNotification(host: DiffHost): string {
    host.unexpectedErrorMessage + host.newLine + "Find error info in " + host.logFilePath
  }

  /** How the `try` block ends: the calls it made, and whether it threw. */
  datatype TryOutcome = TryOutcome(events: seq<Event>, threw: bool)

  /** The `try` block for a file added in the stash: save the untracked
      version, then open it or notify the save's error. */
  function NewFileTry(id: int, hasTeamExplorer: bool, filePath: string, isStaged: bool, host: DiffHost): (r: TryOutcome)
  {
    var save := SaveUntracked(id, filePath, host.untrackedTemp, isStaged);
    match host.untrackedSave
    case SaveThrows => TryOutcome([save], true)
    case NotSaved(error) => TryOutcome([save] + NotifyIf(hasTeamExplorer, error), false)
    case Saved => TryOutcome([save, OpenFile(host.untrackedTemp)], host.openFileThrows)
  }

  /** The `try` block for a tracked file: save the before version, then the
      after version, then compare them, notifying the first save error. */
  function TrackedFileTry(id: int, hasTeamExplorer: bool, filePath: string, fileName: string, host: DiffHost): (r: TryOutcome)
  {
    var before := SaveBefore(id, filePath, host.beforeTemp);
    var after := SaveAfter(id, filePath, host.afterTemp);
    match host.beforeSave
    case SaveThrows => TryOutcome([before], true)
    case NotSaved(error) => TryOutcome([before] + NotifyIf(hasTeamExplorer, error), false)
    case Saved =>
      match host.afterSave
      case SaveThrows => TryOutcome([before, after], true)
      case NotSaved(error) => TryOutcome([before, after] + NotifyIf(hasTeamExplorer, error), false)
      case Saved => TryOutcome([before, after, Comparison(host, fileName)], host.comparisonThrows)
  }

  /** The whole `try` block. `stashId` is `None` when the view model has no
      stash: reading `_stash.Id` then throws before any call is made. */
  function TryBlock(stashId: Option<int>, hasTeamExplorer: bool, filePath: string, fileName: string,
                    isNew: bool, isStaged: bool, host: DiffHost): (r: TryOutcome)
  {
    if stashId.None? then TryOutcome([], true)
    else if isNew then NewFileTry(stashId.value, hasTeamExplorer, filePath, isStaged, host)
    else TrackedFileTry(stashId.value, hasTeamExplorer, filePath, fileName, host)
  }

  function Created(host: DiffHost): seq<Event> {
    [CreateTempFile(host.beforeTemp), CreateTempFile(host.afterTemp), CreateTempFile(host.untrackedTemp)]
  }

  /** The `catch` block: log the exception, then notify. */
  function Caught(threw: bool, hasTeamExplorer: bool, host: DiffHost): seq<Event> {
    if threw then [LogException] + NotifyIf(hasTeamExplorer, UnexpectedNotification(host)) else []
  }

  /** The `finally` block: only the before and after temp files are deleted. */
  function Deleted(host: DiffHost): seq<Event> {
    [DeleteFile(host.beforeTemp), DeleteFile(host.afterTemp)]
  }

  /** All of `RunDiff`: three temp files are created, the `try` block runs,
      an exception is logged and notified, and the `finally` block deletes
      the before and after temp files. */
  function DiffTrace(stashId: Option<int>, hasTeamExplorer: bool, filePath: string, fileName: string,
                     isNew: bool, isStaged: bool, host: DiffHost): (trace: seq<Event>)
  {
    var body := TryBlock(stashId, hasTeamExplorer, filePath, fileName, isNew, isStaged, host);
    Created(host) + body.events + Caught(body.threw, hasTeamExplorer, host) + Deleted(host)
  }

  // ---------------------------------------------------------------------
  // Views of a trace
  // ---------------------------------------------------------------------

  predicate IsSave(e: Event) {
    e.SaveUntracked? || e.SaveBefore? || e.SaveAfter?
  }

  /** The save calls of a trace, in order. */
  function Saves(trace: seq<Event>): (saves: seq<Event>)
    ensures forall k :: 0 <= k < |saves| ==> IsSave(saves[k])
    decreases |trace|
  {
    if trace == [] then []
    else
      Saves(trace[..|trace| - 1]) + (if IsSave(trace[|trace| - 1]) then [trace[|trace| - 1]] else [])
  }

  /** The messages notified in a trace, in order. */
  function Notifications(trace: seq<Event>): (messages: seq<string>)
    decreases |trace|
  {
    if trace == [] then []
    else
      var e := trace[|trace| - 1];
      Notifications(trace[..|trace| - 1]) + (if e.Notify? then [e.message] else [])
  }

  lemma {:induction false} SavesConcat(a: seq<Event>, b: seq<Event>)
    ensures Saves(a + b) == Saves(a) + Saves(b)
    decreases |b|
  {
    if b == [] {
      assert a + b == a;
    } else {
      var ab := a + b;
      assert ab[..|ab| - 1] == a + b[..|b| - 1];
      SavesConcat(a, b[..|b| - 1]);
    }
  }

  lemma {:induction false} NotificationsConcat(a: seq<Event>, b: seq<Event>)
    ensures Notifications(a + b) == Notifications(a) + Notifications(b)
    decreases |b|
  {
    if b == [] {
      assert a + b == a;
    } else {
      var ab := a + b;
      assert ab[..|ab| - 1] == a + b[..|b| - 1];
      NotificationsConcat(a, b[..|b| - 1]);
    }
  }

  /** A trace without save calls has no saves. */
  lemma {:induction false} NoSaves(trace: seq<Event>)
    requires forall k :: 0 <= k < |trace| ==> !IsSave(trace[k])
    ensures Saves(trace) == []
    decreases |trace|
  {
    if trace != [] {
      NoSaves(trace[..|trace| - 1]);
    }
  }

  /** A trace without notifications notifies nothing. */
  lemma {:induction false} NoNotifications(trace: seq<Event>)
    requires forall k :: 0 <= k < |trace| ==> !trace[k].Notify?
    ensures Notifications(trace) == []
    decreases |trace|
  {
    if trace != [] {
      NoNotifications(trace[..|trace| - 1]);
    }
  }

  lemma OneNotification(message: string)
    ensures Notifications([Notify(message)]) == [message]
  {
    assert [Notify(message)][..0] == [];
  }

  /** Saves and notifications of a trace in four parts, the first and last
      of which make neither and the third no save. */
  lemma {:induction false} FourParts(a: seq<Event>, b: seq<Event>, c: seq<Event>, d: seq<Event>)
    requires forall k :: 0 <= k < |a| ==> !IsSave(a[k]) && !a[k].Notify?
    requires forall k :: 0 <= k < |c| ==> !IsSave(c[k])
    requires forall k :: 0 <= k < |d| ==> !IsSave(d[k]) && !d[k].Notify?
    ensures Saves(a + b + c + d) == Saves(b)
    ensures Notifications(a + b + c + d) == Notifications(b) + Notifications(c)
  {
    SavesConcat(a, b);
    SavesConcat(a + b, c);
    SavesConcat(a + b + c, d);
    NotificationsConcat(a, b);
    NotificationsConcat(a + b, c);
    NotificationsConcat(a + b + c, d);
    NoSaves(a);
    NoSaves(c);
    NoSaves(d);
    NoNotifications(a);
    NoNotifications(d);
  }

  /** The saves and notifications of a trace are those of its `try` and
      `catch` blocks. */
  lemma DiffTraceParts(stashId: Option<int>, hasTeamExplorer: bool, filePath: string, fileName: string,
                       isNew: bool, isStaged: bool, host: DiffHost)
    ensures var body := TryBlock(stashId, hasTeamExplorer, filePath, fileName, isNew, isStaged, host);
      var trace := DiffTrace(stashId, hasTeamExplorer, filePath, fileName, isNew, isStaged, host);
      && Saves(trace) == Saves(body.events)
      && Notifications(trace) == Notifications(body.events) + Notifications(Caught(body.threw, hasTeamExplorer, host))
  {
    var body := TryBlock(stashId, hasTeamExplorer, filePath, fileName, isNew, isStaged, host);
    FourParts(Created(host), body.events, Caught(body.threw, hasTeamExplorer, host), Deleted(host));
  }

  /** The events a `try` block can make, at most three of them. */
  predicate InTry(e: Event) {
    IsSave(e) || e.OpenFile? || e.OpenComparison? || e.Notify?
  }

  lemma TryBlockEvents(stashId: Option<int>, hasTeamExplorer: bool, filePath: string, fileName: string,
                       isNew: bool, isStaged: bool, host: DiffHost)
    ensures var body := TryBlock(stashId, hasTeamExplorer, filePath, fileName, isNew, isStaged, host);
      && |body.events| <= 3
      && (forall k :: 0 <= k < |body.events| ==> InTry(body.events[k]))
      && (forall k :: 0 <= k < |body.events| - 1 ==> !body.events[k].Notify?)
      && (body.threw || !hasTeamExplorer ==> forall k :: 0 <= k < |body.events| ==> !body.events[k].Notify?)
  { }

  /** A trace whose only possible notification is its last event notifies
      at most once. */
  lemma NotifiesAtMostOnce(s: seq<Event>)
    requires forall k :: 0 <= k < |s| - 1 ==> !s[k].Notify?
    ensures |Notifications(s)| <= 1
  {
    if s != [] {
      var k := |s| - 1;
      assert s == s[..k] + [s[k]];
      NotificationsConcat(s[..k], [s[k]]);
      NoNotifications(s[..k]);
      assert [s[k]][..0] == [];
    }
  }

  lemma CaughtNotifications(threw: bool, hasTeamExplorer: bool, host: DiffHost)
    ensures Notifications(Caught(threw, hasTeamExplorer, host))
         == (if threw && hasTeamExplorer then [UnexpectedNotification(host)] else [])
    ensures LogException in Caught(threw, hasTeamExplorer, host) <==> threw
  {
    if threw {
      NotificationsConcat([LogException], NotifyIf(hasTeamExplorer, UnexpectedNotification(host)));
      NoNotifications([LogException]);
      if hasTeamExplorer {
        OneNotification(UnexpectedNotification(host));
      }
    }
  }

  /** Files and windows are opened only inside the `try` block. */
  lemma OpensOnlyInTry(stashId: Option<int>, hasTeamExplorer: bool, filePath: string, fileName: string,
                       isNew: bool, isStaged: bool, host: DiffHost)
    ensures var body := TryBlock(stashId, hasTeamExplorer, filePath, fileName, isNew, isStaged, host);
      var trace := DiffTrace(stashId, hasTeamExplorer, filePath, fileName, isNew, isStaged, host);
      forall e | e in trace && (e.OpenFile? || e.OpenComparison?) :: e in body.events
  {
    var body := TryBlock(stashId, hasTeamExplorer, filePath, fileName, isNew, isStaged, host);
    var caught := Caught(body.threw, hasTeamExplorer, host);
    forall e | e in Created(host) + body.events + caught + Deleted(host) && (e.OpenFile? || e.OpenComparison?)
      ensures e in body.events
    {
      assert e !in Created(host) && e !in caught && e !in Deleted(host);
    }
  }

  // ---------------------------------------------------------------------
  // Properties
  // ---------------------------------------------------------------------

  /** The trace always starts by creating the three temp files and always
      ends by deleting the before and after ones; no other file is deleted,
      so the untracked copy is left behind. */
  lemma TempFilesCreatedAndDeleted(stashId: Option<int>, hasTeamExplorer: bool, filePath: string, fileName: string,
                                   isNew: bool, isStaged: bool, host: DiffHost)
    ensures var trace := DiffTrace(stashId, hasTeamExplorer, filePath, fileName, isNew, isStaged, host);
      && |trace| >= 5
      && trace[..3] == [CreateTempFile(host.beforeTemp), CreateTempFile(host.afterTemp), CreateTempFile(host.untrackedTemp)]
      && trace[|trace| - 2..] == [DeleteFile(host.beforeTemp), DeleteFile(host.afterTemp)]
      && (forall k :: 0 <= k < |trace| - 2 ==> !trace[k].DeleteFile?)
  {
    var body := TryBlock(stashId, hasTeamExplorer, filePath, fileName, isNew, isStaged, host);
    var caught := Caught(body.threw, hasTeamExplorer, host);
    TryBlockEvents(stashId, hasTeamExplorer, filePath, fileName, isNew, isStaged, host);
    var front := Created(host) + body.events + caught;
    assert forall k :: 0 <= k < |front| ==> !front[k].DeleteFile? by {
      forall k | 0 <= k < |front| ensures !front[k].DeleteFile? {
        if k >= 3 + |body.events| {
          assert front[k] == caught[k - 3 - |body.events|];
        } else if k >= 3 {
          assert front[k] == body.events[k - 3];
          assert InTry(body.events[k - 3]);
        }
      }
    }
  }

  /** A new file is saved once, from the untracked part of the stash with
      `isStaged` passed on; on success the copy is opened, otherwise the
      save's error is the one notification. No before or after version is
      saved and no comparison is opened. */
  lemma NewFileDiff(id: int, hasTeamExplorer: bool, filePath: string, fileName: string, isStaged: bool, host: DiffHost)
    ensures var trace := DiffTrace(Some(id), hasTeamExplorer, filePath, fileName, true, isStaged, host);
      && Saves(trace) == [SaveUntracked(id, filePath, host.untrackedTemp, isStaged)]
      && (forall e | e in trace :: !e.OpenComparison?)
      && (OpenFile(host.untrackedTemp) in trace <==> host.untrackedSave.Saved?)
      && (host.untrackedSave.NotSaved? ==> Notifications(trace) == (if hasTeamExplorer then [host.untrackedSave.error] else []))
  {
    NewFileSaves(id, hasTeamExplorer, filePath, fileName, isStaged, host);
    NewFileOpens(id, hasTeamExplorer, filePath, fileName, isStaged, host);
    if host.untrackedSave.NotSaved? {
      NewFileNotifications(id, hasTeamExplorer, filePath, fileName, isStaged, host);
    }
  }

  lemma NewFileSaves(id: int, hasTeamExplorer: bool, filePath: string, fileName: string, isStaged: bool, host: DiffHost)
    ensures Saves(DiffTrace(Some(id), hasTeamExplorer, filePath, fileName, true, isStaged, host))
         == [SaveUntracked(id, filePath, host.untrackedTemp, isStaged)]
  {
    DiffTraceParts(Some(id), hasTeamExplorer, filePath, fileName, true, isStaged, host);
    var save := SaveUntracked(id, filePath, host.untrackedTemp, isStaged);
    var rest := match host.untrackedSave
      case SaveThrows => []
      case NotSaved(error) => NotifyIf(hasTeamExplorer, error)
      case Saved => [OpenFile(host.untrackedTemp)];
    assert NewFileTry(id, hasTeamExplorer, filePath, isStaged, host).events == [save] + rest;
    SavesThenNone([save], rest);
  }

  lemma NewFileOpens(id: int, hasTeamExplorer: bool, filePath: string, fileName: string, isStaged: bool, host: DiffHost)
    ensures var trace := DiffTrace(Some(id), hasTeamExplorer, filePath, fileName, true, isStaged, host);
      && (forall e | e in trace :: !e.OpenComparison?)
      && (OpenFile(host.untrackedTemp) in trace <==> host.untrackedSave.Saved?)
  {
    OpensOnlyInTry(Some(id), hasTeamExplorer, filePath, fileName, true, isStaged, host);
    var body := NewFileTry(id, hasTeamExplorer, filePath, isStaged, host);
    var trace := DiffTrace(Some(id), hasTeamExplorer, filePath, fileName, true, isStaged, host);
    if host.untrackedSave.Saved? {
      assert body.events[1] == OpenFile(host.untrackedTemp);
      assert trace[4] == OpenFile(host.untrackedTemp);
    }
  }

  lemma NewFileNotifications(id: int, hasTeamExplorer: bool, filePath: string, fileName: string, isStaged: bool, host: DiffHost)
    requires host.untrackedSave.NotSaved?
    ensures Notifications(DiffTrace(Some(id), hasTeamExplorer, filePath, fileName, true, isStaged, host))
         == (if hasTeamExplorer then [host.untrackedSave.error] else [])
  {
    DiffTraceParts(Some(id), hasTeamExplorer, filePath, fileName, true, isStaged, host);
    var save := SaveUntracked(id, filePath, host.untrackedTemp, isStaged);
    var rest := NotifyIf(hasTeamExplorer, host.untrackedSave.error);
    NotificationsConcat([save], rest);
    NoNotifications([save]);
    if hasTeamExplorer {
      OneNotification(host.untrackedSave.error);
    }
  }

  /** A tracked file's before version is saved first; the after version is
      saved only once that succeeded, and the comparison (before on the
      left, after on the right) opens exactly when both succeeded. Nothing
      is opened as a single file. A save that fails without throwing has
      its error as the one notification; when the comparison opens without
      throwing nothing is notified. */
  lemma TrackedFileDiff(id: int, hasTeamExplorer: bool, filePath: string, fileName: string, isStaged: bool, host: DiffHost)
    ensures var trace := DiffTrace(Some(id), hasTeamExplorer, filePath, fileName, false, isStaged, host);
      && Saves(trace) == (if host.beforeSave.Saved?
                          then [SaveBefore(id, filePath, host.beforeTemp), SaveAfter(id, filePath, host.afterTemp)]
                          else [SaveBefore(id, filePath, host.beforeTemp)])
      && (Comparison(host, fileName) in trace <==> host.beforeSave.Saved? && host.afterSave.Saved?)
      && (forall e | e in trace && e.OpenComparison? :: e == Comparison(host, fileName))
      && (forall e | e in trace && e.OpenComparison? :: e.leftFile == host.beforeTemp && e.rightFile == host.afterTemp)
      && (forall e | e in trace :: !e.OpenFile?)
      && (host.beforeSave.NotSaved? ==>
            Notifications(trace) == (if hasTeamExplorer then [host.beforeSave.error] else []))
      && (host.beforeSave.Saved? && host.afterSave.NotSaved? ==>
            Notifications(trace) == (if hasTeamExplorer then [host.afterSave.error] else []))
      && (host.beforeSave.Saved? && host.afterSave.Saved? && !host.comparisonThrows ==>
            Notifications(trace) == [])
  {
    TrackedFileSaves(id, hasTeamExplorer, filePath, fileName, isStaged, host);
    TrackedFileOpens(id, hasTeamExplorer, filePath, fileName, isStaged, host);
    TrackedFileNotifications(id, hasTeamExplorer, filePath, fileName, isStaged, host);
  }

  lemma TrackedFileOpens(id: int, hasTeamExplorer: bool, filePath: string, fileName: string, isStaged: bool, host: DiffHost)
    ensures var trace := DiffTrace(Some(id), hasTeamExplorer, filePath, fileName, false, isStaged, host);
      && (Comparison(host, fileName) in trace <==> host.beforeSave.Saved? && host.afterSave.Saved?)
      && (forall e | e in trace && e.OpenComparison? :: e == Comparison(host, fileName))
      && (forall e | e in trace && e.OpenComparison? :: e.leftFile == host.beforeTemp && e.rightFile == host.afterTemp)
      && (forall e | e in trace :: !e.OpenFile?)
  {
    OpensOnlyInTry(Some(id), hasTeamExplorer, filePath, fileName, false, isStaged, host);
  }

  lemma TrackedFileNotifications(id: int, hasTeamExplorer: bool, filePath: string, fileName: string, isStaged: bool, host: DiffHost)
    ensures var trace := DiffTrace(Some(id), hasTeamExplorer, filePath, fileName, false, isStaged, host);
      && (host.beforeSave.NotSaved? ==>
            Notifications(trace) == (if hasTeamExplorer then [host.beforeSave.error] else []))
      && (host.beforeSave.Saved? && host.afterSave.NotSaved? ==>
            Notifications(trace) == (if hasTeamExplorer then [host.afterSave.error] else []))
      && (host.beforeSave.Saved? && host.afterSave.Saved? && !host.comparisonThrows ==>
            Notifications(trace) == [])
  {
    if host.beforeSave.NotSaved? {
      BeforeSaveFailureNotified(id, hasTeamExplorer, filePath, fileName, isStaged, host);
    } else if host.beforeSave.Saved? && host.afterSave.NotSaved? {
      AfterSaveFailureNotified(id, hasTeamExplorer, filePath, fileName, isStaged, host);
    } else if host.beforeSave.Saved? && host.afterSave.Saved? && !host.comparisonThrows {
      ComparisonNotifiesNothing(id, hasTeamExplorer, filePath, fileName, isStaged, host);
    }
  }

  /** A before save that fails without throwing: its error is the one
      notification. */
  lemma BeforeSaveFailureNotified(id: int, hasTeamExplorer: bool, filePath: string, fileName: string, isStaged: bool, host: DiffHost)
    requires host.beforeSave.NotSaved?
    ensures Notifications(DiffTrace(Some(id), hasTeamExplorer, filePath, fileName, false, isStaged, host))
         == (if hasTeamExplorer then [host.beforeSave.error] else [])
  {
    DiffTraceParts(Some(id), hasTeamExplorer, filePath, fileName, false, isStaged, host);
    var before := SaveBefore(id, filePath, host.beforeTemp);
    NotificationsConcat([before], NotifyIf(hasTeamExplorer, host.beforeSave.error));
    NoNotifications([before]);
    if hasTeamExplorer {
      OneNotification(host.beforeSave.error);
    }
  }

  /** An after save that fails without throwing, once the before save
      succeeded: its error is the one notification. */
  lemma AfterSaveFailureNotified(id: int, hasTeamExplorer: bool, filePath: string, fileName: string, isStaged: bool, host: DiffHost)
    requires host.beforeSave.Saved? && host.afterSave.NotSaved?
    ensures Notifications(DiffTrace(Some(id), hasTeamExplorer, filePath, fileName, false, isStaged, host))
         == (if hasTeamExplorer then [host.afterSave.error] else [])
  {
    DiffTraceParts(Some(id), hasTeamExplorer, filePath, fileName, false, isStaged, host);
    var saves := [SaveBefore(id, filePath, host.beforeTemp), SaveAfter(id, filePath, host.afterTemp)];
    NotificationsConcat(saves, NotifyIf(hasTeamExplorer, host.afterSave.error));
    NoNotifications(saves);
    if hasTeamExplorer {
      OneNotification(host.afterSave.error);
    }
  }

  /** Both saves succeed and the comparison opens without throwing: nothing
      is notified. */
  lemma ComparisonNotifiesNothing(id: int, hasTeamExplorer: bool, filePath: string, fileName: string, isStaged: bool, host: DiffHost)
    requires host.beforeSave.Saved? && host.afterSave.Saved? && !host.comparisonThrows
    ensures Notifications(DiffTrace(Some(id), hasTeamExplorer, filePath, fileName, false, isStaged, host)) == []
  {
    DiffTraceParts(Some(id), hasTeamExplorer, filePath, fileName, false, isStaged, host);
    NoNotifications([SaveBefore(id, filePath, host.beforeTemp), SaveAfter(id, filePath, host.afterTemp),
                     Comparison(host, fileName)]);
  }

  lemma TrackedFileSaves(id: int, hasTeamExplorer: bool, filePath: string, fileName: string, isStaged: bool, host: DiffHost)
    ensures Saves(DiffTrace(Some(id), hasTeamExplorer, filePath, fileName, false, isStaged, host))
         == (if host.beforeSave.Saved?
             then [SaveBefore(id, filePath, host.beforeTemp), SaveAfter(id, filePath, host.afterTemp)]
             else [SaveBefore(id, filePath, host.beforeTemp)])
  {
    DiffTraceParts(Some(id), hasTeamExplorer, filePath, fileName, false, isStaged, host);
    var body := TrackedFileTry(id, hasTeamExplorer, filePath, fileName, host);
    var before := SaveBefore(id, filePath, host.beforeTemp);
    var after := SaveAfter(id, filePath, host.afterTemp);
    var saved := if host.beforeSave.Saved? then [before, after] else [before];
    var rest := body.events[|saved|..];
    assert body.events == saved + rest && forall k :: 0 <= k < |rest| ==> !IsSave(rest[k]);
    SavesThenNone(saved, rest);
  }

  /** The saves of a run of save calls followed by none. */
  lemma SavesThenNone(saved: seq<Event>, rest: seq<Event>)
    requires forall k :: 0 <= k < |saved| ==> IsSave(saved[k])
    requires forall k :: 0 <= k < |rest| ==> !IsSave(rest[k])
    ensures Saves(saved + rest) == saved
  {
    SavesConcat(saved, rest);
    NoSaves(rest);
    AllSaves(saved);
  }

  lemma {:induction false} AllSaves(saved: seq<Event>)
    requires forall k :: 0 <= k < |saved| ==> IsSave(saved[k])
    ensures Saves(saved) == saved
    decreases |saved|
  {
    if saved != [] {
      AllSaves(saved[..|saved| - 1]);
      assert saved == saved[..|saved| - 1] + [saved[|saved| - 1]];
    }
  }

  /** At most one notification is shown, and none without a Team Explorer.
      The exception is logged exactly when the `try` block throws (also
      when there is no stash), and the notification is then the
      unexpected-error text pointing at the log. */
  lemma FailuresNotifyOnce(stashId: Option<int>, hasTeamExplorer: bool, filePath: string, fileName: string,
                           isNew: bool, isStaged: bool, host: DiffHost)
    ensures var trace := DiffTrace(stashId, hasTeamExplorer, filePath, fileName, isNew, isStaged, host);
      var threw := TryBlock(stashId, hasTeamExplorer, filePath, fileName, isNew, isStaged, host).threw;
      && |Notifications(trace)| <= 1
      && (!hasTeamExplorer ==> Notifications(trace) == [])
      && (LogException in trace <==> threw)
      && (threw ==> Notifications(trace) == (if hasTeamExplorer then [UnexpectedNotification(host)] else []))
  {
    NotificationsOfTrace(stashId, hasTeamExplorer, filePath, fileName, isNew, isStaged, host);
    LoggedIffThrew(stashId, hasTeamExplorer, filePath, fileName, isNew, isStaged, host);
  }

  lemma NotificationsOfTrace(stashId: Option<int>, hasTeamExplorer: bool, filePath: string, fileName: string,
                             isNew: bool, isStaged: bool, host: DiffHost)
    ensures var trace := DiffTrace(stashId, hasTeamExplorer, filePath, fileName, isNew, isStaged, host);
      var threw := TryBlock(stashId, hasTeamExplorer, filePath, fileName, isNew, isStaged, host).threw;
      && |Notifications(trace)| <= 1
      && (!hasTeamExplorer ==> Notifications(trace) == [])
      && (threw ==> Notifications(trace) == (if hasTeamExplorer then [UnexpectedNotification(host)] else []))
  {
    var body := TryBlock(stashId, hasTeamExplorer, filePath, fileName, isNew, isStaged, host);
    DiffTraceParts(stashId, hasTeamExplorer, filePath, fileName, isNew, isStaged, host);
    TryBlockEvents(stashId, hasTeamExplorer, filePath, fileName, isNew, isStaged, host);
    CaughtNotifications(body.threw, hasTeamExplorer, host);
    if body.threw || !hasTeamExplorer {
      NoNotifications(body.events);
    } else {
      NotifiesAtMostOnce(body.events);
    }
  }

  lemma LoggedIffThrew(stashId: Option<int>, hasTeamExplorer: bool, filePath: string, fileName: string,
                       isNew: bool, isStaged: bool, host: DiffHost)
    ensures LogException in DiffTrace(stashId, hasTeamExplorer, filePath, fileName, isNew, isStaged, host)
        <==> TryBlock(stashId, hasTeamExplorer, filePath, fileName, isNew, isStaged, host).threw
  {
    var body := TryBlock(stashId, hasTeamExplorer, filePath, fileName, isNew, isStaged, host);
    TryBlockEvents(stashId, hasTeamExplorer, filePath, fileName, isNew, isStaged, host);
    CaughtNotifications(body.threw, hasTeamExplorer, host);
    assert LogException !in body.events by {
      forall k | 0 <= k < |body.events| ensures body.events[k] != LogException {
        assert InTry(body.events[k]);
      }
    }
    assert LogException !in Created(host) && LogException !in Deleted(host);
  }
}
