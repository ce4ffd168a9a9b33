/**
 * `GitCommandExecuter`: runs git commands in the active repository and maps
 * each command's result to what the Team Explorer pages use (a success flag,
 * an error message and, for queries, a payload).
 *
 * Everything the executer asks of Visual Studio and the operating system is
 * an oracle, `GitHost`: the active repository, the git executable's path
 * and how a started git process ends. The process's output streams arrive
 * whole, as the strings the executer reads to the end.
 */
module GitCommandExecuter {
  import opened Wrappers
  import opened Strings
  import opened GitCommandConstants

  /** `GitCommandResult`: `None` is a property left null. */
  datatype GitCommandResult = GitCommandResult(outputMessage: Option<string>, errorMessage: Option<string>)

  const NoRepositoryMessage := "Select repository to find stashes."
  const UnexpectedErrorMessage := "Unexpected error."

  /** The result when no repository is active. */
  const NoRepositoryResult := GitCommandResult(None, Some(NoRepositoryMessage))

  /** The result when anything throws. */
  const UnexpectedResult := GitCommandResult(None, Some(UnexpectedErrorMessage))

  /** What `ActiveRepositories.FirstOrDefault()` yields: no repository, the
      first one's path, or an exception. */
  datatype RepositoryLookup = NoActiveRepository | ActiveRepository(path: string) | LookupThrows

  /** The settings of the process the executer starts that depend on its
      inputs; the fixed flags (no window, redirected streams, no shell) are
      the same for every command. */
  datatype ProcessStartInfo = ProcessStartInfo(fileName: string, arguments: string, workingDirectory: string)

  /** How a started git process ends: its exit code and what it wrote to
      standard output and standard error, or an exception while starting it
      or reading its streams. */
  datatype ProcessOutcome = Exited(exitCode: int, stdout: string, stderr: string) | StartThrows

  /** The environment: the repository lookup, `GitPathHelper.GetGitPath()`
      (`None` when it throws) and the process oracle. */
  datatype GitHost = GitHost(
    repository: RepositoryLookup,
    gitPath: Option<string>,
    run: ProcessStartInfo -> ProcessOutcome)

  /** The process both execute paths start for `command`, if they get that
      far: git at the helper's path, the command as its arguments, in the
      active repository. */
  function Launch(host: GitHost, command: string): (start: Option<ProcessStartInfo>)
    ensures start.Some? <==> host.repository.ActiveRepository? && host.gitPath.Some?
    ensures start.Some? ==>
      (start.value.arguments == command
       && start.value.fileName == host.gitPath.value
       && start.value.workingDirectory == host.repository.path)
  {
    match host.repository
    case ActiveRepository(path) =>
      (match host.gitPath
       case Some(git) => Some(ProcessStartInfo(git, command, path))
       case None => None)
    case _ => None
  }

  /** What the synchronous `Execute` returns: both streams once the process
      has exited, whatever its exit code. */
  function ExecuteResult(host: GitHost, command: string): (result: GitCommandResult)
  {
    if host.repository.NoActiveRepository? then NoRepositoryResult
    else
      match Launch(host, command)
      case None => UnexpectedResult
      case Some(start) =>
        match host.run(start)
        case StartThrows => UnexpectedResult
        case Exited(_, stdout, stderr) => GitCommandResult(Some(stdout), Some(stderr))
  }

  /** What the task `ExecuteAsync` returns completes with: standard error
      alone on a non-zero exit code, standard output alone on zero. */
  function ExecuteAsyncResult(host: GitHost, command: string): (result: GitCommandResult)
  {
    if host.repository.NoActiveRepository? then NoRepositoryResult
    else
      match Launch(host, command)
      case None => UnexpectedResult
      case Some(start) =>
        match host.run(start)
        case StartThrows => UnexpectedResult
        case Exited(code, stdout, stderr) =>
          if code != 0 then GitCommandResult(None, Some(stderr)) else GitCommandResult(Some(stdout), None)
  }

  /** Without an active repository neither path starts a process, and both
      report the selection message. */
  lemma NoRepositoryStartsNothing(host: GitHost, command: string)
    requires host.repository.NoActiveRepository?
    ensures Launch(host, command).None?
    ensures ExecuteResult(host, command) == NoRepositoryResult
    ensures ExecuteAsyncResult(host, command) == NoRepositoryResult
  { }

  /** Every exception becomes the "Unexpected error." result; nothing is
      rethrown and no output is reported. */
  lemma ExceptionsBecomeUnexpectedError(host: GitHost, command: string)
    requires host.repository.LookupThrows?
      || (host.repository.ActiveRepository? && host.gitPath.None?)
      || (Launch(host, command).Some? && host.run(Launch(host, command).value).StartThrows?)
    ensures ExecuteResult(host, command) == UnexpectedResult
    ensures ExecuteAsyncResult(host, command) == UnexpectedResult
  { }

  /** The asynchronous path always sets exactly one of the two messages; the
      synchronous path always sets the error message and sets the output
      exactly when the process ran to its exit. */
  lemma MessagesSet(host: GitHost, command: string)
    ensures var r := ExecuteAsyncResult(host, command); r.outputMessage.Some? != r.errorMessage.Some?
    ensures var r := ExecuteResult(host, command);
      r.errorMessage.Some?
      && (r.outputMessage.Some? <==> Launch(host, command).Some? && host.run(Launch(host, command).value).Exited?)
  { }

  /** The two paths agree except on a process that exits: there the
      asynchronous one keeps only the stream the exit code selects. */
  lemma SyncAndAsyncAgree(host: GitHost, command: string)
    ensures var sync := ExecuteResult(host, command);
      var async := ExecuteAsyncResult(host, command);
      match Launch(host, command)
      case Some(start) =>
        (match host.run(start)
         case Exited(code, _, _) =>
           if code != 0 then async == sync.(outputMessage := None) else async == sync.(errorMessage := None)
         case StartThrows => async == sync)
      case None => async == sync
  { }

  /** The command `TryCreateStash` issues: the bare "stash" when the message
      is null or empty, otherwise the save template with the message. */
  function CreateCommand(message: Option<string>): (command: string)
    ensures message.None? || message == Some("") ==> command == Stash
    ensures message.Some? && message.value != "" ==> Format(StashSaveFormatted, [message.value]) == Success(command)
  {
    if message.None? || message.value == "" then Stash else SaveCommand(message.value)
  }

  /** A non-empty message always reaches git verbatim at the end of the
      command, so a stash is never saved without its message. */
  lemma CreateCommandKeepsMessage(message: string)
    requires message != ""
    ensures CreateCommand(Some(message)) == "stash save " + message
    ensures CreateCommand(Some(message)) != Stash
  {
    assert |CreateCommand(Some(message))| > |Stash|;
  }

  /** The executer over one host. `isError` is `GitCommandResult.IsError`,
      which is not part of this model. */
  class GitCommandExecuter {
    const host: GitHost
    const isError: GitCommandResult -> bool

    constructor (host: GitHost, isError: GitCommandResult -> bool)
      ensures this.host == host && this.isError == isError
    {
      this.host := host;
      this.isError := isError;
    }

    /** `Execute`: the result and the process it started, if any. */
    method Execute(gitCommand: string) returns (result: GitCommandResult, started: Option<ProcessStartInfo>)
      ensures result == ExecuteResult(host, gitCommand)
      ensures started == Launch(host, gitCommand)
      ensures started.Some? <==> host.repository.ActiveRepository? && host.gitPath.Some?
      ensures started.Some? ==>
        started.value == ProcessStartInfo(host.gitPath.value, gitCommand, host.repository.path)
    {
      started := None;
      match host.repository {
        case NoActiveRepository =>
          return NoRepositoryResult, None;
        case LookupThrows =>
          return UnexpectedResult, None;
        case ActiveRepository(path) =>
          if host.gitPath.None? {
            return UnexpectedResult, None;
          }
          var start := ProcessStartInfo(host.gitPath.value, gitCommand, path);
          started := Some(start);
          match host.run(start) {
            case StartThrows =>
              result := UnexpectedResult;
            case Exited(_, stdout, stderr) =>
              result := GitCommandResult(Some(stdout), Some(stderr));
          }
      }
    }

    /** `ExecuteAsync`: the result its task completes with, and the process
        it started, if any. */
    method ExecuteAsync(gitCommand: string) returns (result: GitCommandResult, started: Option<ProcessStartInfo>)
      ensures result == ExecuteAsyncResult(host, gitCommand)
      ensures started == Launch(host, gitCommand)
    {
      started := None;
      match host.repository {
        case NoActiveRepository =>
          return NoRepositoryResult, None;
        case LookupThrows =>
          return UnexpectedResult, None;
        case ActiveRepository(path) =>
          if host.gitPath.None? {
            return UnexpectedResult, None;
          }
          var start := ProcessStartInfo(host.gitPath.value, gitCommand, path);
          started := Some(start);
          match host.run(start) {
            case StartThrows =>
              result := UnexpectedResult;
            case Exited(code, stdout, stderr) =>
              if code != 0 {
                result := GitCommandResult(None, Some(stderr));
              } else {
                result := GitCommandResult(Some(stdout), None);
              }
          }
      }
    }

    /** `TryGetAllStashes`: on error no payload and the result's error, on
        success the parsed output and an empty error. `parse` stands for
        `GitResultParser.ParseStashListResult`. */
    method TryGetAllStashes<T>(parse: Option<string> -> T) returns (ok: bool, stashes: Option<T>, errorMessage: Option<string>)
      ensures var r := ExecuteResult(host, StashList);
        && ok == !isError(r)
        && (!ok ==> stashes.None? && errorMessage == r.errorMessage)
        && (ok ==> stashes == Some(parse(r.outputMessage)) && errorMessage == Some(""))
    {
      var result, _ := Execute(StashList);
      if isError(result) {
        return false, None, result.errorMessage;
      }
      stashes := Some(parse(result.outputMessage));
      return true, stashes, Some("");
    }

    /** `TryApplyStash`: applies stash `stashId`; success is the absence of
        an error and the error message is passed through as is. */
    method TryApplyStash(stashId: int) returns (ok: bool, errorMessage: Option<string>)
      ensures var r := ExecuteResult(host, ApplyCommand(stashId));
        ok == !isError(r) && errorMessage == r.errorMessage
    {
      var applyCommand := ApplyCommand(stashId);
      var result, _ := Execute(applyCommand);
      errorMessage := result.errorMessage;
      ok := !isError(result);
    }

    /** `TryCreateStash`: stashes with the message, or without one when it
        is null or empty. */
    method TryCreateStash(message: Option<string>) returns (ok: bool, errorMessage: Option<string>)
      ensures var r := ExecuteResult(host, CreateCommand(message));
        ok == !isError(r) && errorMessage == r.errorMessage
    {
      var createCommand := if message.None? || message.value == "" then Stash else SaveCommand(message.value);
      var result, _ := Execute(createCommand);
      errorMessage := result.errorMessage;
      ok := !isError(result);
    }

    /** `TryDeleteStash`: drops stash `id`. */
    method TryDeleteStash(id: int) returns (ok: bool, errorMessage: Option<string>)
      ensures var r := ExecuteResult(host, DropCommand(id));
        ok == !isError(r) && errorMessage == r.errorMessage
    {
      var deleteCommand := DropCommand(id);
      var result, _ := Execute(deleteCommand);
      errorMessage := result.errorMessage;
      ok := !isError(result);
    }

    /** `TryGetStashInfo`: lists the files of stash `id`. `parse` stands for
        `GitResultParser.ParseStashInfoResult`. */
    method TryGetStashInfo<T>(id: int, parse: Option<string> -> T) returns (ok: bool, stash: Option<T>, errorMessage: Option<string>)
      ensures var r := ExecuteResult(host, InfoCommand(id));
        && ok == !isError(r)
        && (!ok ==> stash.None? && errorMessage == r.errorMessage)
        && (ok ==> stash == Some(parse(r.outputMessage)) && errorMessage == Some(""))
    {
      var infoCommand := InfoCommand(id);
      var result, _ := Execute(infoCommand);
      if isError(result) {
        return false, None, result.errorMessage;
      }
      return true, Some(parse(result.outputMessage)), Some("");
    }

    /** `TryRunFileDiff` as written: the template is formatted with two
        arguments while it uses three, so `String.Format` throws before
        any process is started, and the exception reaches the caller. */
    method TryRunFileDiff(id: int, filePath: string) returns (r: Result<GitCommandResult, FormatError>)
      ensures r == Failure(IndexOutOfRange)
    {
      var diffCommand := Format(StashFileDiffFormatted, [IntToString(id), filePath]);
      FileDiffWithTwoArgumentsThrows(id, filePath);
      match diffCommand {
        case Failure(e) =>
          return Failure(e);
        case Success(_) =>
          assert false;
      }
    }

    /** `TryRunFileDiff` with the diff tool passed as the template's first
        argument: the command reaches `ExecuteAsync` unchanged. */
    method TryRunFileDiffCorrected(diffTool: string, id: int, filePath: string) returns (result: GitCommandResult)
      ensures result == ExecuteAsyncResult(host, FileDiffCommand(diffTool, id, filePath))
    {
      var diffCommand := FileDiffCommand(diffTool, id, filePath);
      var started;
      result, started := ExecuteAsync(diffCommand);
    }
  }
}
