/**
 * The git argument strings the extension runs, kept as the same composite
 * format templates the extension declares, and the commands they render to.
 * In a template "{{" and "}}" are literal braces and "{n}" is the n-th
 * argument, so "stash@{{{0}}}" renders stash id N as the text "stash@{N}".
 */
module GitCommandConstants {
  import opened Wrappers
  import opened Strings

  const StashList := "stash list"
  const StashApplyFormatted := "stash apply stash@{{{0}}}"
  const Stash := "stash"
  const StashIncludeUntracked := "stash --include-untracked"
  const StashSaveFormatted := "stash save {0}"
  const StashSaveFormattedIncludeUntracked := "stash save --include-untracked {0}"
  const StashDeleteFormatted := "stash drop stash@{{{0}}}"
  const StashInfoFormatted := "stash show stash@{{{0}}} --name-only"
  const StashUntrackedInfoFormatted := "show stash@{{{0}}}^^3 --name-only --pretty=\"\""
  const CatFileStashCheckUntrackedFilesExist := "cat-file -t stash@{{{0}}}^^3"
  const StashFileDiffFormatted := "difftool --trust-exit-code -y -x \"'{0}' //t\" stash@{{{1}}}^^ stash@{{{1}}} -- {2}"
  const AfterStashFileVersionSaveTempFormatted := "show stash@{{{0}}}:\"{1}\" > {2}"
  const BeforeStashFileVersionSaveTempFormatted := "show stash@{{{0}}}^^:\"{1}\" > {2}"

  /** The argument-free commands contain no format items: formatting them
      with no arguments leaves them unchanged. */
  lemma BareCommandsTakeNoArguments()
    ensures Format(StashList, []) == Success(StashList)
    ensures Format(Stash, []) == Success(Stash)
    ensures Format(StashIncludeUntracked, []) == Success(StashIncludeUntracked)
  {
    StashListFormats();
    StashFormats();
    StashIncludeUntrackedFormats();
  }

  lemma StashListFormats()
    ensures Format(StashList, []) == Success(StashList)
  {
    FormatText(StashList, []);
  }

  lemma StashFormats()
    ensures Format(Stash, []) == Success(Stash)
  {
    FormatText(Stash, []);
  }

  lemma StashIncludeUntrackedFormats()
    ensures Format(StashIncludeUntracked, []) == Success(StashIncludeUntracked)
  {
    FormatText(StashIncludeUntracked, []);
  }

  /*
   * Each template is split at its format items and escapes; formatting it
   * is then formatting those pieces one after the other (`FormatThen`).
   * Each command function returns the rendered text and its contract is
   * that `String.Format` yields exactly that text, so it does not throw.
   */

  lemma ApplyTemplatePieces()
    ensures StashApplyFormatted == "stash apply stash@" + "{{" + "{0}" + "}}"
  {
    assert "stash apply stash@{{{0}}}" == "stash apply stash@{{{0}" + "}}";
    assert "stash apply stash@{{{0}" == "stash apply stash@{{" + "{0}";
    assert "stash apply stash@{{" == "stash apply stash@" + "{{";
  }

  lemma ApplyTextsFormat(args: seq<string>)
    ensures Format("stash apply stash@", args) == Success("stash apply stash@")
  {
    FormatText("stash apply stash@", args);
  }

  lemma ApplyPiecesRender(id: int)
    ensures Format("stash apply stash@" + "{{" + "{0}" + "}}", [IntToString(id)]) == Success("stash apply stash@" + "{" + IntToString(id) + "}")
  {
    var n := IntToString(id);
    var args := [n];
    ApplyTextsFormat(args);
    FormatEscapes(args);
    FormatSingleItem("{0}", args);
    FormatThen("stash apply stash@", "{{", args);
    FormatThen("stash apply stash@" + "{{", "{0}", args);
    FormatThen("stash apply stash@" + "{{" + "{0}", "}}", args);
  }

  lemma ApplyRenders(id: int)
    ensures Format(StashApplyFormatted, [IntToString(id)]) == Success("stash apply stash@" + "{" + IntToString(id) + "}")
  {
    ApplyTemplatePieces();
    ApplyPiecesRender(id);
  }

  /** `string.Format(StashApplyFormatted, id)`: applies stash `id`. */
  function ApplyCommand(id: int): (command: string)
    ensures Format(StashApplyFormatted, [IntToString(id)]) == Success(command)
  {
    ApplyRenders(id);
    "stash apply stash@" + "{" + IntToString(id) + "}"
  }

  lemma DropTemplatePieces()
    ensures StashDeleteFormatted == "stash drop stash@" + "{{" + "{0}" + "}}"
  {
    assert "stash drop stash@{{{0}}}" == "stash drop stash@{{{0}" + "}}";
    assert "stash drop stash@{{{0}" == "stash drop stash@{{" + "{0}";
    assert "stash drop stash@{{" == "stash drop stash@" + "{{";
  }

  lemma DropTextsFormat(args: seq<string>)
    ensures Format("stash drop stash@", args) == Success("stash drop stash@")
  {
    FormatText("stash drop stash@", args);
  }

  lemma DropPiecesRender(id: int)
    ensures Format("stash drop stash@" + "{{" + "{0}" + "}}", [IntToString(id)]) == Success("stash drop stash@" + "{" + IntToString(id) + "}")
  {
    var n := IntToString(id);
    var args := [n];
    DropTextsFormat(args);
    FormatEscapes(args);
    FormatSingleItem("{0}", args);
    FormatThen("stash drop stash@", "{{", args);
    FormatThen("stash drop stash@" + "{{", "{0}", args);
    FormatThen("stash drop stash@" + "{{" + "{0}", "}}", args);
  }

  lemma DropRenders(id: int)
    ensures Format(StashDeleteFormatted, [IntToString(id)]) == Success("stash drop stash@" + "{" + IntToString(id) + "}")
  {
    DropTemplatePieces();
    DropPiecesRender(id);
  }

  /** `string.Format(StashDeleteFormatted, id)`: drops stash `id`. */
  function DropCommand(id: int): (command: string)
    ensures Format(StashDeleteFormatted, [IntToString(id)]) == Success(command)
  {
    DropRenders(id);
    "stash drop stash@" + "{" + IntToString(id) + "}"
  }

  // Each literal piece of the templates below has no braces, so it
  // formats to itself.

  lemma StashShowLeadFormats(args: seq<string>)
    ensures Format("stash show stash@", args) == Success("stash show stash@")
  {
    FormatText("stash show stash@", args);
  }

  lemma NameOnlyFormats(args: seq<string>)
    ensures Format(" --name-only", args) == Success(" --name-only")
  {
    FormatText(" --name-only", args);
  }

  lemma ShowLeadFormats(args: seq<string>)
    ensures Format("show stash@", args) == Success("show stash@")
  {
    FormatText("show stash@", args);
  }

  lemma UntrackedTailFormats(args: seq<string>)
    ensures Format("^^3 --name-only --pretty=\"\"", args) == Success("^^3 --name-only --pretty=\"\"")
  {
    FormatText("^^3 --name-only --pretty=\"\"", args);
  }

  lemma CatFileLeadFormats(args: seq<string>)
    ensures Format("cat-file -t stash@", args) == Success("cat-file -t stash@")
  {
    FormatText("cat-file -t stash@", args);
  }

  lemma ThirdParentFormats(args: seq<string>)
    ensures Format("^^3", args) == Success("^^3")
  {
    FormatText("^^3", args);
  }

  lemma PathQuoteFormats(args: seq<string>)
    ensures Format(":\"", args) == Success(":\"")
  {
    FormatText(":\"", args);
  }

  lemma ParentPathQuoteFormats(args: seq<string>)
    ensures Format("^^:\"", args) == Success("^^:\"")
  {
    FormatText("^^:\"", args);
  }

  lemma RedirectFormats(args: seq<string>)
    ensures Format("\" > ", args) == Success("\" > ")
  {
    FormatText("\" > ", args);
  }

  lemma InfoTemplatePieces()
    ensures StashInfoFormatted == "stash show stash@" + "{{" + "{0}" + "}}" + " --name-only"
  {
    assert "stash show stash@{{{0}}} --name-only" == "stash show stash@{{{0}}}" + " --name-only";
    assert "stash show stash@{{{0}}}" == "stash show stash@{{{0}" + "}}";
    assert "stash show stash@{{{0}" == "stash show stash@{{" + "{0}";
    assert "stash show stash@{{" == "stash show stash@" + "{{";
  }

  lemma InfoTextsFormat(args: seq<string>)
    ensures Format("stash show stash@", args) == Success("stash show stash@")
    ensures Format(" --name-only", args) == Success(" --name-only")
  {
    StashShowLeadFormats(args);
    NameOnlyFormats(args);
  }

  lemma InfoPiecesRender(id: int)
    ensures Format("stash show stash@" + "{{" + "{0}" + "}}" + " --name-only", [IntToString(id)]) == Success("stash show stash@" + "{" + IntToString(id) + "}" + " --name-only")
  {
    var n := IntToString(id);
    var args := [n];
    InfoTextsFormat(args);
    FormatEscapes(args);
    FormatSingleItem("{0}", args);
    FormatThen("stash show stash@", "{{", args);
    FormatThen("stash show stash@" + "{{", "{0}", args);
    FormatThen("stash show stash@" + "{{" + "{0}", "}}", args);
    FormatThen("stash show stash@" + "{{" + "{0}" + "}}", " --name-only", args);
  }

  lemma InfoRenders(id: int)
    ensures Format(StashInfoFormatted, [IntToString(id)]) == Success("stash show stash@" + "{" + IntToString(id) + "}" + " --name-only")
  {
    InfoTemplatePieces();
    InfoPiecesRender(id);
  }

  /** `string.Format(StashInfoFormatted, id)`: names the files stash `id` changes. */
  function InfoCommand(id: int): (command: string)
    ensures Format(StashInfoFormatted, [IntToString(id)]) == Success(command)
  {
    InfoRenders(id);
    "stash show stash@" + "{" + IntToString(id) + "}" + " --name-only"
  }

  /** The head "show stash@{{{0}}}" shared by the show templates. */
  lemma ShowStashHeadPieces()
    ensures "show stash@{{{0}}}" == "show stash@" + "{{" + "{0}" + "}}"
  {
    assert "show stash@{{{0}}}" == "show stash@{{{0}" + "}}";
    assert "show stash@{{{0}" == "show stash@{{" + "{0}";
    assert "show stash@{{" == "show stash@" + "{{";
  }

  lemma UntrackedInfoTemplatePieces()
    ensures StashUntrackedInfoFormatted == "show stash@" + "{{" + "{0}" + "}}" + "^^3 --name-only --pretty=\"\""
  {
    ShowStashHeadPieces();
    UntrackedInfoTail();
  }

  lemma UntrackedInfoTail()
    ensures "show stash@{{{0}}}^^3 --name-only --pretty=\"\"" == "show stash@{{{0}}}" + "^^3 --name-only --pretty=\"\""
  { }


  lemma UntrackedInfoTextsFormat(args: seq<string>)
    ensures Format("show stash@", args) == Success("show stash@")
    ensures Format("^^3 --name-only --pretty=\"\"", args) == Success("^^3 --name-only --pretty=\"\"")
  {
    ShowLeadFormats(args);
    UntrackedTailFormats(args);
  }

  lemma UntrackedInfoPiecesRender(id: int)
    ensures Format("show stash@" + "{{" + "{0}" + "}}" + "^^3 --name-only --pretty=\"\"", [IntToString(id)]) == Success("show stash@" + "{" + IntToString(id) + "}" + "^^3 --name-only --pretty=\"\"")
  {
    var n := IntToString(id);
    var args := [n];
    UntrackedInfoTextsFormat(args);
    FormatEscapes(args);
    FormatSingleItem("{0}", args);
    FormatThen("show stash@", "{{", args);
    FormatThen("show stash@" + "{{", "{0}", args);
    FormatThen("show stash@" + "{{" + "{0}", "}}", args);
    FormatThen("show stash@" + "{{" + "{0}" + "}}", "^^3 --name-only --pretty=\"\"", args);
  }

  lemma UntrackedInfoRenders(id: int)
    ensures Format(StashUntrackedInfoFormatted, [IntToString(id)]) == Success("show stash@" + "{" + IntToString(id) + "}" + "^^3 --name-only --pretty=\"\"")
  {
    UntrackedInfoTemplatePieces();
    UntrackedInfoPiecesRender(id);
  }

  /** `string.Format(StashUntrackedInfoFormatted, id)`: the revision
      "stash@{N}^^3" of the template, passed to git as written. */
  function UntrackedInfoCommand(id: int): (command: string)
    ensures Format(StashUntrackedInfoFormatted, [IntToString(id)]) == Success(command)
  {
    UntrackedInfoRenders(id);
    "show stash@" + "{" + IntToString(id) + "}" + "^^3 --name-only --pretty=\"\""
  }

  lemma CatFileUntrackedTemplatePieces()
    ensures CatFileStashCheckUntrackedFilesExist == "cat-file -t stash@" + "{{" + "{0}" + "}}" + "^^3"
  {
    assert "cat-file -t stash@{{{0}}}^^3" == "cat-file -t stash@{{{0}}}" + "^^3";
    assert "cat-file -t stash@{{{0}}}" == "cat-file -t stash@{{{0}" + "}}";
    assert "cat-file -t stash@{{{0}" == "cat-file -t stash@{{" + "{0}";
    assert "cat-file -t stash@{{" == "cat-file -t stash@" + "{{";
  }

  lemma CatFileUntrackedTextsFormat(args: seq<string>)
    ensures Format("cat-file -t stash@", args) == Success("cat-file -t stash@")
    ensures Format("^^3", args) == Success("^^3")
  {
    CatFileLeadFormats(args);
    ThirdParentFormats(args);
  }

  lemma CatFileUntrackedPiecesRender(id: int)
    ensures Format("cat-file -t stash@" + "{{" + "{0}" + "}}" + "^^3", [IntToString(id)]) == Success("cat-file -t stash@" + "{" + IntToString(id) + "}" + "^^3")
  {
    var n := IntToString(id);
    var args := [n];
    CatFileUntrackedTextsFormat(args);
    FormatEscapes(args);
    FormatSingleItem("{0}", args);
    FormatThen("cat-file -t stash@", "{{", args);
    FormatThen("cat-file -t stash@" + "{{", "{0}", args);
    FormatThen("cat-file -t stash@" + "{{" + "{0}", "}}", args);
    FormatThen("cat-file -t stash@" + "{{" + "{0}" + "}}", "^^3", args);
  }

  lemma CatFileUntrackedRenders(id: int)
    ensures Format(CatFileStashCheckUntrackedFilesExist, [IntToString(id)]) == Success("cat-file -t stash@" + "{" + IntToString(id) + "}" + "^^3")
  {
    CatFileUntrackedTemplatePieces();
    CatFileUntrackedPiecesRender(id);
  }

  /** `string.Format(CatFileStashCheckUntrackedFilesExist, id)`: asks git for
      the type of the revision "stash@{N}^^3", passed as written. */
  function CatFileUntrackedCommand(id: int): (command: string)
    ensures Format(CatFileStashCheckUntrackedFilesExist, [IntToString(id)]) == Success(command)
  {
    CatFileUntrackedRenders(id);
    "cat-file -t stash@" + "{" + IntToString(id) + "}" + "^^3"
  }

  lemma SaveTemplatePieces()
    ensures StashSaveFormatted == "stash save " + "{0}"
  {
    assert "stash save {0}" == "stash save " + "{0}";
  }

  lemma SaveTextsFormat(args: seq<string>)
    ensures Format("stash save ", args) == Success("stash save ")
  {
    FormatText("stash save ", args);
  }

  lemma SavePiecesRender(message: string)
    ensures Format("stash save " + "{0}", [message]) == Success("stash save " + message)
  {
    var args := [message];
    SaveTextsFormat(args);
    FormatSingleItem("{0}", args);
    FormatThen("stash save ", "{0}", args);
  }

  lemma SaveRenders(message: string)
    ensures Format(StashSaveFormatted, [message]) == Success("stash save " + message)
  {
    SaveTemplatePieces();
    SavePiecesRender(message);
  }

  /** `string.Format(StashSaveFormatted, message)`: the message is appended as is. */
  function SaveCommand(message: string): (command: string)
    ensures Format(StashSaveFormatted, [message]) == Success(command)
  {
    SaveRenders(message);
    "stash save " + message
  }

  lemma SaveIncludeUntrackedTemplatePieces()
    ensures StashSaveFormattedIncludeUntracked == "stash save --include-untracked " + "{0}"
  {
    assert "stash save --include-untracked {0}" == "stash save --include-untracked " + "{0}";
  }

  lemma SaveIncludeUntrackedTextsFormat(args: seq<string>)
    ensures Format("stash save --include-untracked ", args) == Success("stash save --include-untracked ")
  {
    FormatText("stash save --include-untracked ", args);
  }

  lemma SaveIncludeUntrackedPiecesRender(message: string)
    ensures Format("stash save --include-untracked " + "{0}", [message]) == Success("stash save --include-untracked " + message)
  {
    var args := [message];
    SaveIncludeUntrackedTextsFormat(args);
    FormatSingleItem("{0}", args);
    FormatThen("stash save --include-untracked ", "{0}", args);
  }

  lemma SaveIncludeUntrackedRenders(message: string)
    ensures Format(StashSaveFormattedIncludeUntracked, [message]) == Success("stash save --include-untracked " + message)
  {
    SaveIncludeUntrackedTemplatePieces();
    SaveIncludeUntrackedPiecesRender(message);
  }

  /** `string.Format(StashSaveFormattedIncludeUntracked, message)`. */
  function SaveIncludeUntrackedCommand(message: string): (command: string)
    ensures Format(StashSaveFormattedIncludeUntracked, [message]) == Success(command)
  {
    SaveIncludeUntrackedRenders(message);
    "stash save --include-untracked " + message
  }

  lemma AfterVersionTemplatePieces()
    ensures AfterStashFileVersionSaveTempFormatted == "show stash@" + "{{" + "{0}" + "}}" + ":\"" + "{1}" + "\" > " + "{2}"
  {
    assert "show stash@{{{0}}}:\"{1}\" > {2}" == "show stash@{{{0}}}:\"{1}\" > " + "{2}";
    assert "show stash@{{{0}}}:\"{1}\" > " == "show stash@{{{0}}}:\"{1}" + "\" > ";
    assert "show stash@{{{0}}}:\"{1}" == "show stash@{{{0}}}:\"" + "{1}";
    assert "show stash@{{{0}}}:\"" == "show stash@{{{0}}}" + ":\"";
    assert "show stash@{{{0}}}" == "show stash@{{{0}" + "}}";
    assert "show stash@{{{0}" == "show stash@{{" + "{0}";
    assert "show stash@{{" == "show stash@" + "{{";
  }

  lemma AfterVersionTextsFormat(args: seq<string>)
    ensures Format("show stash@", args) == Success("show stash@")
    ensures Format(":\"", args) == Success(":\"")
    ensures Format("\" > ", args) == Success("\" > ")
  {
    ShowLeadFormats(args);
    PathQuoteFormats(args);
    RedirectFormats(args);
  }

  lemma AfterVersionPiecesRender(id: int, path: string, destination: string)
    ensures Format("show stash@" + "{{" + "{0}" + "}}" + ":\"" + "{1}" + "\" > " + "{2}", [IntToString(id), path, destination]) == Success("show stash@" + "{" + IntToString(id) + "}" + ":\"" + path + "\" > " + destination)
  {
    var n := IntToString(id);
    var args := [n, path, destination];
    AfterVersionTextsFormat(args);
    FormatEscapes(args);
    FormatSingleItem("{0}", args);
    FormatSingleItem("{1}", args);
    FormatSingleItem("{2}", args);
    FormatThen("show stash@", "{{", args);
    FormatThen("show stash@" + "{{", "{0}", args);
    FormatThen("show stash@" + "{{" + "{0}", "}}", args);
    FormatThen("show stash@" + "{{" + "{0}" + "}}", ":\"", args);
    FormatThen("show stash@" + "{{" + "{0}" + "}}" + ":\"", "{1}", args);
    FormatThen("show stash@" + "{{" + "{0}" + "}}" + ":\"" + "{1}", "\" > ", args);
    FormatThen("show stash@" + "{{" + "{0}" + "}}" + ":\"" + "{1}" + "\" > ", "{2}", args);
  }

  lemma AfterVersionRenders(id: int, path: string, destination: string)
    ensures Format(AfterStashFileVersionSaveTempFormatted, [IntToString(id), path, destination]) == Success("show stash@" + "{" + IntToString(id) + "}" + ":\"" + path + "\" > " + destination)
  {
    AfterVersionTemplatePieces();
    AfterVersionPiecesRender(id, path, destination);
  }

  /** `string.Format(AfterStashFileVersionSaveTempFormatted, id, path, destination)`:
      writes the file as the stash commit holds it (path quoted) to `destination`. */
  function AfterVersionCommand(id: int, path: string, destination: string): (command: string)
    ensures Format(AfterStashFileVersionSaveTempFormatted, [IntToString(id), path, destination]) == Success(command)
  {
    AfterVersionRenders(id, path, destination);
    "show stash@" + "{" + IntToString(id) + "}" + ":\"" + path + "\" > " + destination
  }

  lemma BeforeVersionTemplatePieces()
    ensures BeforeStashFileVersionSaveTempFormatted == "show stash@" + "{{" + "{0}" + "}}" + "^^:\"" + "{1}" + "\" > " + "{2}"
  {
    assert "show stash@{{{0}}}^^:\"{1}\" > {2}" == "show stash@{{{0}}}^^:\"{1}\" > " + "{2}";
    assert "show stash@{{{0}}}^^:\"{1}\" > " == "show stash@{{{0}}}^^:\"{1}" + "\" > ";
    assert "show stash@{{{0}}}^^:\"{1}" == "show stash@{{{0}}}^^:\"" + "{1}";
    assert "show stash@{{{0}}}^^:\"" == "show stash@{{{0}}}" + "^^:\"";
    assert "show stash@{{{0}}}" == "show stash@{{{0}" + "}}";
    assert "show stash@{{{0}" == "show stash@{{" + "{0}";
    assert "show stash@{{" == "show stash@" + "{{";
  }

  lemma BeforeVersionTextsFormat(args: seq<string>)
    ensures Format("show stash@", args) == Success("show stash@")
    ensures Format("^^:\"", args) == Success("^^:\"")
    ensures Format("\" > ", args) == Success("\" > ")
  {
    ShowLeadFormats(args);
    ParentPathQuoteFormats(args);
    RedirectFormats(args);
  }

  lemma BeforeVersionPiecesRender(id: int, path: string, destination: string)
    ensures Format("show stash@" + "{{" + "{0}" + "}}" + "^^:\"" + "{1}" + "\" > " + "{2}", [IntToString(id), path, destination]) == Success("show stash@" + "{" + IntToString(id) + "}" + "^^:\"" + path + "\" > " + destination)
  {
    var n := IntToString(id);
    var args := [n, path, destination];
    BeforeVersionTextsFormat(args);
    FormatEscapes(args);
    FormatSingleItem("{0}", args);
    FormatSingleItem("{1}", args);
    FormatSingleItem("{2}", args);
    FormatThen("show stash@", "{{", args);
    FormatThen("show stash@" + "{{", "{0}", args);
    FormatThen("show stash@" + "{{" + "{0}", "}}", args);
    FormatThen("show stash@" + "{{" + "{0}" + "}}", "^^:\"", args);
    FormatThen("show stash@" + "{{" + "{0}" + "}}" + "^^:\"", "{1}", args);
    FormatThen("show stash@" + "{{" + "{0}" + "}}" + "^^:\"" + "{1}", "\" > ", args);
    FormatThen("show stash@" + "{{" + "{0}" + "}}" + "^^:\"" + "{1}" + "\" > ", "{2}", args);
  }

  lemma BeforeVersionRenders(id: int, path: string, destination: string)
    ensures Format(BeforeStashFileVersionSaveTempFormatted, [IntToString(id), path, destination]) == Success("show stash@" + "{" + IntToString(id) + "}" + "^^:\"" + path + "\" > " + destination)
  {
    BeforeVersionTemplatePieces();
    BeforeVersionPiecesRender(id, path, destination);
  }

  /** `string.Format(BeforeStashFileVersionSaveTempFormatted, id, path, destination)`:
      the file at revision "stash@{N}^^" of the template, passed to git as
      written, redirected to `destination`. */
  function BeforeVersionCommand(id: int, path: string, destination: string): (command: string)
    ensures Format(BeforeStashFileVersionSaveTempFormatted, [IntToString(id), path, destination]) == Success(command)
  {
    BeforeVersionRenders(id, path, destination);
    "show stash@" + "{" + IntToString(id) + "}" + "^^:\"" + path + "\" > " + destination
  }

  lemma FileDiffTemplatePieces()
    ensures StashFileDiffFormatted == "difftool --trust-exit-code -y -x \"'" + "{0}" + "' //t\" stash@" + "{{" + "{1}" + "}}" + "^^ stash@" + "{{" + "{1}" + "}}" + " -- " + "{2}"
  {
    FileDiffHeadPieces();
    FileDiffTailPieces();
  }

  lemma FileDiffHeadPieces()
    ensures "difftool --trust-exit-code -y -x \"'{0}' //t\" stash@{{{1}}}" == "difftool --trust-exit-code -y -x \"'" + "{0}" + "' //t\" stash@" + "{{" + "{1}" + "}}"
  {
    assert "difftool --trust-exit-code -y -x \"'{0}' //t\" stash@{{{1}}}" == "difftool --trust-exit-code -y -x \"'{0}' //t\" stash@{{{1}" + "}}";
    assert "difftool --trust-exit-code -y -x \"'{0}' //t\" stash@{{{1}" == "difftool --trust-exit-code -y -x \"'{0}' //t\" stash@{{" + "{1}";
    assert "difftool --trust-exit-code -y -x \"'{0}' //t\" stash@{{" == "difftool --trust-exit-code -y -x \"'{0}' //t\" stash@" + "{{";
    assert "difftool --trust-exit-code -y -x \"'{0}' //t\" stash@" == "difftool --trust-exit-code -y -x \"'{0}" + "' //t\" stash@";
    assert "difftool --trust-exit-code -y -x \"'{0}" == "difftool --trust-exit-code -y -x \"'" + "{0}";
  }

  lemma FileDiffTailPieces()
    ensures "difftool --trust-exit-code -y -x \"'{0}' //t\" stash@{{{1}}}^^ stash@{{{1}}} -- {2}" == "difftool --trust-exit-code -y -x \"'{0}' //t\" stash@{{{1}}}" + "^^ stash@" + "{{" + "{1}" + "}}" + " -- " + "{2}"
  {
    assert "difftool --trust-exit-code -y -x \"'{0}' //t\" stash@{{{1}}}^^ stash@{{{1}}} -- {2}" == "difftool --trust-exit-code -y -x \"'{0}' //t\" stash@{{{1}}}^^ stash@{{{1}}} -- " + "{2}";
    assert "difftool --trust-exit-code -y -x \"'{0}' //t\" stash@{{{1}}}^^ stash@{{{1}}} -- " == "difftool --trust-exit-code -y -x \"'{0}' //t\" stash@{{{1}}}^^ stash@{{{1}}}" + " -- ";
    assert "difftool --trust-exit-code -y -x \"'{0}' //t\" stash@{{{1}}}^^ stash@{{{1}}}" == "difftool --trust-exit-code -y -x \"'{0}' //t\" stash@{{{1}}}^^ stash@{{{1}" + "}}";
    assert "difftool --trust-exit-code -y -x \"'{0}' //t\" stash@{{{1}}}^^ stash@{{{1}" == "difftool --trust-exit-code -y -x \"'{0}' //t\" stash@{{{1}}}^^ stash@{{" + "{1}";
    assert "difftool --trust-exit-code -y -x \"'{0}' //t\" stash@{{{1}}}^^ stash@{{" == "difftool --trust-exit-code -y -x \"'{0}' //t\" stash@{{{1}}}^^ stash@" + "{{";
    assert "difftool --trust-exit-code -y -x \"'{0}' //t\" stash@{{{1}}}^^ stash@" == "difftool --trust-exit-code -y -x \"'{0}' //t\" stash@{{{1}}}" + "^^ stash@";
  }

  lemma FileDiffLeadFormats(args: seq<string>)
    ensures Format("difftool --trust-exit-code -y -x \"'", args) == Success("difftool --trust-exit-code -y -x \"'")
  {
    FormatText("difftool --trust-exit-code -y -x \"'", args);
  }

  lemma FileDiffToolEndFormats(args: seq<string>)
    ensures Format("' //t\" stash@", args) == Success("' //t\" stash@")
  {
    FormatText("' //t\" stash@", args);
  }

  lemma FileDiffBetweenFormats(args: seq<string>)
    ensures Format("^^ stash@", args) == Success("^^ stash@")
  {
    FormatText("^^ stash@", args);
  }

  lemma FileDiffPathLeadFormats(args: seq<string>)
    ensures Format(" -- ", args) == Success(" -- ")
  {
    FormatText(" -- ", args);
  }

  lemma FileDiffTextsFormat(args: seq<string>)
    ensures Format("difftool --trust-exit-code -y -x \"'", args) == Success("difftool --trust-exit-code -y -x \"'")
    ensures Format("' //t\" stash@", args) == Success("' //t\" stash@")
    ensures Format("^^ stash@", args) == Success("^^ stash@")
    ensures Format(" -- ", args) == Success(" -- ")
  {
    FileDiffLeadFormats(args);
    FileDiffToolEndFormats(args);
    FileDiffBetweenFormats(args);
    FileDiffPathLeadFormats(args);
  }

  lemma FileDiffPiecesRender(tool: string, id: int, path: string)
    ensures Format("difftool --trust-exit-code -y -x \"'" + "{0}" + "' //t\" stash@" + "{{" + "{1}" + "}}" + "^^ stash@" + "{{" + "{1}" + "}}" + " -- " + "{2}", [tool, IntToString(id), path]) == Success("difftool --trust-exit-code -y -x \"'" + tool + "' //t\" stash@" + "{" + IntToString(id) + "}" + "^^ stash@" + "{" + IntToString(id) + "}" + " -- " + path)
  {
    var n := IntToString(id);
    var args := [tool, n, path];
    FileDiffTextsFormat(args);
    FormatEscapes(args);
    FormatSingleItem("{0}", args);
    FormatSingleItem("{1}", args);
    FormatSingleItem("{2}", args);
    FormatThen("difftool --trust-exit-code -y -x \"'", "{0}", args);
    FormatThen("difftool --trust-exit-code -y -x \"'" + "{0}", "' //t\" stash@", args);
    FormatThen("difftool --trust-exit-code -y -x \"'" + "{0}" + "' //t\" stash@", "{{", args);
    FormatThen("difftool --trust-exit-code -y -x \"'" + "{0}" + "' //t\" stash@" + "{{", "{1}", args);
    FormatThen("difftool --trust-exit-code -y -x \"'" + "{0}" + "' //t\" stash@" + "{{" + "{1}", "}}", args);
    FormatThen("difftool --trust-exit-code -y -x \"'" + "{0}" + "' //t\" stash@" + "{{" + "{1}" + "}}", "^^ stash@", args);
    FormatThen("difftool --trust-exit-code -y -x \"'" + "{0}" + "' //t\" stash@" + "{{" + "{1}" + "}}" + "^^ stash@", "{{", args);
    FormatThen("difftool --trust-exit-code -y -x \"'" + "{0}" + "' //t\" stash@" + "{{" + "{1}" + "}}" + "^^ stash@" + "{{", "{1}", args);
    FormatThen("difftool --trust-exit-code -y -x \"'" + "{0}" + "' //t\" stash@" + "{{" + "{1}" + "}}" + "^^ stash@" + "{{" + "{1}", "}}", args);
    FormatThen("difftool --trust-exit-code -y -x \"'" + "{0}" + "' //t\" stash@" + "{{" + "{1}" + "}}" + "^^ stash@" + "{{" + "{1}" + "}}", " -- ", args);
    FormatThen("difftool --trust-exit-code -y -x \"'" + "{0}" + "' //t\" stash@" + "{{" + "{1}" + "}}" + "^^ stash@" + "{{" + "{1}" + "}}" + " -- ", "{2}", args);
  }

  lemma FileDiffRenders(tool: string, id: int, path: string)
    ensures Format(StashFileDiffFormatted, [tool, IntToString(id), path]) == Success("difftool --trust-exit-code -y -x \"'" + tool + "' //t\" stash@" + "{" + IntToString(id) + "}" + "^^ stash@" + "{" + IntToString(id) + "}" + " -- " + path)
  {
    FileDiffTemplatePieces();
    FileDiffPiecesRender(tool, id, path);
  }

  /** The diff template formatted with the three arguments it declares
      (diff tool, id, path): both revisions name stash `id`, the first one
      with the template's "^^" suffix, passed to git as written. */
  function FileDiffCommand(tool: string, id: int, path: string): (command: string)
    ensures Format(StashFileDiffFormatted, [tool, IntToString(id), path]) == Success(command)
  {
    FileDiffRenders(tool, id, path);
    "difftool --trust-exit-code -y -x \"'" + tool + "' //t\" stash@" + "{" + IntToString(id) + "}" + "^^ stash@" + "{" + IntToString(id) + "}" + " -- " + path
  }

  lemma FileDiffPiecesWithTwoArguments(id: int, path: string)
    ensures Format("difftool --trust-exit-code -y -x \"'" + "{0}" + "' //t\" stash@" + "{{" + "{1}" + "}}" + "^^ stash@" + "{{" + "{1}" + "}}" + " -- " + "{2}", [IntToString(id), path]) == Failure(IndexOutOfRange)
  {
    var args := [IntToString(id), path];
    FileDiffTextsFormat(args);
    FormatEscapes(args);
    FormatSingleItem("{0}", args);
    FormatSingleItem("{1}", args);
    FormatSingleItemOutOfRange("{2}", args);
    FormatThen("difftool --trust-exit-code -y -x \"'", "{0}", args);
    FormatThen("difftool --trust-exit-code -y -x \"'" + "{0}", "' //t\" stash@", args);
    FormatThen("difftool --trust-exit-code -y -x \"'" + "{0}" + "' //t\" stash@", "{{", args);
    FormatThen("difftool --trust-exit-code -y -x \"'" + "{0}" + "' //t\" stash@" + "{{", "{1}", args);
    FormatThen("difftool --trust-exit-code -y -x \"'" + "{0}" + "' //t\" stash@" + "{{" + "{1}", "}}", args);
    FormatThen("difftool --trust-exit-code -y -x \"'" + "{0}" + "' //t\" stash@" + "{{" + "{1}" + "}}", "^^ stash@", args);
    FormatThen("difftool --trust-exit-code -y -x \"'" + "{0}" + "' //t\" stash@" + "{{" + "{1}" + "}}" + "^^ stash@", "{{", args);
    FormatThen("difftool --trust-exit-code -y -x \"'" + "{0}" + "' //t\" stash@" + "{{" + "{1}" + "}}" + "^^ stash@" + "{{", "{1}", args);
    FormatThen("difftool --trust-exit-code -y -x \"'" + "{0}" + "' //t\" stash@" + "{{" + "{1}" + "}}" + "^^ stash@" + "{{" + "{1}", "}}", args);
    FormatThen("difftool --trust-exit-code -y -x \"'" + "{0}" + "' //t\" stash@" + "{{" + "{1}" + "}}" + "^^ stash@" + "{{" + "{1}" + "}}", " -- ", args);
    FormatConcat("difftool --trust-exit-code -y -x \"'" + "{0}" + "' //t\" stash@" + "{{" + "{1}" + "}}" + "^^ stash@" + "{{" + "{1}" + "}}" + " -- ", "{2}", args);
  }

  /** The diff template formatted with two arguments (id, path), as the
      extension does: item {2} has no argument, so `String.Format` throws
      for every id and path. */
  lemma FileDiffWithTwoArgumentsThrows(id: int, path: string)
    ensures Format(StashFileDiffFormatted, [IntToString(id), path]) == Failure(IndexOutOfRange)
  {
    FileDiffTemplatePieces();
    FileDiffPiecesWithTwoArguments(id, path);
  }

  /** Distinct stash references render distinctly. */
  lemma StashRefCancels(p: string, x: string, y: string)
    requires p + "{" + x + "}" == p + "{" + y + "}"
    ensures x == y
  {
    var a := p + "{" + x + "}";
    assert |x| == |y|;
    assert x == a[|p| + 1..|p| + 1 + |x|];
  }

  /** Distinct stash ids give distinct apply commands. */
  lemma ApplyCommandInjective(a: int, b: int)
    requires ApplyCommand(a) == ApplyCommand(b)
    ensures a == b
  {
    StashRefCancels("stash apply stash@", IntToString(a), IntToString(b));
    IntToStringInjective(a, b);
  }

  /** Distinct stash ids give distinct drop commands: a drop never removes
      a stash other than the one named. */
  lemma DropCommandInjective(a: int, b: int)
    requires DropCommand(a) == DropCommand(b)
    ensures a == b
  {
    StashRefCancels("stash drop stash@", IntToString(a), IntToString(b));
    IntToStringInjective(a, b);
  }

  /** The after dump names revision "stash@{N}" and the before dump
      "stash@{N}^^", so for the same file and destination they differ. */
  lemma BeforeAndAfterDumpsDiffer(id: int, path: string, destination: string)
    ensures BeforeVersionCommand(id, path, destination) != AfterVersionCommand(id, path, destination)
  {
    var k := |"show stash@" + "{" + IntToString(id) + "}"|;
    assert BeforeVersionCommand(id, path, destination)[k] == '^';
    assert AfterVersionCommand(id, path, destination)[k] == ':';
  }
}
