/**
 * The decisions `main` makes (src/main.rs) once clap has parsed the command
 * line: the output format, the client's credentials, and which single
 * operation to run with which arguments. Running the operation, printing and
 * the exit status are outside this model.
 */
module Dispatch {
  import opened Wrappers
  import FileModel
  import FileOperations
  import Auth

  datatype OutputFormat = Debug | Json

  /**
   * The `file` sub-command as clap parsed it. `downloadToPathPresent` is
   * `is_present("downloadToPath")`, `downloadToPath` its `value_of`.
   */
  datatype FileArgs = FileArgs(
    fileId: string,
    delete: bool,
    downloadToPathPresent: bool,
    downloadToPath: Option<string>,
    name: Option<string>,
    description: Option<string>)

  datatype Subcommand =
    | FileCommand(file: FileArgs)
    | UploadCommand(path: string, folderId: Option<string>)
    | UserCommand(userId: Option<string>)
    /**
     * No sub-command. clap's `SubcommandRequiredElseHelp` prints help and
     * exits before the token is read, so `get_matches` never produces this;
     * it stands for the last arm of `main`'s match.
     */
    | NoSubcommand

  /** What `app.get_matches()` returned. */
  datatype Matches = Matches(token: Option<string>, json: bool, subcommand: Subcommand)

  /** The one operation an invocation runs. */
  datatype Action =
    | GetFile(id: string)
    | DeleteFile(id: string)
    | DownloadFile(id: string, path: string)
    | UpdateFile(id: string, updates: FileModel.FileUpdates)
    | UploadFile(localPath: string, folderId: string)
    | GetUser(userId: string)
    | NoAction

  /** `Context`: the client (here, its credentials) and the output format. */
  datatype Context = Context(auth: Auth.SingleTokenAuth, format: OutputFormat)

  /** The result of `main`'s decisions: a panic before anything runs, or a context and an action. */
  datatype Plan = Abort(message: string) | Run(context: Context, action: Action)

  const MissingTokenMessage := "Token must be provided!"
  const DefaultDownloadPath := "."
  const DefaultFolderId := "0"
  const DefaultUserId := "me"

  /** JSON output exactly when `--json` was given. */
  function ChooseFormat(json: bool): (f: OutputFormat)
    ensures f == Json <==> json
    ensures f == Debug <==> !json
  {
    if json then Json else Debug
  }

  /**
   * The updates of the update action: start from `FileUpdates::new()` and
   * set each field that was given on the command line.
   */
  function BuildUpdates(name: Option<string>, description: Option<string>): (u: FileModel.FileUpdates)
    ensures u.name == name
    ensures u.description == description
  {
    var updates := FileModel.NewUpdates();
    var updates := if name.Some? then FileModel.WithName(updates, name.value) else updates;
    if description.Some? then FileModel.WithDescription(updates, description.value) else updates
  }

  /**
   * Whether clap reports the `update` group present: one of its arguments was
   * given, which is exactly when the update built from the flags sets a field.
   */
  predicate UpdateGroupPresent(args: FileArgs): (present: bool)
    ensures present <==> BuildUpdates(args.name, args.description) != FileModel.NewUpdates()
    ensures !present ==> args.name.None? && args.description.None?
  {
    args.name.Some? || args.description.Some?
  }

  /** The action of the `file` sub-command: delete, else download, else update, else get. */
  function FileAction(args: FileArgs): (a: Action)
    ensures a.DeleteFile? <==> args.delete
    ensures a.DownloadFile? <==> !args.delete && args.downloadToPathPresent
    ensures a.UpdateFile? <==> !args.delete && !args.downloadToPathPresent && UpdateGroupPresent(args)
    ensures a.GetFile? <==> !args.delete && !args.downloadToPathPresent && !UpdateGroupPresent(args)
    ensures a.DownloadFile? ==>
              a.path == (if args.downloadToPath.Some? then args.downloadToPath.value else DefaultDownloadPath)
    ensures a.UpdateFile? ==> a.updates.name == args.name && a.updates.description == args.description
    ensures a.id == args.fileId
  {
    if args.delete then DeleteFile(args.fileId)
    else if args.downloadToPathPresent then
      DownloadFile(args.fileId, if args.downloadToPath.Some? then args.downloadToPath.value else DefaultDownloadPath)
    else if UpdateGroupPresent(args) then UpdateFile(args.fileId, BuildUpdates(args.name, args.description))
    else GetFile(args.fileId)
  }

  /** The action of an invocation, by sub-command. */
  function ChooseAction(sub: Subcommand): (a: Action)
    ensures sub.FileCommand? ==> a == FileAction(sub.file)
    ensures a.UploadFile? <==> sub.UploadCommand?
    ensures a.GetUser? <==> sub.UserCommand?
    ensures sub.UploadCommand? ==> a.localPath == sub.path
    ensures sub.UploadCommand? && sub.folderId.Some? ==> a.folderId == sub.folderId.value
    ensures sub.UploadCommand? && sub.folderId.None? ==> a.folderId == "0"
    ensures sub.UserCommand? && sub.userId.Some? ==> a.userId == sub.userId.value
    ensures sub.UserCommand? && sub.userId.None? ==> a.userId == "me"
    ensures sub.NoSubcommand? <==> a.NoAction?
  {
    match sub
    case FileCommand(args) => FileAction(args)
    // `value_of("folderID").unwrap_or("0")`
    case UploadCommand(path, folderId) => UploadFile(path, if folderId.Some? then folderId.value else DefaultFolderId)
    // clap's `default_value("me")` on the user id
    case UserCommand(userId) => GetUser(if userId.Some? then userId.value else DefaultUserId)
    case NoSubcommand => NoAction
  }

  /**
   * `main`: without a token it panics with "Token must be provided!";
   * otherwise it builds the context from the token and `--json` and runs
   * the action of the sub-command.
   */
  function Decide(m: Matches): (p: Plan)
    ensures p.Abort? <==> m.token.None?
    ensures p.Abort? ==> p.message == MissingTokenMessage
    ensures p.Run? ==>
              && p.context.auth.token.AsStr() == m.token.value
              && (p.context.format == Json <==> m.json)
              && p.action == ChooseAction(m.subcommand)
  {
    match m.token
    case None => Abort(MissingTokenMessage)
    case Some(token) => Run(Context(Auth.NewSingleTokenAuth(token), ChooseFormat(m.json)), ChooseAction(m.subcommand))
  }

  /**
   * The request that `get_file`, `delete_file`, `download_file` and
   * `update_file` have the file operation send for a `file` action; the
   * other actions send none of these.
   */
  function FileRequest(a: Action): (r: Option<FileOperations.Request>)
    ensures r.Some? <==> a.GetFile? || a.DeleteFile? || a.DownloadFile? || a.UpdateFile?
    ensures r.Some? ==> |FileOperations.FilesEndpoint| <= |r.value.url| && r.value.url[..|FileOperations.FilesEndpoint|] == FileOperations.FilesEndpoint
    ensures r.Some? ==> (r.value.body.Some? <==> a.UpdateFile?)
  {
    match a
    case GetFile(id) => Some(FileOperations.FileOperation(id).GetRequest())
    case DeleteFile(id) => Some(FileOperations.FileOperation(id).DeleteRequest())
    case DownloadFile(id, _) => Some(FileOperations.FileOperation(id).DownloadRequest())
    case UpdateFile(id, updates) => Some(FileOperations.FileOperation(id).UpdateRequest(updates))
    case _ => None
  }

  /**
   * End to end for the `file` sub-command: `-D` deletes the file URL of the
   * given id; `--download-to` fetches its content URL; a name or description
   * puts the file URL with exactly those fields as the body; and with no
   * action flag and no update the file URL is fetched.
   */
  lemma FileFlagsChooseTheRequest(args: FileArgs)
    ensures args.delete ==>
              FileRequest(FileAction(args)) == Some(FileOperations.Request(FileOperations.Delete, FileOperations.FileUrl(args.fileId), None))
    ensures !args.delete && !args.downloadToPathPresent && !UpdateGroupPresent(args) ==>
              FileRequest(FileAction(args)) == Some(FileOperations.Request(FileOperations.Get, FileOperations.FileUrl(args.fileId), None))
    ensures !args.delete && args.downloadToPathPresent ==>
              FileRequest(FileAction(args)) == Some(FileOperations.Request(FileOperations.Get, FileOperations.ContentUrl(args.fileId), None))
    ensures !args.delete && !args.downloadToPathPresent && UpdateGroupPresent(args) ==>
              var r := FileRequest(FileAction(args)).value;
              r.verb == FileOperations.Put && r.url == FileOperations.FileUrl(args.fileId) &&
              r.body == Some(FileModel.FileUpdates(args.description, args.name))
  {
  }

  /** Delete wins over every other flag of the `file` sub-command. */
  lemma DeleteTakesPriority(args: FileArgs)
    requires args.delete
    ensures FileAction(args) == DeleteFile(args.fileId)
  {
  }

  /**
   * The update sent for `--name n --description d` is the one the builders
   * make from `FileUpdates::new()`, in either order.
   */
  lemma UpdateIsBuiltFromFlags(args: FileArgs)
    requires !args.delete && !args.downloadToPathPresent && args.name.Some? && args.description.Some?
    ensures FileAction(args).updates ==
              FileModel.WithDescription(FileModel.WithName(FileModel.NewUpdates(), args.name.value), args.description.value)
    ensures FileAction(args).updates ==
              FileModel.WithName(FileModel.WithDescription(FileModel.NewUpdates(), args.description.value), args.name.value)
  {
    FileModel.SettersCommute(FileModel.NewUpdates(), args.name.value, args.description.value);
  }

  /** Every request the planned client sends is authorised with the token from the command line. */
  lemma PlannedClientUsesTheGivenToken(m: Matches)
    requires m.token.Some?
    ensures Decide(m).context.auth.Token().0 == Ok(Auth.TokenFrom(m.token.value))
  {
  }
}
