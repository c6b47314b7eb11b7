# bx: a model of the Box command-line client's core

`bx` is a small command-line client for the Box REST API. This project models,
in Dafny, the parts of it that decide something, and proves what they promise:

- the **command router** (`Router`): a trie whose keys are single route
  segments, identified by the bytes of their text, and whose values are
  optional commands; `add` inserts `None` for every segment of a command's
  route but the last, then the command for the last;
- the **dispatch decisions of `main`** (`Dispatch`): output format from
  `--json`, the credentials of the client, and which operation the `file`,
  `upload` and `user` sub-commands run, with their defaults;
- the **SDK error taxonomy** (`SdkError`): the error variants, their
  `From` conversions, `Display` messages and `source`;
- **static authentication** (`Auth`): the access-token newtype and the
  single-token provider;
- **file operations** (`FileOperations`, `FileModel`): the update builder,
  the request each file operation sends, and the download loop that writes a
  streamed body to a new local file (over an in-memory file system);
- the **wire names of the model enums** (`FileModel`, `SharedLink`,
  `SerdeRename`): `ItemStatus`, `SharedLinkAccess` and
  `SharedLinkPermission`, with serde's `lowercase` and `snake_case` rules.

Files: `wrappers.dfy` (Option, Result), `utf8.dfy` (the bytes of a string),
`router.dfy`, `dispatch.dfy`, `sdk_error.dfy`, `auth.dfy`,
`file_operations.dfy`, `file_model.dfy`, `shared_link.dfy`,
`serde_rename.dfy`.

## How the model reads the code

- **Router keys.** `radix_trie` identifies a key by `TrieKey::encode_bytes`.
  For `RouteSegment` that is the UTF-8 bytes of the text, for a literal and a
  variable alike, so the trie is modelled as a map from those bytes to
  `Option<Cmd>`. Consequences the model proves: `Literal(s)` and `Variable(s)`
  encode alike; a release build then replaces the entry, a debug build panics
  in `radix_trie`'s key check (`AddOverwritesSameText` follows release builds), and two segments are the same
  key exactly when their texts are equal (`SameKeyIffSameText`, from UTF-8
  being injective). Keys are single segments, not paths: `["file", "delete"]`
  and `["folder", "delete"]` share the key `delete`, and the second `add`
  replaces the first command there.
- **What the router does not do.** It keys on single segments, does not tell
  literals from variables, silently replaces an existing entry, and has no
  lookup; the model defines none.
- **Empty routes.** `add` computes `len - 1` on an unsigned `usize`. In a
  debug build that subtraction panics; in a release build it wraps to
  `usize::MAX`, and the loop's `route_segments.get(0).unwrap()` panics on the
  empty route, so the insertion of the last segment is never reached. Either
  way an empty route panics; `Router.Add` requires a
  non-empty route. The command is an abstract type `Cmd`; its route
  (`Command::route`) is the function `routeOf`.
- **Missing token.** `main` panics with "Token must be provided!" when no token
  was given; `Dispatch.Decide` returns `Abort` with that message rather than
  requiring a token.
- **No sub-command.** clap's `SubcommandRequiredElseHelp` (src/main.rs:43)
  prints help and exits before the token is read, so `get_matches` never
  returns without a sub-command; `Subcommand.NoSubcommand` stands for the
  final arm of `main`'s match, which the program never reaches, and
  `Decide` on it is an outcome the program does not produce.
- **Absent update fields.** A `None` field of `FileUpdates` is a flag that was
  not given; both structs derive `Serialize` without `skip_serializing_if`, so
  it is sent as JSON `null`, not left out of the body.
- **Two `FileUpdates`.** src/sdk/models/file.rs borrows its strings and
  src/sdk/operations/file.rs owns them; otherwise fields and builders are the
  same, and one datatype models both.
- **Download errors.** `download` applies `?` to file-system errors, but the
  SDK error type declares no conversion from `std::io::Error` (and
  src/sdk/mod.rs does not declare the `operations` module, so
  src/sdk/operations/file.rs is not compiled as it stands). The model keeps
  the one file-system failure it covers, an existing destination, as a
  separate `FileIo` alternative beside the SDK error.
- **From action to request.** `main`'s helpers call `ctx.client.file(id)`,
  `ctx.client.upload_file(path, folder_id)` and `ctx.client.user(id)`;
  `Client` in src/sdk/client.rs defines none of the three. The model takes
  `file(id)` to be the `FileOperation` of src/sdk/operations/file.rs for that
  id. By the same reading, `user(id)` is the `UserOperation` of
  src/sdk/operations/user.rs, whose `get` sends a GET of the root-relative
  `"/users/{id}"`; the model stops at the chosen `GetUser` action (see
  "## Left out"). For upload no source text says what request would be sent
  (`Client` has only an unrelated `multipart_upload`), so the model stops at
  the chosen `UploadFile` action.
- **Library errors.** `reqwest::Error`, `serde_json::Error`,
  `url::ParseError` and the two `http` header errors are opaque values that
  carry the text their own `Display` prints; `http::Error` displays the error
  it wraps.

## Model

| member | source | states |
|---|---|---|
| `Utf8.EncodeInjective` | src/cli/router.rs:13-14 | the bytes `as_bytes` gives determine the text: equal encodings mean equal strings |
| `Utf8.EncodeAscii` | src/cli/router.rs:13-14 | an ASCII text's bytes are its characters' codes, one byte each |
| `Utf8.Encode` | src/cli/router.rs:13-14 | `str::as_bytes`: the UTF-8 bytes of each character in order, at least one per character, empty exactly for the empty string |
| `Router.EncodeBytes` | src/cli/router.rs:11-16 | a segment's key is the UTF-8 encoding of its text, whether literal or variable |
| `Router.LiteralAndVariableCollide` | src/cli/router.rs:11-16 | `Literal(s)` and `Variable(s)` encode to the same bytes |
| `Router.SameKeyIffSameText` | src/cli/router.rs:10-16 | two segments are one trie key if and only if their texts are equal |
| `Router.InsertNonesAt` | src/cli/router.rs:32-35 | the loop's insertions set each visited key to `None`, leave other keys and the key set otherwise unchanged |
| `Router.AddSetsLast` | src/cli/router.rs:36-37 | after `add`, the route's last segment maps to `Some(cmd)` |
| `Router.AddClearsPrefix` | src/cli/router.rs:32-35 | after `add`, every earlier segment whose key differs from the last maps to `None`, even if it held a command before |
| `Router.AddRepeatedLastWins` | src/cli/router.rs:32-37 | a segment both earlier in the route and last ends up with `Some(cmd)`: last write wins |
| `Router.AddFrame` | src/cli/router.rs:29-38 | keys outside the route keep their values; the key set grows by exactly the route's keys |
| `Router.AddOverwritesSameText` | src/cli/router.rs:36-37 | adding a route whose last segment has text `s` replaces the entry of any segment with text `s`, literal or variable |
| `Router.Router.constructor` | src/cli/router.rs:24-28 | a new router's trie is empty |
| `Router.Router.Add` | src/cli/router.rs:29-38 | needs a non-empty route; the new trie is the old one after the `None` insertions and the final `Some(cmd)`, with the last key set to the command and the key set grown by the route's keys |
| `Dispatch.ChooseFormat` | src/main.rs:133-137 | output is JSON exactly when `--json` is present, otherwise Debug |
| `Dispatch.BuildUpdates` | src/main.rs:153-160 | the update has its name set iff `--name` was given and its description iff `--description` was, with the given values |
| `Dispatch.UpdateGroupPresent` | src/main.rs:83-88 | the `update` group (tested by `is_present("update")` in `main`) is present exactly when `--name` or `--description` was given, that is when the update built from the flags sets a field |
| `Dispatch.FileAction` | src/main.rs:141-165 | delete iff `-D`; download iff no delete and `--download-to` present, path defaulting to "."; update iff neither and a name or description given; otherwise get; always on the given file id |
| `Dispatch.ChooseAction` | src/main.rs:141-177 | `file` uses the file action; `upload` uploads the given path, to the given folder id or to "0" when `--folder-id` is absent; `user` gets the given id or "me"; the action kind matches the sub-command, and no sub-command runs nothing |
| `Dispatch.Decide` | src/main.rs:127-138 | aborts with "Token must be provided!" exactly when no token is given; otherwise the client holds that token, the format follows `--json` and the action follows the sub-command |
| `Dispatch.DeleteTakesPriority` | src/main.rs:145-146 | with `-D`, delete is chosen whatever the other flags |
| `Dispatch.UpdateIsBuiltFromFlags` | src/main.rs:152-160 | the update sent is `new().name(n).description(d)`, equal to setting them in the other order |
| `Dispatch.FileRequest` | src/main.rs:182-208 | only the four `file` actions send a file request; each targets a URL under the files endpoint, and only the update carries a body |
| `Dispatch.FileFlagsChooseTheRequest` | src/main.rs:141-208 | the `file` flags pick the request: DELETE of the file URL for `-D`, GET of the content URL for `--download-to`, PUT of the file URL with the given name and description, else GET of the file URL |
| `Dispatch.PlannedClientUsesTheGivenToken` | src/sdk/client.rs:19-25 | the context's provider answers with the token given on the command line |
| `SdkError.HttpError.Message` | src/sdk/error.rs:19 | `http::Error`'s Display: the message of the header-name or header-value error it wraps |
| `SdkError.Display` | src/sdk/error.rs:12-22 | "Authentication error" for `Auth`; otherwise the variant's prefix ("Network error: ", "Deserialiazation error: ", "Invalid URL: ", "Invalid header: ") followed by the inner error's message |
| `SdkError.DisplayDeterminesVariant` | src/sdk/error.rs:12-22 | equal messages come from the same variant and inner messages: the prefixes tell the variants apart |
| `SdkError.Source` | src/sdk/error.rs:24-34 | `source` is absent exactly for `Auth`; for every other variant it is the wrapped library error |
| `SdkError.FromReqwest` | src/sdk/error.rs:36-40 | a reqwest error becomes `Network` wrapping that error |
| `SdkError.FromJson` | src/sdk/error.rs:42-46 | a serde_json error becomes `Deserialize` wrapping that error |
| `SdkError.FromUrlParse` | src/sdk/error.rs:48-52 | a URL parse error becomes `InvalidURL` wrapping that error |
| `SdkError.FromInvalidHeaderName` | src/sdk/error.rs:54-58 | an invalid header name becomes `InvalidHeader` of the `http::Error` built from it |
| `SdkError.FromInvalidHeaderValue` | src/sdk/error.rs:60-64 | an invalid header value becomes `InvalidHeader` of the `http::Error` built from it |
| `SdkError.ConversionsKeepTheCause` | src/sdk/error.rs:24-64 | after each conversion `source` returns the converted error, and the message is the prefix plus that error's message |
| `Auth.AccessToken.AsStr` | src/sdk/auth.rs:6-10 | `as_str` returns the token's text, whole: rewrapping it gives back the same token |
| `Auth.TokenFrom` | src/sdk/auth.rs:4-16 | `AccessToken::from(t).as_str()` is `t` |
| `Auth.TokenFromInjective` | src/sdk/auth.rs:12-16 | two tokens are equal exactly when their texts are |
| `Auth.NewSingleTokenAuth` | src/sdk/auth.rs:27-33 | the provider stores a token whose text is the given string |
| `Auth.SingleTokenAuth.Token` | src/sdk/auth.rs:35-40 | `token()` never fails, returns the stored token and leaves the provider unchanged |
| `Auth.NewThenToken` | src/sdk/auth.rs:27-40 | `SingleTokenAuth::new(t).token()` is Ok with a token whose text is `t` |
| `Auth.TokenRepeatable` | src/sdk/auth.rs:37-39 | asking the provider again gives the same answer |
| `FileModel.NewUpdates` | src/sdk/models/file.rs:15-20 | a new update has neither name nor description |
| `FileModel.WithName` | src/sdk/models/file.rs:27-30 | `name(n)` sets the name to `n` and keeps the description |
| `FileModel.WithDescription` | src/sdk/models/file.rs:22-25 | `description(d)` sets the description to `d` and keeps the name |
| `FileModel.LastSetWins` | src/sdk/operations/file.rs:74-82 | setting the same field twice keeps the last value |
| `FileModel.SettersCommute` | src/sdk/operations/file.rs:74-82 | setting the name and the description commute |
| `FileModel.BuildersReachEveryUpdate` | src/sdk/operations/file.rs:59-83 | every update value is `new()` followed by the builders for its present fields |
| `FileModel.EncodeItemStatus` | src/sdk/models/file.rs:33-39 | the wire names "active", "trashed", "deleted" are serde's lowercase rule applied to the variant names |
| `FileModel.DecodeItemStatus` | src/sdk/models/file.rs:33-39 | decoding accepts exactly the three wire names, and what it returns encodes back to its input |
| `FileModel.ItemStatusRoundTrip` | src/sdk/models/file.rs:33-39 | decoding inverts encoding, and the encoding is injective |
| `SharedLink.EncodeAccess` | src/sdk/models/shared_link.rs:3-9 | "open", "company", "collaborators": the lowercase rule applied to the variant names |
| `SharedLink.DecodeAccess` | src/sdk/models/shared_link.rs:3-9 | decoding accepts exactly those names, and what it returns encodes back to its input |
| `SharedLink.CanDownloadFollowsSnakeCase` | src/sdk/models/shared_link.rs:12-14 | the snake_case rule maps `CanDownload` to "can_download" |
| `SharedLink.CanPreviewFollowsSnakeCase` | src/sdk/models/shared_link.rs:12-15 | the snake_case rule maps `CanPreview` to "can_preview" |
| `SharedLink.EncodePermission` | src/sdk/models/shared_link.rs:11-16 | "can_download", "can_preview": the snake_case rule applied to the variant names |
| `SharedLink.DecodePermission` | src/sdk/models/shared_link.rs:11-16 | decoding accepts exactly those names, and what it returns encodes back to its input |
| `SharedLink.RoundTrips` | src/sdk/models/shared_link.rs:3-16 | for both enums decoding inverts encoding and the encoding is injective |
| `SerdeRename.Lowercase` | src/sdk/models/file.rs:34 | `rename_all = "lowercase"` lower-cases every character and keeps the length |
| `SerdeRename.SnakeCaseOfTwoWords` | src/sdk/models/shared_link.rs:12 | `rename_all = "snake_case"` turns a two-word identifier into the lower-cased words joined by "_" |
| `SerdeRename.SnakeCase` | src/sdk/models/shared_link.rs:12 | serde's `snake_case` rule: the first character of the result is the identifier's first character in lower case, and the result is never shorter than the identifier (where the `_`s go is stated by `SnakeCaseOfTwoWords`) |
| `SerdeRename.SnakeTailHasNoUpper` | src/sdk/models/shared_link.rs:12 | a snake_case name has no ASCII upper-case letters |
| `FileOperations.FileUrl` | src/sdk/operations/file.rs:18 | the file URL is "https://api.box.com/2.0/files/" followed by exactly the id |
| `FileOperations.ContentUrl` | src/sdk/operations/file.rs:33 | the content URL is that prefix, the id, then "/content" |
| `FileOperations.UrlsInjective` | src/sdk/operations/file.rs:18-33 | different ids give different file URLs and different content URLs |
| `FileOperations.ContentUrlExtendsFileUrl` | src/sdk/operations/file.rs:18-33 | the content URL is the file URL with "/content" appended |
| `FileOperations.FileOperation.GetRequest` | src/sdk/operations/file.rs:17-24 | get sends a GET to the file URL with no body |
| `FileOperations.FileOperation.DeleteRequest` | src/sdk/operations/file.rs:26-30 | delete sends a DELETE to the file URL with no body |
| `FileOperations.FileOperation.UpdateRequest` | src/sdk/operations/file.rs:50-56 | update sends a PUT to the file URL whose body is the given updates |
| `FileOperations.FileOperation.DownloadRequest` | src/sdk/operations/file.rs:32-35 | download sends a GET to the content URL |
| `FileOperations.RequestsAddressTheFile` | src/sdk/operations/file.rs:17-56 | get, delete and update share one URL naming the id; download's is it plus "/content"; the URLs tell operations on different ids apart |
| `FileOperations.ChunkStream.Pull` | src/sdk/operations/file.rs:43 | each pull returns the next chunk, and after the last one the end marker or the stream's network error |
| `FileOperations.ConcatSize` | src/sdk/operations/file.rs:43-45 | the written length is the sum of the chunk sizes |
| `FileOperations.ConcatAt` | src/sdk/operations/file.rs:43-45 | byte `j` of chunk `k` is written at the total size of the earlier chunks plus `j` |
| `FileOperations.SplitThenConcat` | src/sdk/operations/file.rs:43-45 | however a body is cut into chunks, appending them in order reconstructs it exactly |
| `FileOperations.Disk.CreateNew` | src/sdk/operations/file.rs:37-41 | `create_new(true)` fails and changes nothing when the path exists, otherwise creates an empty file |
| `FileOperations.Disk.WriteAll` | src/sdk/operations/file.rs:44 | `write_all` appends the chunk to the file and changes nothing else |
| `FileOperations.Download` | src/sdk/operations/file.rs:32-48 | a failed request returns its error and writes nothing; an existing destination fails and writes nothing; otherwise the file holds the concatenation of all chunks in arrival order, and the result is Ok exactly when the stream ended without a network error, else `Network` of that error |

## Left out

- src/sdk/network.rs: request builders, the HTTP method mapping and sending over reqwest, whose behaviour is reqwest's; the file also does not compile as written.
- src/sdk/client.rs: sending requests and injecting the bearer token are reqwest's work; only `Client::new`'s choice of `SingleTokenAuth` appears, as the context's credentials.
- The network calls and JSON decoding in `get`, `delete` and `update`: the model stops at the request each operation asks for.
- The upload request: `Client` defines no `upload_file` and no source text says what it would send; `main`'s choice of the upload action is modelled.
- The user request (`UserOperation::get`, src/sdk/operations/user.rs:14-21, a GET of `"/users/{id}"` and a decode): its URL is root-relative and no code resolves it, and `Client` defines no `user` to reach it; `main`'s choice of the user action and its "me" default are modelled.
- The folder operations (src/sdk/operations/folder.rs): a URL, a network call and a decode each, which `main` does not reach.
- Root-relative URLs: no code resolves them against an API root, so the model has no such rule.
- Router lookup: the router has no resolve operation, so none is modelled.
- The `Auth` trait: it has one implementation, modelled directly; async suspension is not modelled.
- `Context::output`, printing and exit statuses (src/main.rs, src/cli/context.rs): terminal output.
- src/cli/command.rs: `Cmd` is an abstract type; running a command is not modelled.
- The model structs (`File`, `User`, `Folder`, `Collection`, `Item`, `SharedLink`): serde field lists with no behaviour.
- clap's argument definitions, help text and conflict rules: the model takes the parsed flags as given, so it also covers flag combinations clap would reject.
- `radix_trie`'s internal tree: only its behaviour as a map from key bytes to values is modelled.
- FileOperations.Download: does not model failures of `write_all` or of opening the file other than an existing destination, because they depend on the operating system.
- FileModel.DecodeItemStatus: returns `None` for an unknown name where serde returns an "unknown variant" error whose text is serde's.
- SharedLink.DecodeAccess: returns `None` for an unknown name where serde returns an error whose text is serde's.
- SharedLink.DecodePermission: returns `None` for an unknown name where serde returns an error whose text is serde's.
- Router.AddOverwritesSameText: states the release-build behaviour; a debug build of `radix_trie` panics in its key check when a literal and a variable of the same text meet, because they are distinct keys with the same bytes.
- The JSON encoding of the PUT body: `update` serializes `FileUpdates` with serde, writing `null` for an absent field; the model stops at the `FileUpdates` value.
- SerdeRename.SnakeCaseOfTwoWords: case changes are modelled for ASCII letters only (serde tests Unicode upper case), which covers every variant identifier here.
