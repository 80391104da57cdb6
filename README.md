# git-pr: reading a repository's metadata and assembling a pull request

This project models the core of `git-pr`, a small command-line tool that opens a
pull request on GitHub. The tool does the following:

- It reads the current branch from the first line of `.git/HEAD`.
- It finds the repository's owner and name in `.git/config`, in the block of
  the remote it was asked for when that block is the first one the pattern
  matches.
- It writes a message template. The user edits it, and the tool reads back a
  title and a description.
- It builds the JSON body of the request, together with the endpoint URL.
- It classifies GitHub's answer as a success or as an API error.

Everything is modelled on strings the caller supplies. The outcome of a file
read is an input (`PrTypes.ReadResult`), and so is the outcome of the HTTP
exchange (`Api.Exchange`). Every step then becomes a total function.

Modules:

- `RustStr` (`rust_str.dfy`): the Rust `str` operations the code relies on,
  written out. These are `lines()` (split on `\n`, drop one `\r` before a `\n`,
  no empty line after a final `\n`, no lines in `""`), `split('/')`,
  `join("/")`, `starts_with` and `collect::<String>()`.
- `PrTypes` (`pr_types.dfy`): `PrError`, `PullRequestMsg`, `PullRequest` and
  `RepoData`.
- `Head` (`head.dfy`): `branch` and `current_branch`.
- `Message` (`message.dfy`): the text of `pr_msg_template`, and `build_pr_msg`.
  `build_pr_msg` is a method with a loop that advances over the lines. It is
  proved equal to the specification function `ParseMsg`.
- `Config` (`config.dfy`): `repo_config`. The regular expression is written out
  as a recognizer, one parser per stretch of the pattern. Each parser is proved
  to accept exactly the texts that a declarative rendering of that stretch
  describes. A leftmost search over all positions gives what `captures` finds.
- `ConfigExamples` (`config_examples.dfy`): the configuration files of the unit
  tests, and a two-remote file.
- `Api` (`api.dfy`): `build_request_payload`, the endpoint URL of `fetch_api`
  and its classification of the response.

The code does the following, which a reader might not expect:

- `current_branch` returns the empty branch `""` for a first line with exactly
  one `/`. It does not fail.
- `build_pr_msg` accepts an empty title. The unedited template parses to an
  empty title and an empty body (`Message.UneditedTemplate`).
- `fetch_api` decodes GitHub's answer with surf's `Response::body_json`. In
  surf 1.x that returns an `io::Result`, so a body of the wrong shape becomes
  `PrError::Io` through the `From<io::Error>` impl (src/gitpr.rs:61-65). It
  does not become `PrError::De`.
- `repo_config` looks only at the first match of the pattern in the whole
  text. It does not look for the first block of the requested remote. See
  "Findings".

## Model

| member | source | states |
|---|---|---|
| `Head.BranchFromLine` | src/gitpr.rs:94-104 | fails with `Repo("Could not find current branch from git config")` exactly when the line has no `/`; otherwise the result is the text after the line's second `/` (empty when it has only one) |
| `Head.SegmentsFromThird` | src/gitpr.rs:101-103 | rejoining the `/`-segments from the third on with `/` gives back the text after the second `/` |
| `Head.CurrentBranch` | src/gitpr.rs:92-109 | no line at all is `Io("Could not find git HEAD file")`; only the first line decides; it succeeds exactly when the first line holds a `/` |
| `Head.Branch` | src/gitpr.rs:84-89 | a failed read becomes `Io("Cannot read .git HEAD file; " + cause)`, keeping the cause; a successful read is `current_branch` of its text |
| `Head.OnlyFirstLine` | src/gitpr.rs:93 | whatever follows the first line feed never changes the branch |
| `Head.BranchIsSuffix` | src/gitpr.rs:101-103 | when the first line holds a `/`, the branch is found and is a suffix of that line |
| `Head.AfterSecondSlashSuffix` | src/gitpr.rs:101-103 | the text after the second `/` is always a suffix of the line |
| `Head.BranchOfRefLine` | src/gitpr.rs:119-123 | a HEAD line `x/y/p` names branch `p` unchanged, whatever `/` it holds |
| `Head.OneSlashEmpty` | src/gitpr.rs:101-103 | a first line with exactly one `/` names the empty branch |
| `Head.NestedBranchExample` | src/gitpr.rs:119-120 | `ref: refs/heads/feat/test-branch` gives `feat/test-branch` |
| `Head.DoubleSlashBranchExample` | src/gitpr.rs:122-123 | `ref: refs/heads/feat/nested//test-branch` gives `feat/nested//test-branch` |
| `RustStr.Lines` | src/gitpr.rs:93 | `lines()` gives no line exactly for the empty text, and no line it gives holds a `\n` |
| `RustStr.Split` | src/gitpr.rs:102 | `split(c)` gives at least one piece, and at least two when the text holds `c` |
| `RustStr.Join` | src/gitpr.rs:102 | a non-empty `join` starts with the first piece and ends with the last |
| `RustStr.Concat` | src/gitpr.rs:176-178 | `collect::<String>()` starts with its first piece and is as long as all the pieces together |
| `RustStr.ConcatExcludes` | src/gitpr.rs:176-178 | a character in none of the pieces is not in their concatenation |
| `RustStr.LinesOfTerminated` | src/gitpr.rs:167 | `lines()` gives back every line of a text made of lines each followed by `\n` |
| `RustStr.LinesAfterTerminated` | src/gitpr.rs:167 | lines each followed by `\n` come out first, whatever text follows them |
| `RustStr.JoinSplit` | src/gitpr.rs:102 | joining the pieces of `split(c)` with `c` restores the text |
| `RustStr.SplitPieces` | src/gitpr.rs:102 | no piece of `split(c)` contains `c` |
| `Message.PrMsgTemplate` | src/gitpr.rs:291-299 | the template begins with two line feeds and then the sentinel `// Requesting a pull to` |
| `Message.ParseMsg` | src/gitpr.rs:167-178 | fails with `Repo("Unable to read title")` exactly when the text is empty; otherwise the title is the first line, and neither title nor body holds a line feed |
| `Message.BuildPrMsg` | src/gitpr.rs:158-186 | the file read is the one at the path given, or `.git/PR_EDITMSG` when none is; a read error is `Io(cause)`; otherwise the loop that takes the title and drains the lines up to the sentinel gives exactly `ParseMsg` of the text |
| `Message.ParseAt` | src/gitpr.rs:176-178 | wherever the body ends (no sentinel line before, a sentinel line or the end there), the parse is the first line and the lines up to there concatenated |
| `Message.ParseMsgMeaning` | src/gitpr.rs:167-178 | fails with `Repo("Unable to read title")` exactly when the text is empty; otherwise the title is the first line and the body is the lines after it, up to the first line starting with the sentinel, concatenated with nothing between them |
| `Message.ParseTerminated` | src/gitpr.rs:176-178 | a title line and description lines in front of a sentinel line give that title and the description lines concatenated |
| `Message.UneditedTemplate` | src/gitpr.rs:291-299 | the template read back unedited gives title `""` and body `""` |
| `Message.FilledIn` | src/gitpr.rs:291-299 | the template with a title and a body typed into its two empty lines; with both empty it is the template as written |
| `Message.FilledTemplate` | src/gitpr.rs:170-178 | a one-line title and a one-line body typed into the template's two empty lines come back as that title and body |
| `Message.WrittenAboveTemplate` | src/gitpr.rs:170-178 | a one-line title and a one-line body written in front of the unedited template come back as that title and body |
| `Message.EditedFileExample` | src/gitpr.rs:188-203 | the unit test's file gives title `test title` and body `this is a test msg body` |
| `Config.ParseHeaderIff` | src/gitpr.rs:207 | the header parser accepts exactly `[remote`, white space, `"`, a word name, `"]\n` |
| `Config.ParseHostIff` | src/gitpr.rs:207 | the host parser accepts exactly `\turl`, a white-space character, `=`, a white-space character, `http://`, `https://` or `git@`, then `github`, any non-newline character, `com` and an optional `:` or `/` |
| `Config.ParsePathIff` | src/gitpr.rs:207 | the path parser accepts exactly an owner and a name of `[A-Za-z0-9_-]+` around `/`, with the name taken as long as it goes |
| `Config.MatchAtIff` | src/gitpr.rs:207 | the anchored recognizer accepts a text exactly when it starts with a match of the whole pattern, and returns that match's captures |
| `Config.MatchAt` | src/gitpr.rs:207 | what the anchored recognizer returns is a match of the whole pattern at the start of the text, with its captures |
| `Config.MatchUnique` | src/gitpr.rs:207 | at one position the pattern matches in at most one way |
| `Config.SearchFound` | src/gitpr.rs:211-212 | what the search returns is a match, and no accepted match starts before it |
| `Config.SearchLeftmost` | src/gitpr.rs:211-212 | a match with none before it is what the search returns |
| `Config.SearchNone` | src/gitpr.rs:211-212 | a search that finds nothing means no accepted match starts anywhere in the text |
| `Config.FirstMatch` | src/gitpr.rs:211-212 | `captures` finds the match at the leftmost position where the pattern matches, or nothing when it matches nowhere |
| `Config.RepoConfig` | src/gitpr.rs:206-237 | on success the owner and the name are non-empty and made of `[A-Za-z0-9_-]` only; every failure is `Repo("failed to read repo config")` |
| `Config.RepoConfigLeftmost` | src/gitpr.rs:211-217 | the outcome is decided by the leftmost match: its owner and name when its remote is the one asked for, the configuration error otherwise |
| `Config.RepoConfigNoMatch` | src/gitpr.rs:214-216 | text in which the pattern matches nowhere is the configuration error, whatever remote is asked for |
| `Config.RepoConfigOk` | src/gitpr.rs:219-236 | a success comes from the leftmost match, whose remote is the one asked for, so the "cannot find author/repo" errors cannot happen |
| `Config.FirstBlockDecides` | src/gitpr.rs:211-213 | a first block for another remote makes the call fail, whatever follows it |
| `Config.RepoConfigNamed` | src/gitpr.rs:209-217 | the corrected reading: on success the owner and the name are non-empty and made of `[A-Za-z0-9_-]` only; every failure is `Repo("failed to read repo config")` |
| `Config.RepoConfigNamedFinds` | src/gitpr.rs:209-213 | the corrected reading returns the leftmost block for the remote asked for, past blocks of other remotes |
| `Config.RepoConfigNamedNone` | src/gitpr.rs:214-216 | without a block for the remote asked for, the corrected reading is the configuration error |
| `Config.NamedAgrees` | src/gitpr.rs:211-217 | whenever `repo_config` succeeds, the corrected reading gives the same owner and name |
| `ConfigExamples.GitPrConfigExample` | src/gitpr.rs:239-261 | the unit test's configuration gives owner `jafow` and name `git-pr`, without `.git` |
| `ConfigExamples.MalformedUrlExample` | src/gitpr.rs:263-285 | with an unrecognisable `url`, asking for `upstream` and asking for `origin` both give the configuration error |
| `ConfigExamples.UpstreamFirstExample` | src/gitpr.rs:211-213 | with an `upstream` block before an `origin` block, asking for `origin` fails, while the corrected reading finds the `origin` block |
| `Api.BuildRequestPayload` | src/gitpr.rs:316-325 | the payload is an object with exactly the keys `title`, `body`, `head`, `base` |
| `Api.PayloadRoundTrip` | src/gitpr.rs:316-325 | reading the four fields back from the payload gives the pull request unchanged |
| `Api.PayloadOfRequest` | src/gitpr.rs:316-325 | every object with exactly those four string fields is the payload of the pull request it describes |
| `Api.PayloadInjective` | src/gitpr.rs:316-325 | different pull requests never give the same payload |
| `Api.PayloadExample` | src/gitpr.rs:327-342 | the unit test's pull request from `test` into `master` gives the expected object |
| `Api.EndpointUrl` | src/gitpr.rs:360-363 | the URL starts with `https://`, the owner, `:` and the token, and ends with `@api.github.com/repos/`, the owner, `/`, the name and `/pulls` |
| `Api.EndpointRoundTrip` | src/gitpr.rs:360-363 | the endpoint URL gives back the owner, the token and the repository name |
| `Api.EndpointOfConfig` | src/gitpr.rs:360-363 | the owner and name that `repo_config` finds always make an endpoint from which they come back |
| `Api.EndpointOfNamedConfig` | src/gitpr.rs:360-363 | the same for the corrected reading |
| `Api.EndpointExample` | src/gitpr.rs:360-363 | owner `jafow`, repository `git-pr` and a token give `https://jafow:<token>@api.github.com/repos/jafow/git-pr/pulls` |
| `Api.DecodeSuccess` | src/gitpr.rs:344-348 | an object decodes exactly when it has a string `html_url` and a `number` that fits in a `u32`, and then to those two values; an array decodes exactly when it is those two values in field order; anything else is `Io("invalid response body")` |
| `Api.DecodeError` | src/gitpr.rs:350-353 | an object decodes exactly when it has a string `message`, and then to that message; an array decodes exactly when it is that one string; anything else is `Io("invalid response body")` |
| `Api.FetchOutcome` | src/gitpr.rs:365-374 | a transport failure is `Other(cause)`; it succeeds exactly on `201` with a body that decodes as a success, and then with that success; any other status is an `Api` error or the body's decoding error, and `Api(message)` when the body holds a string `message`; a `201` gives exactly what `DecodeSuccess` gives (`Io` for a body of the wrong shape), and any other status gives `Api` with `DecodeError`'s message when that decodes and `Io` otherwise |
| `Api.FetchOk` | src/gitpr.rs:367-370 | an object answer succeeds with a URL and a number exactly when the status is 201, `html_url` is that URL and `number` is that number within `u32` |
| `Api.OnlyCreatedSucceeds` | src/gitpr.rs:367-374 | any status other than 201 is an error; it is an `Api` error exactly when the body decodes as a refusal, as an object with a string `message` or a one-string array |
| `Api.SuccessRoundTrip` | src/gitpr.rs:367-370 | a 201 with a URL and a number comes back as that URL and number, whatever other fields the body holds |
| `Api.RefusalRoundTrip` | src/gitpr.rs:371-374 | any non-201 status with any body that holds a string `message` gives `Api(message)` unchanged, whatever else the body holds |
| `Api.FetchExamples` | src/gitpr.rs:367-374 | a 201 with `https://x/1` and number 1 succeeds with them; a 422 with `already exists` is `Api("already exists")` |
| `Api.SuccessArrayForm` | src/gitpr.rs:344-348 | a success sent as the array `[html_url, number]` gives the same answer as the object form |
| `Api.NumberTooLarge` | src/gitpr.rs:344-348 | for any object whose `number` is negative or at least 2^32, a `201` answer is `Io("invalid response body")`, not a success |

## Left out

- `src/main.rs` is an unrelated demonstration request. There is nothing in it to model.
- File reads and writes are left out. This covers `read_file`, the read in
  `branch` and `build_pr_msg`, and `File::create` and `write_all` in
  `pr_msg_template`. A read's outcome is the input `ReadResult`, and the OS
  error text is an opaque string.
- `pr_msg_template` is modelled only as the text it writes. Its failure to
  create the file is not modelled.
- `launch_editor` is left out. It reads `GIT_EDITOR` and runs it through `sh -c`,
  waiting for it to exit.
- The HTTP transport of `fetch_api` is left out: `surf`, async/await and the
  token from the environment. The exchange is an input: a status with an
  already-decoded JSON body, or a transport failure, which becomes `Other`.
- JSON text is not modelled. Serialising and parsing are left out, and a JSON
  value is the `Json` datatype.
- Api.DecodeSuccess: a body of the wrong shape gives `Io("invalid response body")`.
  The kind follows surf 1.x, whose `Response::body_json` returns an
  `io::Result`. The real message comes from the JSON library and is not
  modelled. The same holds for Api.DecodeError.
- Api.DecodeSuccess: serde's derived decoding also accepts the array form, a
  JSON array of exactly the fields in order. Only JSON values are modelled, so
  a number written as `1.0` and other textual forms are out of scope.
- The `?` after `body_json(&body)` on the request (src/gitpr.rs:365) can fail
  only when serialising a `serde_json::Value`, which does not fail. It is not
  modelled.
- The `Display` and `Error` impls, `dbg!` and compiling the regular expression
  are left out. The `From` conversions are not members of their own: their
  effect is applied at each `?` (`Io(cause)` for the message read, `Other(cause)`
  for the transport, `Io` for a body that does not decode).
- Config.RepoConfig: `\w` is modelled as ASCII `[A-Za-z0-9_]`. The regex
  crate's Unicode word class would also accept non-ASCII letters in a remote's
  name. `\s` is modelled as the full Unicode White_Space set.
- RustStr.Lines: models current Rust semantics, where a final line without
  `\n` keeps a trailing `\r`. Older Rust releases stripped that `\r` too.

## Findings

| source | as written | input that shows it | evidently intended | confidence | as-written member | corrected member |
|---|---|---|---|---|---|---|
| src/gitpr.rs:211-213 | `re.captures(text)` returns only the leftmost match of the pattern, and `.filter` then drops it when its remote is another one, so later blocks are never looked at | a config with `[remote "upstream"]` / `url = git@github.com:jafow/git-pr.git` before `[remote "origin"]` / `url = https://github.com/alice/git-pr.git`, asked for `origin`, gives `Repo("failed to read repo config")` | the comment at lines 209-210 asks for the block of the remote provided: the leftmost match whose remote is `remote_match` (`alice`, `git-pr`) | medium, not executed | `ConfigExamples.UpstreamFirstExample` | `Config.RepoConfigNamed` / `Config.RepoConfigNamedFinds` |
