# Comment bot helpers: a Dafny model

This project models the bookkeeping and decision layer of a Reddit comment and crosspost bot:
the helper module `utils/helpers.py`. The module does six jobs, and the model covers each:

- **Commented-post ledger.** A JSON file holds the set of post ids the bot has commented on.
  Loading reads it; a missing or unreadable file reads as the empty set. Saving loads the set,
  adds one id and writes the set back.
- **Comment-URL log.** A JSON file holds an ordered list of comment URLs. Saving appends a URL
  only when it is absent.
- **Eligibility checks.** One check tests whether a community is on the blacklist, ignoring
  letter case. The other tests whether a post is older than a maximum age given in hours.
- **Template comments.** `template.format(**fields)` fills a comment template. When a
  placeholder has no binding (a `KeyError`), the template comes back unchanged.
- **Account choice.** The bot picks a random account from its list, or none when the list is
  empty.
- **Outcome classification.** Posting a reply reports success or failure. The "already
  commented" check scans a post's comments for the current user and answers "yes" whenever a
  call raises.

Files, clients and randomness are not modelled as such. A ledger file is a value: missing,
unreadable, or a JSON array of strings. The file-system facts a save depends on are inputs
(`Disk`): whether the directory can be created, whether the file can be opened for writing,
and whether the JSON text is then written in full. Opening in `'w'` mode truncates the file.
So a dump that raises afterwards leaves a file the next load cannot read, and the ledger's
earlier contents are lost.
The social-media client's calls become outcome values, and the random choice is a
nondeterministic choice. Time is a whole number of seconds passed in as `now`.

The modules follow the source's structure:

- `common.dfy`: `Option`, `Result` and two small sequence notions.
- `ledger.dfy`: both ledger files, and `os.path.dirname`.
- `eligibility.dfy`: the blacklist and age checks.
- `template.dfy`: `str.format` with keyword arguments, and the template comment generator.
- `actions.dfy`: accounts, the reply outcome, and the already-commented scan.

`str.format` reads a template left to right and stops at the first problem. So a missing key
before a malformed brace returns the template, while a malformed brace before it raises.
`Template.Format` is that one-pass reading. `Template.Parse` is an independent two-phase
reading: first the pieces up to the first error, then the substitution. The contracts of
`GenerateComment` are stated against `Parse`, and `FormatMatchesParse` proves the two readings
agree. `Unparse` spells pieces back as template text, and `ParseUnparse` proves it is the
inverse of `Parse`.

Some behaviour described for the bot lives outside `utils/helpers.py`: a crossposting loop,
flair retries, a score threshold, a daily cap and an inter-comment delay. These belong to
driver scripts that are not part of this model. `bot.py` loads the settings and the
credential file, exiting when the latter is missing; its `main` only logs a placeholder. The model covers the helper module only.

## Model

| member | source | states |
|---|---|---|
| `Ledger.LoadCommentedPosts` | utils/helpers.py:16-24 | A missing or unreadable ledger reads as the empty set. A readable one yields exactly the ids listed in it. |
| `Ledger.ListOfSet` | utils/helpers.py:40 | Turning the set into a list yields every element of the set exactly once, in an unspecified order. |
| `Ledger.StorePostId` | utils/helpers.py:28-42 | When the directory step, the open and the dump all succeed, the written ledger holds the loaded ids plus the new id, with no duplicates. A dump that fails after the open leaves an unreadable file. A save that never opens the file leaves it untouched. |
| `Ledger.SaveCommentedPosts` | utils/helpers.py:26-42 | As written. When the file is written in full, the stored set equals the loaded set plus the id. A failed dump after the open leaves a ledger that loads as empty. When the path has no directory part, the file is never changed. Ids are never removed while dumps complete. |
| `Ledger.SaveCommentedPostsFixed` | utils/helpers.py:26-42 | With the corrected directory step, a bare file name on a disk that opens and dumps always ends up holding the id. A failed dump leaves an unreadable file. While dumps complete, saving an id already present leaves the stored set unchanged and no id is removed. |
| `Ledger.RecordPosts` | utils/helpers.py:26-42 | A series of saves with the corrected save (`SaveCommentedPostsFixed`). When every dump completes, the ledger holds its earlier ids plus every id saved, whatever their order or repetitions. When dumps fail after the open, the ledger ends unreadable. When nothing can be opened, the file stays as it was. |
| `Ledger.Dirname` | utils/helpers.py:36 | The directory name is a prefix of the path, and it is empty exactly when the path contains no '/'. |
| `Ledger.AppendIfAbsent` | utils/helpers.py:59-61 | The old log is kept in order as a prefix. At most one entry is added. Afterwards the log holds exactly the old URLs plus the new one. A duplicate-free log stays duplicate-free. A URL already logged leaves the log unchanged; a new URL goes at the end. |
| `Ledger.AppendAllIfAbsent` | utils/helpers.py:59-61 | Repeated appends keep the original log as a prefix. Afterwards the log holds exactly the old and new URLs, and a duplicate-free log stays duplicate-free. Replaying URLs that are all already logged changes nothing. |
| `Ledger.AppendAllIfAbsentSplits` | utils/helpers.py:59-61 | Logging one batch of URLs and then another gives the same log as logging both batches at once. |
| `Ledger.AppendAllIfAbsentSingle` | utils/helpers.py:59-61 | Logging a batch of one URL is the same as a single append-if-absent. Together with the batch-splitting lemma, this fixes the order: new URLs are added in the order of their first occurrence. |
| `Ledger.AppendAllIfAbsentOrderExample` | utils/helpers.py:59-61 | Logging `a`, `b`, `a` into an empty log gives `a`, `b`: the repeat is dropped and first-occurrence order is kept. |
| `Ledger.StoreUrl` | utils/helpers.py:50-65 | When written in full, the log keeps its old entries in order and contains the URL. A URL already present leaves it unchanged. An unreadable log is replaced by the one new URL. A dump that fails after the open leaves an unreadable log. A save that never opens the file leaves it untouched. |
| `Ledger.SaveCommentUrl` | utils/helpers.py:44-67 | As written. When the file is written in full, the existing URLs are kept in order, the URL is present, at most one entry is added, a URL already present leaves the log unchanged, and duplicate-freedom is kept. A failed dump after the open leaves a log that loads as empty. With no directory part in the path, the file is never changed. |
| `Ledger.SaveCommentUrlFixed` | utils/helpers.py:44-67 | With the corrected directory step, a bare file name on a disk that opens and dumps always ends up logging the URL, and the guarantees of the as-written save hold. |
| `Ledger.SaveCommentUrlIdempotent` | utils/helpers.py:59-65 | Saving the same URL a second time changes nothing. |
| `Ledger.ConfiguredPathsNeverPersist` | utils/helpers.py:36-48 | With the configured bare file names, the directory step raises on every disk, so the URL log is never written. The commented-post ledger is not written either, by the contract of `SaveCommentedPosts`. |
| `Ledger.ConfiguredPathsPersistWhenFixed` | utils/helpers.py:36-48 | With the corrected step, the configured file names pass the directory step on every disk. |
| `Eligibility.IsSubredditBlacklisted` | utils/helpers.py:195-206 | True exactly when some blacklist entry equals the name once both are lower-cased. |
| `Eligibility.BlacklistIgnoresCase` | utils/helpers.py:206 | Lower-casing or upper-casing the name does not change the verdict. |
| `Eligibility.BlacklistEntriesMatch` | utils/helpers.py:206 | Every blacklist entry is matched, even upper-cased. An empty blacklist blocks nothing. |
| `Eligibility.BlacklistDependsOnEntriesOnly` | utils/helpers.py:206 | The verdict depends only on which entries are in the blacklist, not on their order or repetitions. |
| `Eligibility.IsPostTooOld` | utils/helpers.py:176-193 | Too old exactly when the post was created strictly before `now` minus the maximum age in seconds. |
| `Eligibility.TooOldBoundary` | utils/helpers.py:187-193 | A post exactly at the limit is not too old. One second later it is. |
| `Eligibility.TooOldStaysTooOld` | utils/helpers.py:187-193 | Once too old, a post stays too old at every later time. |
| `Eligibility.LongerMaxAgeOnlyRelaxes` | utils/helpers.py:187-193 | Raising the maximum age can only turn "too old" into "young enough". |
| `Template.FormatMatchesParse` | utils/helpers.py:220 | The left-to-right formatter agrees with parse-then-substitute. A missing key is reported exactly when a placeholder before the first error is unbound. Otherwise it raises that error or yields the rendering. |
| `Template.GenerateComment` | utils/helpers.py:208-223 | Returns the template verbatim when any placeholder before the first malformed spot is unbound. Returns the rendering when all are bound and the template is well formed. Otherwise the exception escapes. |
| `Template.ParseUnparse` | utils/helpers.py:220 | Parsing a template written from pieces gives back exactly those pieces, with no error. |
| `Template.GenerateFromPieces` | utils/helpers.py:219-223 | A well-formed template yields its rendering when every placeholder is bound, and is returned verbatim when any binding is missing. |
| `Template.OnePlaceholder` | utils/helpers.py:219-223 | A template of brace-free text around one named placeholder is filled when the name is bound, and returned verbatim when it is not. |
| `Template.ClosingBracketIsOrdinary` | utils/helpers.py:220 | A ']' that no '[' opened is part of the key name. The placeholder is filled when that key is bound, and the template comes back unchanged when it is not. |
| `Template.ConfiguredTemplateExample` | utils/helpers.py:219-223 | The first configured template is filled with the post title when it is bound, and comes back unchanged when no binding is given. |
| `Actions.SelectAccount` | utils/helpers.py:136-150 | Returns None exactly when the list is empty; otherwise returns a member of the list. |
| `Actions.PostComment` | utils/helpers.py:225-249 | True exactly when the reply went through, when the log-message reads do not raise. Forbidden, a server error and any other error all give false. |
| `Actions.ScanComments` | utils/helpers.py:263-267 | The scan stops with "yes" exactly when some comment has an author, and either that author is the current user or identifying the user raises. |
| `Actions.HasAlreadyCommented` | utils/helpers.py:251-270 | A failed listing gives true (fail-safe). False only when a complete scan finds no stopping comment. With the user identified, true means some comment is by the user. |
| `Actions.IdentityFailureNeedsAnAuthor` | utils/helpers.py:263-267 | When every comment is deleted, failing to identify the user is never reached, and the answer is false. |
| `Actions.FindsOwnComment` | utils/helpers.py:263-266 | With the user identified, a comment by the user is found wherever it sits in the list. |

## Left out

- Ledger.Dirname: paths are POSIX paths (`posixpath.dirname`). Windows separators (`\`) and drive letters are not modelled. The configured bare file names, and so both findings, do not depend on the separator.
- The text-generation `generate_comment` (utils/helpers.py:69-112) is not modelled. It calls an external service, and the template version of the same name later in the module replaces it.
- `load_accounts` and `get_reddit_instance` (utils/helpers.py:114-134, 152-174) are not modelled: they only read a JSON file and construct a client. An account is a value of `Actions.Account`.
- The social-media client's calls are not modelled. `reply`, listing comments and identifying the user appear only through their outcomes.
- The 60-second sleep after a server error is not modelled; it does not change the returned value. Logging is not modelled either, except as the next line says.
- Actions.PostComment: the client attributes read to build the log messages are assumed not to raise. In the source, reading the submission's title after a successful reply (utils/helpers.py:238) may fetch the submission. If that fetch raises, a posted reply reports false, after the 60-second sleep when the error is a server error. Reading the community's name inside the Forbidden handler (utils/helpers.py:241) may also raise, and that exception escapes the function instead of giving false.
- `random.choice`'s distribution is not modelled. `Actions.SelectAccount` may return any member.
- `config/settings.py` and `bot.py` are data and start-up I/O. Only the two ledger file names and the first comment template are used, as constants in the lemmas.
- Ledger files that parse as JSON but are not an array of strings are not modelled. Python would build a set from a dict's keys or a string's characters, or fail in other ways.
- A dump that raises after every byte reached the disk is not told apart: any dump failure after the open is modelled as leaving an unreadable file.
- Ledger.SaveCommentedPosts: which order `list(set)` writes the ids in is left open. Only the set that a later load reads back is stated.
- Eligibility.IsPostTooOld: time is whole seconds, where the source subtracts floating-point timestamps.
- Eligibility.IsSubredditBlacklisted: lower-casing covers the ASCII letters only, where Python's `str.lower` applies the full Unicode mapping.
- Template.GenerateComment: placeholders with a conversion (`!r`), a format spec (`:>10`), attribute access or indexing (any `.` or `[`) yield the `Unmodelled` failure, and so does a `{` inside a placeholder. For those, the model makes no claim about what Python returns.
- Template.GenerateComment: bindings are strings, and only ASCII digits make a placeholder positional.
- Actions.HasAlreadyCommented: author identity is compared as equal user names, because the client library's own equality is not part of this model. Identifying the current user is assumed to give the same outcome on every call during one scan.

## Findings

| source | as written | input that shows it | evidently intended | confidence | as-written member | corrected member |
|---|---|---|---|---|---|---|
| utils/helpers.py:36 | Before writing the post ledger, the save creates the directory part of the path, even when that part is empty. | The configured path `commented_posts.json` has an empty directory part (`Ledger.ConfiguredPathsNeverPersist`). Creating it raises, the broad handler logs the error, and the ledger is never written on any run. | Skip directory creation when the path has no directory part, so a bare file name is written to the working directory. | high; not executed | `Ledger.SaveCommentedPosts` | `Ledger.SaveCommentedPostsFixed` |
| utils/helpers.py:48 | The URL log save creates the directory part of the path before anything else, even when that part is empty. | The configured path `comment_urls.json` has an empty directory part. The save raises before loading, and no URL is ever logged (`Ledger.ConfiguredPathsNeverPersist`). | As above: skip the step for a bare file name. | high; not executed | `Ledger.SaveCommentUrl` | `Ledger.SaveCommentUrlFixed` |
