/**
 * The bot's two ledger files: the set of post ids it has already commented on and the
 * ordered log of comment URLs it has produced. A file is read-then-overwritten on every
 * save. The file system is not modelled; what a save depends on is passed in as `Disk`.
 */
module Ledger {
  import opened Common

  /** The configured ledger locations: bare file names, relative to the working directory. */
  const CommentedPostsFile: string := "commented_posts.json"
  const CommentUrlsFile: string := "comment_urls.json"

  /** What a ledger file looks like to the code that reads it. */
  datatype LedgerFile =
    | Missing                          // the path does not exist
    | Unreadable                       // opening or JSON-decoding it raises
    | StringArray(items: seq<string>)  // a JSON array of strings

  /** Whether `os.makedirs` can create (or finds) a non-empty directory, whether the
      file can be opened for writing, and whether, once opened (and so truncated), the
      JSON text is written out in full. */
  datatype Disk = Disk(dirsCreatable: bool, writable: bool, dumpCompletes: bool)

  /** How a save that got past its directory step ends. */
  predicate Opens(dirStepOk: bool, disk: Disk) {
    dirStepOk && disk.writable
  }

  predicate Completes(dirStepOk: bool, disk: Disk) {
    Opens(dirStepOk, disk) && disk.dumpCompletes
  }

  /** Opened in 'w' mode the file is truncated at once; a dump that then raises leaves
      an empty or cut-off text, which the next load cannot decode. */
  predicate Truncates(dirStepOk: bool, disk: Disk) {
    Opens(dirStepOk, disk) && !disk.dumpCompletes
  }

  // ---------------------------------------------------------------------------
  // os.path.dirname on '/'-separated paths

  /** The index just past the last '/', or 0 when there is none. */
  function SplitPoint(path: string): (i: nat)
    ensures i <= |path|
    ensures i > 0 ==> path[i - 1] == '/'
    ensures forall k :: i <= k < |path| ==> path[k] != '/'
  {
    if |path| == 0 then 0
    else if path[|path| - 1] == '/' then |path|
    else SplitPoint(path[..|path| - 1])
  }

  predicate AllSlashes(s: string) {
    forall k :: 0 <= k < |s| ==> s[k] == '/'
  }

  /** `s` without its trailing slashes. */
  function StripTrailingSlashes(s: string): (r: string)
    ensures r <= s
    ensures r == [] || r[|r| - 1] != '/'
    ensures forall k :: |r| <= k < |s| ==> s[k] == '/'
  {
    if |s| > 0 && s[|s| - 1] == '/' then StripTrailingSlashes(s[..|s| - 1]) else s
  }

  /** The directory part of `path`: everything up to the last '/', with trailing slashes
      removed unless the head consists of slashes only. */
  function Dirname(path: string): (d: string)
    ensures d <= path
    ensures d == [] <==> '/' !in path
  {
    var head := path[..SplitPoint(path)];
    if AllSlashes(head) then head
    else
      var d := StripTrailingSlashes(head);
      assert d != [] by {
        var k :| 0 <= k < |head| && head[k] != '/';
      }
      d
  }

  /** `os.makedirs(os.path.dirname(path), exist_ok=True)` returns normally: it raises for
      the empty directory name that a bare file name has. */
  predicate MakeDirsSucceeds(path: string, disk: Disk) {
    Dirname(path) != [] && disk.dirsCreatable
  }

  /** The corrected directory step: skip it when the path has no directory part. */
  predicate ParentDirReady(path: string, disk: Disk) {
    Dirname(path) == [] || disk.dirsCreatable
  }

  // ---------------------------------------------------------------------------
  // The commented-posts ledger

  /** The ids recorded in a ledger file; a missing or unreadable file reads as empty. */
  function LoadCommentedPosts(file: LedgerFile): (ids: set<string>)
    ensures !file.StringArray? ==> ids == {}
    ensures file.StringArray? ==> ids == Elems(file.items)
  {
    match file
    case StringArray(items) => Elems(items)
    case _ => {}
  }

  /** `list(ids)`: the elements of a set in an order the language does not fix. */
  method ListOfSet(ids: set<string>) returns (items: seq<string>)
    ensures Elems(items) == ids
    ensures NoDuplicates(items)
  {
    items := [];
    var rest := ids;
    while rest != {}
      invariant Elems(items) + rest == ids
      invariant Elems(items) !! rest
      invariant NoDuplicates(items)
      decreases rest
    {
      var x :| x in rest;
      items := items + [x];
      rest := rest - {x};
    }
  }

  /** Load, add `postId`, and write the set back when the directory step succeeded and
      the file could be opened for writing. A dump that fails after the open leaves an
      unreadable file; a save that never opens the file leaves it as it was. */
  method StorePostId(file: LedgerFile, postId: string, dirStepOk: bool, disk: Disk)
    returns (r: LedgerFile)
    ensures Completes(dirStepOk, disk) ==>
              r.StringArray? && NoDuplicates(r.items)
              && LoadCommentedPosts(r) == LoadCommentedPosts(file) + {postId}
    ensures Truncates(dirStepOk, disk) ==> r == Unreadable
    ensures !Opens(dirStepOk, disk) ==> r == file
  {
    var ids := LoadCommentedPosts(file) + {postId};
    if !dirStepOk || !disk.writable {
      return file;
    }
    if !disk.dumpCompletes {
      return Unreadable;
    }
    var items := ListOfSet(ids);
    r := StringArray(items);
  }

  /** save_commented_posts as written: the directory step is `os.makedirs` on the
      directory name, which fails for a bare file name. */
  method SaveCommentedPosts(path: string, file: LedgerFile, postId: string, disk: Disk)
    returns (r: LedgerFile)
    ensures Completes(MakeDirsSucceeds(path, disk), disk) ==>
              r.StringArray? && NoDuplicates(r.items)
              && LoadCommentedPosts(r) == LoadCommentedPosts(file) + {postId}
    ensures Truncates(MakeDirsSucceeds(path, disk), disk) ==> LoadCommentedPosts(r) == {}
    ensures !Opens(MakeDirsSucceeds(path, disk), disk) ==> r == file
    ensures '/' !in path ==> r == file
    ensures disk.dumpCompletes ==> LoadCommentedPosts(file) <= LoadCommentedPosts(r)
  {
    r := StorePostId(file, postId, MakeDirsSucceeds(path, disk), disk);
  }

  /** save_commented_posts with the directory step skipped for a bare file name. */
  method SaveCommentedPostsFixed(path: string, file: LedgerFile, postId: string, disk: Disk)
    returns (r: LedgerFile)
    ensures Completes(ParentDirReady(path, disk), disk) ==>
              r.StringArray? && NoDuplicates(r.items)
              && LoadCommentedPosts(r) == LoadCommentedPosts(file) + {postId}
    ensures '/' !in path && disk.writable && disk.dumpCompletes ==> postId in LoadCommentedPosts(r)
    ensures Truncates(ParentDirReady(path, disk), disk) ==> r == Unreadable
    ensures !Opens(ParentDirReady(path, disk), disk) ==> r == file
    ensures disk.dumpCompletes ==> LoadCommentedPosts(file) <= LoadCommentedPosts(r)
    ensures disk.dumpCompletes && postId in LoadCommentedPosts(file) ==>
              LoadCommentedPosts(r) == LoadCommentedPosts(file)
  {
    r := StorePostId(file, postId, ParentDirReady(path, disk), disk);
  }

  /** Saving ids one after another with the corrected save: the ledger ends up holding
      what it held before plus every id saved, whatever their order or repetitions. */
  method RecordPosts(path: string, file: LedgerFile, ids: seq<string>, disk: Disk)
    returns (r: LedgerFile)
    ensures Completes(ParentDirReady(path, disk), disk) ==>
              LoadCommentedPosts(r) == LoadCommentedPosts(file) + Elems(ids)
    ensures Truncates(ParentDirReady(path, disk), disk) && |ids| > 0 ==> r == Unreadable
    ensures !Opens(ParentDirReady(path, disk), disk) ==> r == file
  {
    r := file;
    var i := 0;
    while i < |ids|
      invariant 0 <= i <= |ids|
      invariant Completes(ParentDirReady(path, disk), disk) ==>
                  LoadCommentedPosts(r) == LoadCommentedPosts(file) + Elems(ids[..i])
      invariant Truncates(ParentDirReady(path, disk), disk) && i > 0 ==> r == Unreadable
      invariant !Opens(ParentDirReady(path, disk), disk) ==> r == file
    {
      assert ids[..i + 1] == ids[..i] + [ids[i]];
      r := SaveCommentedPostsFixed(path, r, ids[i], disk);
      i := i + 1;
    }
    assert ids[..i] == ids;
  }

  // ---------------------------------------------------------------------------
  // The comment-URL log

  /** The URLs recorded in a log file; a missing or unreadable file reads as empty. */
  function LoadUrls(file: LedgerFile): seq<string> {
    if file.StringArray? then file.items else []
  }

  /** Append `url` unless it is already logged. */
  function AppendIfAbsent(urls: seq<string>, url: string): (r: seq<string>)
    ensures urls <= r
    ensures |r| <= |urls| + 1
    ensures Elems(r) == Elems(urls) + {url}
    ensures NoDuplicates(urls) ==> NoDuplicates(r)
    ensures url in urls ==> r == urls
    ensures url !in urls ==> r == urls + [url]
  {
    if url in urls then urls else urls + [url]
  }

  /** Appending URLs one after another keeps the earlier log as a prefix, adds exactly
      the new URLs, and keeps a duplicate-free log duplicate-free. */
  function AppendAllIfAbsent(urls: seq<string>, more: seq<string>): (r: seq<string>)
    ensures urls <= r
    ensures Elems(r) == Elems(urls) + Elems(more)
    ensures NoDuplicates(urls) ==> NoDuplicates(r)
    ensures |r| <= |urls| + |more|
    ensures Elems(more) <= Elems(urls) ==> r == urls
    decreases |more|
  {
    if |more| == 0 then urls
    else
      var r := AppendAllIfAbsent(AppendIfAbsent(urls, more[0]), more[1..]);
      assert more == [more[0]] + more[1..];
      r
  }

  /** Appending one batch and then another is the same as appending both at once, and
      a batch of one is a single append: new URLs land in the order they first occur. */
  lemma {:induction false} AppendAllIfAbsentSplits(urls: seq<string>, a: seq<string>, b: seq<string>)
    ensures AppendAllIfAbsent(urls, a + b) == AppendAllIfAbsent(AppendAllIfAbsent(urls, a), b)
    decreases |a|
  {
    if |a| > 0 {
      assert (a + b)[0] == a[0];
      assert (a + b)[1..] == a[1..] + b;
      AppendAllIfAbsentSplits(AppendIfAbsent(urls, a[0]), a[1..], b);
    } else {
      assert a + b == b;
    }
  }

  /** A batch of one URL is a single append-if-absent. */
  lemma AppendAllIfAbsentSingle(urls: seq<string>, url: string)
    ensures AppendAllIfAbsent(urls, [url]) == AppendIfAbsent(urls, url)
  {
    assert [url][1..] == [];
  }

  /** Replaying a batch into an empty log keeps the first occurrence of each URL, in order. */
  lemma AppendAllIfAbsentOrderExample()
    ensures AppendAllIfAbsent([], ["a", "b", "a"]) == ["a", "b"]
  {
    var ab: seq<string> := ["a", "b"];
    assert "b" != "a" by { assert "b"[0] != "a"[0]; }
    assert AppendIfAbsent(["a"], "b") == ab;
    assert "a" in ab by { assert ab[0] == "a"; }
    assert AppendIfAbsent(ab, "a") == ab;
    AppendAllIfAbsentSplits([], ["a"], ["b", "a"]);
    AppendAllIfAbsentSplits(["a"], ["b"], ["a"]);
    AppendAllIfAbsentSingle([], "a");
    AppendAllIfAbsentSingle(["a"], "b");
    AppendAllIfAbsentSingle(ab, "a");
  }

  /** Load the log, append `url` if absent, and write it back when the directory step
      succeeded and the file could be opened for writing. A dump that fails after the
      open leaves an unreadable file. */
  function StoreUrl(file: LedgerFile, url: string, dirStepOk: bool, disk: Disk): (r: LedgerFile)
    ensures Completes(dirStepOk, disk) ==>
              r.StringArray? && LoadUrls(file) <= r.items && url in r.items
              && |r.items| <= |LoadUrls(file)| + 1
    ensures Completes(dirStepOk, disk) && url in LoadUrls(file) ==> r == StringArray(LoadUrls(file))
    ensures Completes(dirStepOk, disk) && !file.StringArray? ==> r == StringArray([url])
    ensures Truncates(dirStepOk, disk) ==> r == Unreadable
    ensures !Opens(dirStepOk, disk) ==> r == file
  {
    if !dirStepOk || !disk.writable then file
    else if !disk.dumpCompletes then Unreadable
    else StringArray(AppendIfAbsent(LoadUrls(file), url))
  }

  /** save_comment_url as written: the directory step comes first and fails for a bare
      file name. */
  function SaveCommentUrl(path: string, file: LedgerFile, url: string, disk: Disk): (r: LedgerFile)
    ensures Completes(MakeDirsSucceeds(path, disk), disk) ==>
              r.StringArray? && LoadUrls(file) <= r.items && url in r.items
              && |r.items| <= |LoadUrls(file)| + 1
              && (NoDuplicates(LoadUrls(file)) ==> NoDuplicates(r.items))
    ensures Completes(MakeDirsSucceeds(path, disk), disk) && url in LoadUrls(file) ==>
              r == StringArray(LoadUrls(file))
    ensures Truncates(MakeDirsSucceeds(path, disk), disk) ==> LoadUrls(r) == []
    ensures !Opens(MakeDirsSucceeds(path, disk), disk) ==> r == file
    ensures '/' !in path ==> r == file
  {
    StoreUrl(file, url, MakeDirsSucceeds(path, disk), disk)
  }

  /** save_comment_url with the directory step skipped for a bare file name. */
  function SaveCommentUrlFixed(path: string, file: LedgerFile, url: string, disk: Disk): (r: LedgerFile)
    ensures Completes(ParentDirReady(path, disk), disk) ==>
              r.StringArray? && LoadUrls(file) <= r.items && url in r.items
              && |r.items| <= |LoadUrls(file)| + 1
              && (NoDuplicates(LoadUrls(file)) ==> NoDuplicates(r.items))
    ensures Completes(ParentDirReady(path, disk), disk) && url in LoadUrls(file) ==>
              r == StringArray(LoadUrls(file))
    ensures '/' !in path && disk.writable && disk.dumpCompletes ==> r.StringArray? && url in r.items
    ensures Truncates(ParentDirReady(path, disk), disk) ==> r == Unreadable
    ensures !Opens(ParentDirReady(path, disk), disk) ==> r == file
  {
    StoreUrl(file, url, ParentDirReady(path, disk), disk)
  }

  /** Saving the same URL twice leaves the log as the first save left it. */
  lemma SaveCommentUrlIdempotent(path: string, file: LedgerFile, url: string, disk: Disk)
    ensures var once := SaveCommentUrlFixed(path, file, url, disk);
            SaveCommentUrlFixed(path, once, url, disk) == once
  {
  }

  /** With the configured bare file names, the directory step of both save functions
      raises on every disk, so neither ledger file is ever written. */
  lemma ConfiguredPathsNeverPersist(disk: Disk)
    ensures !MakeDirsSucceeds(CommentedPostsFile, disk)
    ensures !MakeDirsSucceeds(CommentUrlsFile, disk)
    ensures forall file, url :: SaveCommentUrl(CommentUrlsFile, file, url, disk) == file
  {
  }

  /** With the corrected directory step, the configured files are written whenever they
      can be opened for writing. */
  lemma ConfiguredPathsPersistWhenFixed(disk: Disk)
    ensures ParentDirReady(CommentedPostsFile, disk)
    ensures ParentDirReady(CommentUrlsFile, disk)
  {
  }
}
