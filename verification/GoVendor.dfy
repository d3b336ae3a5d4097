/**
 js/src/deps.js, goVendorData: which of a Go vendor tree's files in testdata/, _ and . folders are code. A candidate
 folder counts as code once some file read so far imports it, and then its own files are read too. The engine says what a
 file imports (goImports); None, when it can not parse the file, stands for all folders.
 */
module GoVendor {
  import opened Common
  import opened Texts

  /** A file of the scan; `vendor` names its vendor tree ("" outside of any). */
  datatype File = File(path: string, vendor: string, go: bool, content: string)

  datatype Issue = Issue(file: string, rule: string)

  /** The rules of findings that say how a file was read. */
  const READING_RULES := ["Q-ENCODING", "SC-UTF7", "SC-ESCAPE-CODEC", "SC-TRUNCATED"]

  type Imports = File -> Option<seq<string>>

  // ---- The candidate folders ---------------------------------------------------------------

  function LastSlash(path: string): (n: nat)
    ensures n <= |path|
  {
    if path == "" then 0 else if path[|path| - 1] == '/' then |path| else LastSlash(path[..|path| - 1])
  }

  function StripSlashes(head: string): string {
    if head != "" && head[|head| - 1] == '/' then StripSlashes(head[..|head| - 1]) else head
  }

  /** posixpath.dirname. */
  function Dirname(path: string): string {
    var head := path[..LastSlash(path)];
    if head != "" && exists k :: 0 <= k < |head| && head[k] != '/' then StripSlashes(head) else head
  }

  predicate StartsWith(s: string, p: string) {
    p <= s
  }

  predicate EndsWith(s: string, p: string) {
    |p| <= |s| && s[|s| - |p|..] == p
  }

  /** The first of `roots` that `rel` is below. */
  function TopOf(roots: seq<string>, rel: string): Option<string> {
    if roots == [] then None
    else if StartsWith(rel, roots[0] + "/") then Some(roots[0])
    else TopOf(roots[1..], rel)
  }

  /** The vendor trees, and the packages each one's modules.txt lists (None: there is no such list). */
  datatype Trees = Trees(roots: seq<string>, listed: map<string, Option<set<string>>>) {

    predicate Data(part: string) {
      part == "testdata" || StartsWith(part, "_") || StartsWith(part, ".")
    }

    /** The candidate folder that `path` is in, relative to its tree; None if it is in none, and so code anyhow. */
    function Candidate(path: string): Option<string> {
      match TopOf(roots, path)
      case None => None
      case Some(top) =>
        if top !in listed || listed[top].None? || !EndsWith(path, ".go") then None
        else
          var folder := Dirname(path[if |top| + 1 <= |path| then |top| + 1 else |path|..]);
          if (exists d :: d in Split(folder, '/') && Data(d)) && folder !in listed[top].value then Some(folder) else None
    }

    function FolderOf(f: File): Option<string> {
      if f.vendor != "" && f.go then Candidate(f.path) else None
    }
  }

  // ---- What a candidate folder is ------------------------------------------------------------

  predicate IsDataName(part: string) {
    part == "testdata" || (part != "" && (part[0] == '_' || part[0] == '.'))
  }

  /** A path below a tree: the tree, a folder, slashes and a name, which ends in .go. */
  predicate IsBelow(path: string, top: string, folder: string, slashes: string, name: string) {
    && path == top + "/" + folder + slashes + name
    && slashes != "" && (forall k :: 0 <= k < |slashes| ==> slashes[k] == '/') && '/' !in name
    && (folder != "" ==> folder[|folder| - 1] != '/')
    && |name| >= 3 && name[|name| - 3..] == ".go"
  }

  /** The folder `folder` that `path` is in may be one of data: the first tree `path` is below has a list of packages that
      does not name the folder, and a part of the folder is a data folder's name. */
  ghost predicate MayBeData(t: Trees, path: string, folder: string) {
    && HasDataPart(folder)
    && exists r: nat, slashes: string, name: string ::
         && r < |t.roots| && IsBelow(path, t.roots[r], folder, slashes, name)
         && (forall q :: 0 <= q < r ==> !(t.roots[q] + "/" <= path))
         && t.roots[r] in t.listed && t.listed[t.roots[r]].Some? && folder !in t.listed[t.roots[r]].value
  }

  lemma {:induction false} FirstTop(roots: seq<string>, rel: string, r: nat)
    requires r < |roots| && roots[r] + "/" <= rel && forall q :: 0 <= q < r ==> !(roots[q] + "/" <= rel)
    ensures TopOf(roots, rel) == Some(roots[r])
  {
    if r > 0 {
      FirstTop(roots[1..], rel, r - 1);
    }
  }

  lemma {:induction false} TopIs(roots: seq<string>, rel: string) returns (r: nat)
    requires TopOf(roots, rel).Some?
    ensures r < |roots| && roots[r] + "/" <= rel && forall q :: 0 <= q < r ==> !(roots[q] + "/" <= rel)
    ensures TopOf(roots, rel) == Some(roots[r])
  {
    if StartsWith(rel, roots[0] + "/") {
      r := 0;
    } else {
      var q := TopIs(roots[1..], rel);
      r := q + 1;
    }
  }

  lemma {:induction false} LastSlashIs(path: string)
    ensures '/' !in path[LastSlash(path)..]
    ensures LastSlash(path) > 0 ==> path[LastSlash(path) - 1] == '/'
    decreases |path|
  {
    if path != "" && path[|path| - 1] != '/' {
      var init := path[..|path| - 1];
      LastSlashIs(init);
      assert path[LastSlash(path)..] == init[LastSlash(path)..] + [path[|path| - 1]];
    }
  }

  lemma {:induction false} LastSlashOf(head: string, name: string)
    requires (head != "" ==> head[|head| - 1] == '/') && '/' !in name
    ensures LastSlash(head + name) == |head|
    decreases |name|
  {
    var path := head + name;
    if name != "" {
      var init := name[..|name| - 1];
      assert path[..|path| - 1] == head + init;
      assert path[|path| - 1] == name[|name| - 1];
      LastSlashOf(head, init);
    }
  }

  lemma {:induction false} StripIs(head: string)
    ensures StripSlashes(head) <= head
    ensures StripSlashes(head) != "" ==> StripSlashes(head)[|StripSlashes(head)| - 1] != '/'
    ensures forall k :: |StripSlashes(head)| <= k < |head| ==> head[k] == '/'
    decreases |head|
  {
    if head != "" && head[|head| - 1] == '/' {
      StripIs(head[..|head| - 1]);
    }
  }

  lemma {:induction false} StripOf(folder: string, slashes: string)
    requires folder != "" ==> folder[|folder| - 1] != '/'
    requires forall k :: 0 <= k < |slashes| ==> slashes[k] == '/'
    ensures StripSlashes(folder + slashes) == folder
    decreases |slashes|
  {
    if slashes == "" {
      assert folder + slashes == folder;
    } else {
      assert (folder + slashes)[..|folder + slashes| - 1] == folder + slashes[..|slashes| - 1];
      StripOf(folder, slashes[..|slashes| - 1]);
    }
  }

  /** What stands before the last slashes. */
  lemma DirnameOf(folder: string, slashes: string, name: string)
    requires slashes != "" && (forall k :: 0 <= k < |slashes| ==> slashes[k] == '/') && '/' !in name
    requires folder != "" && folder[|folder| - 1] != '/'
    ensures Dirname(folder + slashes + name) == folder
  {
    var head := folder + slashes;
    LastSlashOf(head, name);
    assert (head + name)[..|head|] == head;
    assert head[|folder| - 1] != '/';
    StripOf(folder, slashes);
  }

  lemma DirnameParts(rest: string) returns (slashes: string, name: string)
    requires exists k :: 0 <= k < |Dirname(rest)| && Dirname(rest)[k] != '/'
    ensures rest == Dirname(rest) + slashes + name && '/' !in name
    ensures slashes != "" && forall k :: 0 <= k < |slashes| ==> slashes[k] == '/'
    ensures Dirname(rest) != "" && Dirname(rest)[|Dirname(rest)| - 1] != '/'
  {
    var head := rest[..LastSlash(rest)];
    LastSlashIs(rest);
    StripIs(head);
    slashes, name := head[|Dirname(rest)|..], rest[LastSlash(rest)..];
    assert head == Dirname(rest) + slashes && rest == head + name;
  }

  ghost predicate HasDataPart(folder: string) {
    exists i: int, j: int :: IsPiece(folder, '/', i, j) && IsDataName(folder[i..j])
  }

  lemma DataParts(t: Trees, folder: string)
    ensures HasDataPart(folder) <==> exists d :: d in Split(folder, '/') && t.Data(d)
    ensures HasDataPart(folder) ==> exists k :: 0 <= k < |folder| && folder[k] != '/'
  {
    if d :| d in Split(folder, '/') && t.Data(d) {
      SplitIsPieces(folder, '/', d);
      assert IsDataName(d);
    }
    if i: int, j: int :| IsPiece(folder, '/', i, j) && IsDataName(folder[i..j]) {
      SplitIsPieces(folder, '/', folder[i..j]);
      assert t.Data(folder[i..j]);
      assert folder[i] == folder[i..j][0] && '/' !in folder[i..j];
    }
  }

  /** A path's ending is its name's. */
  lemma GoName(path: string, head: string, name: string)
    requires path == head + name && head != "" && head[|head| - 1] == '/'
    ensures EndsWith(path, ".go") <==> |name| >= 3 && name[|name| - 3..] == ".go"
  {
    if |name| >= 3 {
      assert path[|path| - 3..] == name[|name| - 3..];
    } else if |path| >= 3 {
      assert path[|path| - 3..][2 - |name|] == '/';
      assert ".go"[0] == '.' && ".go"[1] == 'g' && ".go"[2] == 'o';
    }
  }

  /** A file is in a candidate folder exactly when that may be data. */
  lemma CandidateIs(t: Trees, path: string, folder: string)
    ensures t.Candidate(path) == Some(folder) <==> MayBeData(t, path, folder)
  {
    DataParts(t, folder);
    if t.Candidate(path) == Some(folder) {
      CandidateMayBe(t, path, folder);
    }
    if MayBeData(t, path, folder) {
      MayBeCandidate(t, path, folder);
    }
  }

  lemma CandidateMayBe(t: Trees, path: string, folder: string)
    requires t.Candidate(path) == Some(folder) && HasDataPart(folder)
    ensures MayBeData(t, path, folder)
  {
    DataParts(t, folder);
    var r := TopIs(t.roots, path);
    var top := t.roots[r];
    hide Dirname, TopOf, Split, HasDataPart, MayBeData, IsBelow, Trees.Data;
    var slashes, name := BelowTop(path, top, folder);
    IsMayBe(t, path, folder, r, slashes, name);
  }

  lemma BelowTop(path: string, top: string, folder: string) returns (slashes: string, name: string)
    requires top + "/" <= path && EndsWith(path, ".go") && Dirname(path[|top| + 1..]) == folder
    requires exists k :: 0 <= k < |folder| && folder[k] != '/'
    ensures IsBelow(path, top, folder, slashes, name)
  {
    var rest := path[|top| + 1..];
    slashes, name := DirnameParts(rest);
    hide Dirname;
    assert path == top + "/" + rest;
    assert path == (top + "/" + folder + slashes) + name;
    GoName(path, top + "/" + folder + slashes, name);
  }

  lemma IsMayBe(t: Trees, path: string, folder: string, r: nat, slashes: string, name: string)
    requires HasDataPart(folder) && r < |t.roots| && IsBelow(path, t.roots[r], folder, slashes, name)
    requires forall q :: 0 <= q < r ==> !(t.roots[q] + "/" <= path)
    requires t.roots[r] in t.listed && t.listed[t.roots[r]].Some? && folder !in t.listed[t.roots[r]].value
    ensures MayBeData(t, path, folder)
  {
  }

  lemma MayBeCandidate(t: Trees, path: string, folder: string)
    requires MayBeData(t, path, folder)
    ensures t.Candidate(path) == Some(folder)
  {
    assert HasDataPart(folder);
    DataParts(t, folder);
    hide HasDataPart, IsPiece, IsDataName, Split, Trees.Data;
    var r: nat, slashes: string, name: string :|
      && r < |t.roots| && IsBelow(path, t.roots[r], folder, slashes, name)
      && (forall q :: 0 <= q < r ==> !(t.roots[q] + "/" <= path))
      && t.roots[r] in t.listed && t.listed[t.roots[r]].Some? && folder !in t.listed[t.roots[r]].value;
    var top := t.roots[r];
    assert path == (top + "/") + (folder + slashes + name);
    FirstTop(t.roots, path, r);
    assert path[|top| + 1..] == folder + slashes + name;
    assert folder != "";
    DirnameOf(folder, slashes, name);
    assert path == (top + "/" + folder + slashes) + name;
    GoName(path, top + "/" + folder + slashes, name);
    hide Dirname, TopOf;
  }

  // ---- What is named ---------------------------------------------------------------------------

  /** The candidate folders of the scan. */
  function Folders(t: Trees, files: seq<File>): set<string> {
    set f | f in files && t.FolderOf(f).Some? :: t.FolderOf(f).value
  }

  /** With the folders `named` code, `f` is read: it is Go, and in none of the candidate folders or in one of those. */
  predicate IsRead(t: Trees, f: File, named: set<string>) {
    f.go && (t.FolderOf(f).None? || t.FolderOf(f).value in named)
  }

  /** `f` names the candidate folder `x`. */
  predicate Names(imports: Imports, f: File, x: string) {
    imports(f).None? || x in imports(f).value
  }

  /** Every candidate folder a file that is read names is among `named`. */
  ghost predicate Closed(t: Trees, files: seq<File>, imports: Imports, named: set<string>) {
    forall f, x :: f in files && IsRead(t, f, named) && x in Folders(t, files) && Names(imports, f, x) ==> x in named
  }

  /** `named` is the least such set of candidate folders. */
  ghost predicate IsLeast(t: Trees, files: seq<File>, imports: Imports, named: set<string>) {
    && named <= Folders(t, files)
    && Closed(t, files, imports, named)
    && forall other :: Closed(t, files, imports, other) ==> named <= other
  }

  lemma LeastIsUnique(t: Trees, files: seq<File>, imports: Imports, a: set<string>, b: set<string>)
    requires IsLeast(t, files, imports, a) && IsLeast(t, files, imports, b)
    ensures a == b
  {
  }

  /** A chain of imports: a Go file in no candidate folder, then a file of a folder the one before names, and so on. */
  ghost predicate Chain(t: Trees, files: seq<File>, imports: Imports, chain: seq<File>) {
    && chain != []
    && (forall k :: 0 <= k < |chain| ==> chain[k] in files && chain[k].go)
    && t.FolderOf(chain[0]).None?
    && forall k :: 0 < k < |chain| ==> NamesFolderOf(t, imports, chain[k - 1], chain[k])
  }

  predicate NamesFolderOf(t: Trees, imports: Imports, before: File, f: File) {
    t.FolderOf(f).Some? && Names(imports, before, t.FolderOf(f).value)
  }

  ghost predicate ChainTo(t: Trees, files: seq<File>, imports: Imports, chain: seq<File>, x: string) {
    Chain(t, files, imports, chain) && Names(imports, chain[|chain| - 1], x)
  }

  lemma {:induction false} ChainIsNamed(t: Trees, files: seq<File>, imports: Imports, named: set<string>, chain: seq<File>,
                                        x: string)
    requires Closed(t, files, imports, named) && ChainTo(t, files, imports, chain, x) && x in Folders(t, files)
    ensures x in named
    decreases |chain|
  {
    var last := chain[|chain| - 1];
    if |chain| > 1 {
      var before := chain[..|chain| - 1];
      assert NamesFolderOf(t, imports, chain[|chain| - 2], last);
      var folder := t.FolderOf(last).value;
      assert folder in Folders(t, files);
      ChainIsNamed(t, files, imports, named, before, folder);
    }
    assert IsRead(t, last, named);
  }

  ghost predicate Chained(t: Trees, files: seq<File>, imports: Imports, x: string) {
    exists chain :: ChainTo(t, files, imports, chain, x)
  }

  lemma ChainOn(t: Trees, files: seq<File>, imports: Imports, f: File, y: string)
    requires f in files && f.go && Names(imports, f, y)
    requires t.FolderOf(f).Some? ==> Chained(t, files, imports, t.FolderOf(f).value)
    ensures Chained(t, files, imports, y)
  {
    hide Names, Trees.FolderOf;
    if t.FolderOf(f).None? {
      assert ChainTo(t, files, imports, [f], y);
    } else {
      var chain :| ChainTo(t, files, imports, chain, t.FolderOf(f).value);
      assert ChainTo(t, files, imports, chain + [f], y);
    }
  }

  /** A candidate folder is among the least set if and only if a chain of imports comes to it, from a Go file in no
      candidate folder (one that can not be parsed imports every folder). */
  lemma LeastIsByChains(t: Trees, files: seq<File>, imports: Imports, named: set<string>, x: string)
    requires IsLeast(t, files, imports, named) && x in Folders(t, files)
    ensures x in named <==> exists chain :: ChainTo(t, files, imports, chain, x)
  {
    var reached := set y | y in Folders(t, files) && Chained(t, files, imports, y);
    assert Closed(t, files, imports, reached) by {
      forall f, y | f in files && IsRead(t, f, reached) && y in Folders(t, files) && Names(imports, f, y)
        ensures y in reached
      {
        ChainOn(t, files, imports, f, y);
      }
    }
    assert named <= reached;
    hide Folders, ChainTo, Closed;
    if chain :| ChainTo(t, files, imports, chain, x) {
      ChainIsNamed(t, files, imports, named, chain, x);
    }
  }

  /** A vendored Go file in the folder `x`, which may be data. */
  ghost predicate InFolder(t: Trees, f: File, x: string) {
    f.vendor != "" && f.go && MayBeData(t, f.path, x)
  }

  /** Go files of the scan: one that is in no such folder, then each in one that the file before imports, as one that can not
      be parsed imports every folder; and the last imports `x`. */
  ghost predicate Imported(t: Trees, files: seq<File>, imports: Imports, chain: seq<File>, x: string) {
    && chain != []
    && (forall k :: 0 <= k < |chain| ==> chain[k] in files && chain[k].go)
    && (forall y :: !InFolder(t, chain[0], y))
    && (forall k :: 0 < k < |chain| ==> ImportsFolderOf(t, imports, chain[k - 1], chain[k]))
    && (imports(chain[|chain| - 1]).None? || x in imports(chain[|chain| - 1]).value)
  }

  lemma FolderIs(t: Trees, f: File, x: string)
    ensures t.FolderOf(f) == Some(x) <==> InFolder(t, f, x)
  {
    CandidateIs(t, f.path, x);
    hide MayBeData, Trees.Candidate;
  }

  /** The file before imports the folder of `f`, or any. */
  ghost predicate ImportsFolderOf(t: Trees, imports: Imports, before: File, f: File) {
    exists y :: InFolder(t, f, y) && (imports(before).None? || y in imports(before).value)
  }

  /** One link of a chain. */
  lemma LinkIs(t: Trees, imports: Imports, before: File, f: File)
    ensures t.FolderOf(f).None? <==> forall y :: !InFolder(t, f, y)
    ensures NamesFolderOf(t, imports, before, f) <==> ImportsFolderOf(t, imports, before, f)
  {
    if t.FolderOf(f).Some? {
      FolderIs(t, f, t.FolderOf(f).value);
    }
    forall y ensures InFolder(t, f, y) ==> t.FolderOf(f) == Some(y) {
      FolderIs(t, f, y);
    }
    hide InFolder;
  }

  lemma ImportedIs(t: Trees, files: seq<File>, imports: Imports, chain: seq<File>, x: string)
    ensures ChainTo(t, files, imports, chain, x) <==> Imported(t, files, imports, chain, x)
  {
    if chain != [] {
      LinkIs(t, imports, chain[0], chain[0]);
    }
    forall k | 0 < k < |chain|
      ensures NamesFolderOf(t, imports, chain[k - 1], chain[k]) <==> ImportsFolderOf(t, imports, chain[k - 1], chain[k])
    {
      LinkIs(t, imports, chain[k - 1], chain[k]);
    }
    hide InFolder, NamesFolderOf, ImportsFolderOf;
  }

  /** The folders named, by their files and chains of imports. */
  lemma NamedAre(t: Trees, files: seq<File>, imports: Imports, named: set<string>, x: string)
    requires IsLeast(t, files, imports, named)
    ensures x in named <==>
            (exists f :: f in files && InFolder(t, f, x)) && exists chain :: Imported(t, files, imports, chain, x)
  {
    forall f: File ensures t.FolderOf(f) == Some(x) <==> InFolder(t, f, x) {
      FolderIs(t, f, x);
    }
    forall chain ensures ChainTo(t, files, imports, chain, x) <==> Imported(t, files, imports, chain, x) {
      ImportedIs(t, files, imports, chain, x);
    }
    hide InFolder, Imported, ChainTo, Trees.FolderOf, Closed;
    assert x in Folders(t, files) <==> exists f :: f in files && InFolder(t, f, x);
    if x in Folders(t, files) {
      LeastIsByChains(t, files, imports, named, x);
    }
  }

  // ---- The script's own code ----------------------------------------------------------------------

  /** What the walk collected. */
  class Collected {
    var files: seq<File>
    var issues: seq<Issue>

    constructor (files: seq<File>, issues: seq<Issue>)
      ensures this.files == files && this.issues == issues
    {
      this.files, this.issues := files, issues;
    }
  }

  function Kept(t: Trees, files: seq<File>, named: set<string>): seq<File> {
    if files == [] then []
    else if t.FolderOf(files[0]).Some? && t.FolderOf(files[0]).value !in named then Kept(t, files[1..], named)
    else [files[0]] + Kept(t, files[1..], named)
  }

  function KeptIssues(t: Trees, issues: seq<Issue>, named: set<string>): seq<Issue> {
    if issues == [] then []
    else
      var folder := t.Candidate(issues[0].file);
      if issues[0].rule in READING_RULES && folder.Some? && folder.value !in named then KeptIssues(t, issues[1..], named)
      else [issues[0]] + KeptIssues(t, issues[1..], named)
  }

  /** `ys` is those of `xs` at the places `at`, in their order. */
  ghost predicate Picks<T>(xs: seq<T>, ys: seq<T>, at: seq<nat>) {
    && |at| == |ys| && (forall k, j :: 0 <= k < j < |at| ==> at[k] < at[j])
    && forall k :: 0 <= k < |at| ==> at[k] < |xs| && ys[k] == xs[at[k]]
  }

  /** A path in a folder that may be data and that no import named. */
  ghost predicate IsData(t: Trees, named: set<string>, path: string) {
    exists folder :: folder !in named && MayBeData(t, path, folder)
  }

  ghost predicate Dropped(t: Trees, named: set<string>, f: File) {
    f.vendor != "" && f.go && IsData(t, named, f.path)
  }

  ghost predicate DroppedIssue(t: Trees, named: set<string>, i: Issue) {
    i.rule in ["Q-ENCODING", "SC-UTF7", "SC-ESCAPE-CODEC", "SC-TRUNCATED"] && IsData(t, named, i.file)
  }

  lemma DataIs(t: Trees, named: set<string>, path: string)
    ensures IsData(t, named, path) <==> t.Candidate(path).Some? && t.Candidate(path).value !in named
  {
    hide Trees.Candidate, MayBeData;
    if t.Candidate(path).Some? {
      CandidateIs(t, path, t.Candidate(path).value);
    }
    forall folder ensures t.Candidate(path) == Some(folder) <==> MayBeData(t, path, folder) {
      CandidateIs(t, path, folder);
    }
  }

  /** One more in front. */
  lemma PicksOn<T>(x: T, xs: seq<T>, ys: seq<T>, at: seq<nat>, kept: bool) returns (at': seq<nat>)
    requires Picks(xs, ys, at)
    ensures Picks([x] + xs, (if kept then [x] else []) + ys, at')
    ensures forall i: nat :: i in at' <==> if i == 0 then kept else i - 1 in at
  {
    var later: seq<nat> := seq(|at|, k requires 0 <= k < |at| => at[k] + 1);
    assert forall i: nat :: i in later <==> i > 0 && i - 1 in at by {
      forall i: nat | i > 0 && i - 1 in at ensures i in later {
        var k :| 0 <= k < |at| && at[k] == i - 1;
        assert later[k] == i;
      }
    }
    at' := (if kept then [0] else []) + later;
  }

  /** The files are those that are not dropped, in their order. */
  lemma {:induction false} KeptIs(t: Trees, files: seq<File>, named: set<string>) returns (at: seq<nat>)
    ensures Picks(files, Kept(t, files, named), at)
    ensures forall i: nat :: i < |files| ==> (i in at <==> !Dropped(t, named, files[i]))
  {
    hide Trees.Candidate, MayBeData, Picks, IsData;
    if files == [] {
      at := NonePicked<File>();
    } else {
      DataIs(t, named, files[0].path);
      var more := KeptIs(t, files[1..], named);
      at := PicksOn(files[0], files[1..], Kept(t, files[1..], named), more, !Dropped(t, named, files[0]));
      assert files == [files[0]] + files[1..];
      assert [] + Kept(t, files[1..], named) == Kept(t, files[1..], named);
    }
  }

  lemma NonePicked<T>() returns (at: seq<nat>)
    ensures at == [] && Picks<T>([], [], at)
  {
    at := [];
  }

  /** So are the findings. */
  lemma {:induction false} KeptIssuesIs(t: Trees, issues: seq<Issue>, named: set<string>) returns (at: seq<nat>)
    ensures Picks(issues, KeptIssues(t, issues, named), at)
    ensures forall i: nat :: i < |issues| ==> (i in at <==> !DroppedIssue(t, named, issues[i]))
  {
    hide Trees.Candidate, MayBeData, Picks, IsData;
    if issues == [] {
      at := NonePicked<Issue>();
    } else {
      DataIs(t, named, issues[0].file);
      var more := KeptIssuesIs(t, issues[1..], named);
      at := PicksOn(issues[0], issues[1..], KeptIssues(t, issues[1..], named), more, !DroppedIssue(t, named, issues[0]));
      assert issues == [issues[0]] + issues[1..];
      assert [] + KeptIssues(t, issues[1..], named) == KeptIssues(t, issues[1..], named);
    }
  }

  /** The folders no import has named yet, with their files. */
  ghost predicate Sorts(t: Trees, files: seq<File>, folders: map<string, seq<File>>, named: set<string>) {
    && folders.Keys !! named && folders.Keys + named == Folders(t, files)
    && (forall x, f :: x in folders ==> (f in folders[x] <==> f in files && t.FolderOf(f) == Some(x)))
  }

  ghost predicate AnyNames(imports: Imports, read: seq<File>, x: string) {
    exists f :: f in read && Names(imports, f, x)
  }

  /** What the worklist keeps: the files in hand are read ones; the others read name no folder left; and no closed set
      lacks a folder named. */
  ghost predicate Inv(t: Trees, files: seq<File>, imports: Imports, folders: map<string, seq<File>>, read: seq<File>,
                      named: set<string>)
  {
    && Sorts(t, files, folders, named)
    && (forall f :: f in read ==> f in files && IsRead(t, f, named))
    && (forall f, x :: f in files && IsRead(t, f, named) && f !in read && x in folders ==> !Names(imports, f, x))
    && (forall other :: Closed(t, files, imports, other) ==> named <= other)
  }

  lemma FolderIsGo(t: Trees, f: File)
    ensures t.FolderOf(f).Some? ==> f.go
  {
  }

  lemma RoundSorts(t: Trees, files: seq<File>, folders: map<string, seq<File>>, named: set<string>, found: set<string>)
    requires Sorts(t, files, folders, named) && found <= folders.Keys
    ensures Sorts(t, files, folders - found, named + found)
  {
    hide Trees.FolderOf, Folders;
    assert (folders - found).Keys == folders.Keys - found;
  }

  lemma RoundRead(t: Trees, files: seq<File>, folders: map<string, seq<File>>, named: set<string>, found: set<string>,
                  read': seq<File>)
    requires Sorts(t, files, folders, named)
    requires forall f :: f in read' <==> exists x :: x in found && x in folders && f in folders[x]
    ensures forall f :: f in read' ==> f in files && IsRead(t, f, named + found)
    ensures forall f :: f in files && IsRead(t, f, named + found) && f !in read' && found <= folders.Keys
              ==> IsRead(t, f, named)
  {
    hide Trees.FolderOf, Folders;
    forall f | f in read' ensures f in files && IsRead(t, f, named + found) {
      FolderIsGo(t, f);
    }
  }

  lemma RoundLeast(t: Trees, files: seq<File>, imports: Imports, folders: map<string, seq<File>>, read: seq<File>,
                   named: set<string>, found: set<string>, other: set<string>)
    requires Inv(t, files, imports, folders, read, named) && Closed(t, files, imports, other)
    requires forall x :: x in found ==> x in folders && AnyNames(imports, read, x)
    ensures named + found <= other
  {
    hide Names, Trees.FolderOf, Folders;
    assert named <= other;
    forall x | x in found ensures x in other {
      var f :| f in read && Names(imports, f, x);
      assert IsRead(t, f, named);
      assert IsRead(t, f, other);
      assert x in folders.Keys + named;
      assert x in Folders(t, files);
    }
  }

  lemma Round(t: Trees, files: seq<File>, imports: Imports, folders: map<string, seq<File>>, read: seq<File>,
              named: set<string>, found: set<string>, read': seq<File>)
    requires Inv(t, files, imports, folders, read, named)
    requires forall x :: x in found <==> x in folders && AnyNames(imports, read, x)
    requires forall f :: f in read' <==> exists x :: x in found && x in folders && f in folders[x]
    ensures Inv(t, files, imports, folders - found, read', named + found)
  {
    RoundSorts(t, files, folders, named, found);
    RoundRead(t, files, folders, named, found, read');
    var folders', named' := folders - found, named + found;
    forall f, x | f in files && IsRead(t, f, named') && f !in read' && x in folders'
      ensures !Names(imports, f, x)
    {
      assert IsRead(t, f, named) && x in folders && x !in found;
      hide IsRead, Names, Sorts;
    }
    forall other | Closed(t, files, imports, other)
      ensures named' <= other
    {
      RoundLeast(t, files, imports, folders, read, named, found, other);
    }
    hide IsRead, Names, Sorts, Closed, AnyNames;
  }

  lemma Done(t: Trees, files: seq<File>, imports: Imports, folders: map<string, seq<File>>, read: seq<File>,
             named: set<string>)
    requires Inv(t, files, imports, folders, read, named) && (read == [] || folders.Keys == {})
    ensures IsLeast(t, files, imports, named)
  {
    hide Names, Trees.FolderOf, Folders;
  }

  /** goVendorData's worklist over what was collected: the folders named. */
  method NamedFolders(t: Trees, files: seq<File>, imports: Imports) returns (named: set<string>)
    ensures IsLeast(t, files, imports, named)
  {
    hide Names, Trees.FolderOf, Folders, Sorts, AnyNames, IsLeast;
    var folders, read := Sort(t, files);
    named := {};
    while read != [] && folders.Keys != {}
      invariant Inv(t, files, imports, folders, read, named)
      decreases folders.Keys, |read|
    {
      var imported, refused := ImportsOf(read, imports);
      var found := set x | x in folders.Keys && (refused || x in imported);
      var next := FilesOf(folders, found);
      Round(t, files, imports, folders, read, named, found, next);
      hide Inv;
      NothingFound(folders, found, next);
      read := next;
      folders := folders - found;
      named := named + found;
    }
    Done(t, files, imports, folders, read, named);
  }

  /** A round that names no folder leaves no file to read: the last. */
  lemma NothingFound(folders: map<string, seq<File>>, found: set<string>, next: seq<File>)
    requires found <= folders.Keys
    requires forall f :: f in next <==> exists x :: x in found && x in folders && f in folders[x]
    ensures (folders - found).Keys == folders.Keys - found
    ensures found == {} ==> next == []
  {
    assert next != [] ==> next[0] in next;
  }

  lemma SortsMore(t: Trees, files: seq<File>, folders: map<string, seq<File>>, f: File)
    requires Sorts(t, files, folders, {})
    ensures var folder := t.FolderOf(f);
            folder.None? ==> Sorts(t, files + [f], folders, {})
    ensures var folder := t.FolderOf(f);
            folder.Some? ==>
              Sorts(t, files + [f],
                    folders[folder.value := (if folder.value in folders then folders[folder.value] else []) + [f]], {})
  {
    hide Trees.FolderOf;
    assert forall g :: g in files + [f] <==> g in files || g == f;
    var folder := t.FolderOf(f);
    assert Folders(t, files + [f]) == Folders(t, files) + (if folder.Some? then {folder.value} else {});
    hide Folders;
    if folder.Some? {
      var x := folder.value;
      var after := folders[x := (if x in folders then folders[x] else []) + [f]];
      assert after.Keys == folders.Keys + {x};
      forall y, g | y in after
        ensures g in after[y] <==> g in files + [f] && t.FolderOf(g) == Some(y)
      {
        if y == x && x !in folders {
          assert x !in folders.Keys + {};
          assert t.FolderOf(g) == Some(x) && g in files ==> x in folders by { NotSorted(t, files, folders, g); }
        }
      }
    }
  }

  lemma NotSorted(t: Trees, files: seq<File>, folders: map<string, seq<File>>, g: File)
    requires Sorts(t, files, folders, {})
    ensures g in files && t.FolderOf(g).Some? ==> t.FolderOf(g).value in folders
  {
  }

  /** The candidate folders with their files, and the other Go files. */
  method Sort(t: Trees, files: seq<File>) returns (folders: map<string, seq<File>>, read: seq<File>)
    ensures Sorts(t, files, folders, {})
    ensures forall f :: f in read <==> f in files && f.go && t.FolderOf(f).None?
  {
    folders, read := map[], [];
    assert Sorts(t, files[..0], folders, {});
    hide Trees.FolderOf, Sorts;
    for n := 0 to |files|
      invariant Sorts(t, files[..n], folders, {})
      invariant forall f :: f in read <==> f in files[..n] && f.go && t.FolderOf(f).None?
    {
      var f := files[n];
      var folder := t.FolderOf(f);
      assert files[..n + 1] == files[..n] + [f];
      SortsMore(t, files[..n], folders, f);
      if folder.Some? {
        folders := folders[folder.value := (if folder.value in folders then folders[folder.value] else []) + [f]];
      } else if f.go {
        read := read + [f];
      }
    }
    assert files[..|files|] == files;
  }

  lemma AnyNamesPush(imports: Imports, read: seq<File>, f: File)
    ensures forall x :: AnyNames(imports, read + [f], x) <==> AnyNames(imports, read, x) || Names(imports, f, x)
  {
    hide Names;
    assert forall g :: g in read + [f] <==> g in read || g == f;
  }

  /** What the files read import, and whether the parser refused one. */
  method ImportsOf(read: seq<File>, imports: Imports) returns (imported: set<string>, refused: bool)
    ensures forall x :: (refused || x in imported) <==> AnyNames(imports, read, x)
  {
    imported, refused := {}, false;
    for n := 0 to |read|
      invariant forall x :: (refused || x in imported) <==> AnyNames(imports, read[..n], x)
    {
      assert read[..n + 1] == read[..n] + [read[n]];
      AnyNamesPush(imports, read[..n], read[n]);
      hide AnyNames;
      match imports(read[n])
      case None => refused := true;
      case Some(paths) => imported := imported + (set p | p in paths);
    }
    assert read[..|read|] == read;
  }

  method FilesOf(folders: map<string, seq<File>>, found: set<string>) returns (read: seq<File>)
    requires found <= folders.Keys
    ensures forall f :: f in read <==> exists x :: x in found && x in folders && f in folders[x]
  {
    read := [];
    var order := Sorted(found);
    for n := 0 to |order|
      invariant forall f :: f in read <==> exists k :: 0 <= k < n && f in folders[order[k]]
    {
      read := read + folders[order[n]];
    }
    forall f ensures f in read <==> exists x :: x in found && x in folders && f in folders[x] {
      if x :| x in found && x in folders && f in folders[x] {
        var k :| 0 <= k < |order| && order[k] == x;
      }
    }
  }

  /** goVendorData: what is data goes, files and the findings that come of reading such files. */
  method GoVendorData(t: Trees, col: Collected, imports: Imports)
    returns (ghost named: set<string>, ghost filesAt: seq<nat>, ghost issuesAt: seq<nat>)
    modifies col
    ensures IsLeast(t, old(col.files), imports, named)
    ensures forall x :: x in named <==>
              && (exists f :: f in old(col.files) && InFolder(t, f, x))
              && exists chain :: Imported(t, old(col.files), imports, chain, x)
    ensures Picks(old(col.files), col.files, filesAt) && Picks(old(col.issues), col.issues, issuesAt)
    ensures forall i: nat :: i < |old(col.files)| ==> (i in filesAt <==> !Dropped(t, named, old(col.files)[i]))
    ensures forall i: nat :: i < |old(col.issues)| ==> (i in issuesAt <==> !DroppedIssue(t, named, old(col.issues)[i]))
  {
    hide Picks, Dropped, DroppedIssue, InFolder, Imported;
    var found := NamedFolders(t, col.files, imports);
    named := found;
    forall x ensures x in named <==>
      (exists f :: f in col.files && InFolder(t, f, x)) && exists chain :: Imported(t, col.files, imports, chain, x)
    {
      NamedAre(t, col.files, imports, named, x);
    }
    filesAt := KeptIs(t, col.files, found);
    issuesAt := KeptIssuesIs(t, col.issues, found);
    col.files := Kept(t, col.files, found);
    col.issues := KeptIssues(t, col.issues, found);
  }
}
