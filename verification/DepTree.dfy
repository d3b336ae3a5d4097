/**
 js/src/deps.js, DependencyTree: which paths of a scanned tree may be read. isFile answers for one path; under lists
 every path below a folder it answers true for.
 */
module DepTree {
  import opened Common
  import opened Texts

  const MAX_WALK_DEPTH: nat := 512

  /** What is on the disk at a path, without following a link. */
  datatype Node = File | Link | Other | Dir(entries: seq<Named>)

  datatype Named = Named(name: string, node: Node)

  predicate Special(name: string) {
    name in ["", ".", ".."]
  }

  /** The names of a folder's entries are names, each of one entry. */
  predicate Proper(node: Node)
    decreases node
  {
    node.Dir? ==>
      && (forall i :: 0 <= i < |node.entries| ==>
           var e := node.entries[i]; !Special(e.name) && '/' !in e.name && Proper(e.node))
      && (forall i, j :: 0 <= i < j < |node.entries| ==> node.entries[i].name != node.entries[j].name)
  }

  function Find(entries: seq<Named>, name: string): Option<Node> {
    if entries == [] then None
    else if entries[0].name == name then Some(entries[0].node)
    else Find(entries[1..], name)
  }

  /** lstat of a name in a folder; "", "." and ".." are folders. */
  function Lstat(dir: Node, name: string): Option<Node>
    requires dir.Dir?
  {
    if Special(name) then Some(Dir([])) else Find(dir.entries, name)
  }

  /** What the parts lead to from a folder, each folder on the way a real one. */
  function Walk(dir: Node, parts: seq<string>): Option<Node>
    requires dir.Dir? && parts != []
    decreases |parts|
  {
    var next := Lstat(dir, parts[0]);
    if |parts| == 1 then next
    else if next.Some? && next.value.Dir? then Walk(next.value, parts[1..])
    else None
  }

  /** The scan's view of a tree: what the walk read, and where nothing is read. */
  datatype View = View(root: Node, sources: set<string>, manifests: set<string>, excludes: set<string>,
                       pruned: set<string>)
  {
    predicate Read(rel: string) {
      rel in sources || rel in manifests
    }

    predicate Barred(part: string) {
      part in excludes || Special(part)
    }

    /** Some folder on the way, after one to `n` parts, was pruned. */
    predicate InPruned(parts: seq<string>, n: nat)
      requires n <= |parts|
    {
      exists k :: 0 < k <= n && Join(parts[..k], '/') in pruned
    }

    /** The folders on the way, the first `n` parts, may be opened. */
    predicate Open(parts: seq<string>, n: nat)
      requires n <= |parts|
    {
      (forall k :: 0 <= k < n ==> !Barred(parts[k])) && !InPruned(parts, n) && n <= MAX_WALK_DEPTH
    }

    /** onDisk's answer. */
    predicate OnDisk(rel: string)
      requires root.Dir?
    {
      var parts := Split(rel, '/');
      Open(parts, |parts| - 1) && Walk(root, parts) == Some(File)
    }

    /** isFile's answer. */
    predicate IsFile(rel: string)
      requires root.Dir?
    {
      Read(rel) || OnDisk(rel)
    }

    // ---- What the stack of under finds ------------------------------------------------

    /** From the folder `dir` at `rel`, `depth` folders down, under's search comes to a file by `parts`. */
    predicate Comes(dir: Node, rel: string, depth: nat, parts: seq<string>)
      requires dir.Dir? && parts != []
      decreases |parts|
    {
      depth <= MAX_WALK_DEPTH &&
      match Find(dir.entries, parts[0])
      case None => false
      case Some(next) =>
        if |parts| == 1 then next == File
        else
          var sub := rel + "/" + parts[0];
          next.Dir? && parts[0] !in excludes && sub !in pruned && Comes(next, sub, depth + 1, parts[1..])
    }

    predicate Finds(dir: Node, rel: string, depth: nat, path: string)
      requires dir.Dir?
    {
      Below(rel, path) && Comes(dir, rel, depth, PartsBelow(rel, path))
    }
  }

  predicate Below(folder: string, path: string) {
    |folder| < |path| && path[..|folder|] == folder && path[|folder|] == '/'
  }

  function PartsBelow(folder: string, path: string): (parts: seq<string>)
    requires Below(folder, path)
    ensures parts != []
  {
    Split(path[|folder| + 1..], '/')
  }

  /** The parts of a path below a folder are the folder's and then its own. */
  lemma PartsOf(folder: string, path: string)
    requires Below(folder, path)
    ensures Split(path, '/') == Split(folder, '/') + PartsBelow(folder, path)
  {
    SplitAt(folder, path[|folder| + 1..], '/');
    assert path == folder + "/" + path[|folder| + 1..];
  }

  lemma {:induction false} WalkJoins(dir: Node, a: seq<string>, b: seq<string>)
    requires dir.Dir? && a != [] && b != []
    ensures Walk(dir, a + b) ==
            match Walk(dir, a) case Some(node) => (if node.Dir? then Walk(node, b) else None) case None => None
    decreases |a|
  {
    assert (a + b)[0] == a[0] && (a + b)[1..] == a[1..] + b;
    var next := Lstat(dir, a[0]);
    if |a| == 1 {
      assert a[1..] + b == b;
    } else if next.Some? && next.value.Dir? {
      WalkJoins(next.value, a[1..], b);
    }
  }

  lemma {:induction false} FindIn(entries: seq<Named>, name: string)
    ensures Find(entries, name).Some? ==>
              exists i :: 0 <= i < |entries| && entries[i] == Named(name, Find(entries, name).value)
    ensures Find(entries, name).None? ==> forall i :: 0 <= i < |entries| ==> entries[i].name != name
  {
    if entries != [] && entries[0].name != name {
      FindIn(entries[1..], name);
      if Find(entries, name).Some? {
        var i :| 0 <= i < |entries[1..]| && entries[1..][i] == Named(name, Find(entries, name).value);
        assert entries[i + 1] == entries[1..][i];
      } else {
        forall i | 0 <= i < |entries| ensures entries[i].name != name {
          assert i > 0 ==> entries[i] == entries[1..][i - 1];
        }
      }
    }
  }

  lemma FindProper(dir: Node, name: string)
    requires dir.Dir? && Proper(dir)
    ensures var next := Find(dir.entries, name);
            next.Some? ==> !Special(name) && '/' !in name && Proper(next.value)
  {
    FindIn(dir.entries, name);
  }

  lemma {:induction false} JoinPush(parts: seq<string>, part: string)
    ensures Join(parts + [part], '/') == if parts == [] then part else Join(parts, '/') + "/" + part
  {
    if |parts| > 0 {
      assert (parts + [part])[1..] == parts[1..] + [part];
      JoinPush(parts[1..], part);
      if |parts| == 1 {
        assert Join([part], '/') == part;
      } else {
        assert parts[0] + "/" + (Join(parts[1..], '/') + "/" + part) == parts[0] + "/" + Join(parts[1..], '/') + "/" + part;
      }
    }
  }

  /** One folder further is open when its name is not barred, it is not pruned and it is not too deep. */
  lemma OpenNext(v: View, parts: seq<string>, n: nat)
    requires n < |parts|
    ensures v.Open(parts, n + 1) <==>
            v.Open(parts, n) && !v.Barred(parts[n]) && Join(parts[..n + 1], '/') !in v.pruned && n + 1 <= MAX_WALK_DEPTH
  {
    assert v.InPruned(parts, n + 1) <==> v.InPruned(parts, n) || Join(parts[..n + 1], '/') in v.pruned;
  }

  /** How many folders are open only shrinks on the way. */
  lemma {:induction false} OpenBefore(v: View, parts: seq<string>, m: nat, n: nat)
    requires m <= n <= |parts| && v.Open(parts, n)
    ensures v.Open(parts, m)
  {
  }

  /** What the search comes to from a folder that is open is what isFile answers for on the disk. */
  lemma {:induction false} ComesIsOnDisk(v: View, dir: Node, all: seq<string>, n: nat)
    requires dir.Dir? && Proper(dir) && 0 < n < |all|
    requires (forall k :: 0 <= k < n ==> !v.Barred(all[k])) && !v.InPruned(all, n)
    ensures v.Comes(dir, Join(all[..n], '/'), n, all[n..]) <==>
            v.Open(all, |all| - 1) && Walk(dir, all[n..]) == Some(File)
    decreases |all| - n
  {
    var rel, parts := Join(all[..n], '/'), all[n..];
    assert parts[0] == all[n] && parts[1..] == all[n + 1..];
    FindProper(dir, parts[0]);
    if v.Open(all, |all| - 1) {
      OpenBefore(v, all, n, |all| - 1);
    }
    if |parts| > 1 {
      assert all[..n + 1] == all[..n] + [all[n]];
      JoinPush(all[..n], all[n]);
      OpenNext(v, all, n);
      if v.Open(all, |all| - 1) {
        OpenBefore(v, all, n + 1, |all| - 1);
      }
      var next := Find(dir.entries, parts[0]);
      if next.Some? && next.value.Dir? && v.Open(all, n + 1) {
        ComesIsOnDisk(v, next.value, all, n + 1);
      } else if next.Some? && next.value.Dir? && n + 1 > MAX_WALK_DEPTH {
        DeepComesToNothing(v, next.value, rel + "/" + parts[0], n + 1, parts[1..]);
      }
    }
  }

  lemma DeepComesToNothing(v: View, dir: Node, rel: string, depth: nat, parts: seq<string>)
    requires dir.Dir? && parts != [] && depth > MAX_WALK_DEPTH
    ensures !v.Comes(dir, rel, depth, parts)
  {
  }

  // ---- under's search ------------------------------------------------------------------------

  datatype Item = Item(dir: Node, rel: string, depth: nat)

  predicate ItemProper(it: Item) {
    it.dir.Dir? && Proper(it.dir)
  }

  function Size(node: Node): (n: nat)
    ensures n > 0
    decreases node
  {
    match node
    case Dir(entries) => 1 + SizeOf(entries)
    case _ => 1
  }

  function SizeOf(entries: seq<Named>): nat
    decreases entries
  {
    if entries == [] then 0 else Size(entries[0].node) + SizeOf(entries[1..])
  }

  function Pending(stack: seq<Item>): nat {
    if stack == [] then 0 else Pending(stack[..|stack| - 1]) + Size(stack[|stack| - 1].dir)
  }

  predicate FoundBy(v: View, it: Item, x: string) {
    it.dir.Dir? && v.Finds(it.dir, it.rel, it.depth, x)
  }

  /** Path `x` is found from one of the items. */
  ghost predicate FoundFrom(v: View, stack: seq<Item>, x: string) {
    exists it :: it in stack && FoundBy(v, it, x)
  }

  lemma FoundPush(v: View, stack: seq<Item>, it: Item)
    ensures forall x :: FoundFrom(v, stack + [it], x) <==> FoundFrom(v, stack, x) || FoundBy(v, it, x)
  {
    hide FoundBy;
    assert forall i :: i in stack + [it] <==> i in stack || i == it;
  }

  /** A path that one entry of a folder accounts for: the file itself, or one found from the folder it is. */
  predicate ViaEntry(v: View, it: Item, e: Named, x: string) {
    var sub := it.rel + "/" + e.name;
    if e.node == File then x == sub
    else e.node.Dir? && e.name !in v.excludes && sub !in v.pruned && v.Finds(e.node, sub, it.depth + 1, x)
  }

  /** What is found from a folder is what its entries account for. */
  lemma FindsByEntry(v: View, it: Item, x: string)
    requires ItemProper(it) && it.depth <= MAX_WALK_DEPTH
    ensures v.Finds(it.dir, it.rel, it.depth, x) <==>
            exists i :: 0 <= i < |it.dir.entries| && ViaEntry(v, it, it.dir.entries[i], x)
  {
    var entries := it.dir.entries;
    if v.Finds(it.dir, it.rel, it.depth, x) {
      var parts := PartsBelow(it.rel, x);
      FindIn(entries, parts[0]);
      var i :| 0 <= i < |entries| && entries[i] == Named(parts[0], Find(entries, parts[0]).value);
      ViaFound(v, it, entries[i], x);
    }
    forall i | 0 <= i < |entries| && ViaEntry(v, it, entries[i], x)
      ensures v.Finds(it.dir, it.rel, it.depth, x)
    {
      FindOwn(entries, i);
      FoundVia(v, it, entries[i], x);
    }
  }

  /** One of the first `n` entries accounts for `x`. */
  ghost predicate ViaSome(v: View, it: Item, n: nat, x: string)
    requires it.dir.Dir? && n <= |it.dir.entries|
  {
    exists i :: 0 <= i < n && ViaEntry(v, it, it.dir.entries[i], x)
  }

  lemma ViaNext(v: View, it: Item, n: nat)
    requires it.dir.Dir? && n < |it.dir.entries|
    ensures forall x :: ViaSome(v, it, n + 1, x) <==> ViaSome(v, it, n, x) || ViaEntry(v, it, it.dir.entries[n], x)
  {
    hide ViaEntry;
  }

  lemma ByEntries(v: View, it: Item)
    requires ItemProper(it) && it.depth <= MAX_WALK_DEPTH
    ensures forall x :: FoundBy(v, it, x) <==> ViaSome(v, it, |it.dir.entries|, x)
  {
    forall x ensures FoundBy(v, it, x) <==> ViaSome(v, it, |it.dir.entries|, x) {
      FindsByEntry(v, it, x);
    }
  }

  lemma TooDeep(v: View, it: Item)
    requires it.depth > MAX_WALK_DEPTH
    ensures forall x :: !FoundBy(v, it, x)
  {
  }

  lemma {:induction false} FindOwn(entries: seq<Named>, i: nat)
    requires i < |entries| && forall a, b :: 0 <= a < b < |entries| ==> entries[a].name != entries[b].name
    ensures Find(entries, entries[i].name) == Some(entries[i].node)
  {
    if i > 0 {
      FindOwn(entries[1..], i - 1);
    }
  }

  lemma PathSplit(rel: string, x: string)
    requires Below(rel, x)
    ensures var parts := PartsBelow(rel, x);
            && '/' !in parts[0]
            && (|parts| == 1 ==> x == rel + "/" + parts[0])
            && (|parts| > 1 ==> Below(rel + "/" + parts[0], x)
                                && PartsBelow(rel + "/" + parts[0], x) == parts[1..])
  {
    var rest := x[|rel| + 1..];
    var parts := Split(rest, '/');
    SplitPieces(rest, '/');
    assert x == rel + "/" + rest;
    if |parts| > 1 {
      var first, more := parts[0], Join(parts[1..], '/');
      assert rest == first + "/" + more;
      var sub := rel + "/" + first;
      assert x == sub + "/" + more;
      SplitJoin(parts[1..], '/');
      assert x[|sub| + 1..] == more;
    } else {
      assert Join(parts, '/') == parts[0];
    }
  }

  lemma ViaFound(v: View, it: Item, e: Named, x: string)
    requires ItemProper(it) && v.Finds(it.dir, it.rel, it.depth, x)
    requires var parts := PartsBelow(it.rel, x);
             Find(it.dir.entries, parts[0]).Some? && e == Named(parts[0], Find(it.dir.entries, parts[0]).value)
    ensures ViaEntry(v, it, e, x)
  {
    PathSplit(it.rel, x);
  }

  lemma FoundVia(v: View, it: Item, e: Named, x: string)
    requires ItemProper(it) && it.depth <= MAX_WALK_DEPTH && e in it.dir.entries
    requires Find(it.dir.entries, e.name) == Some(e.node)
    requires ViaEntry(v, it, e, x)
    ensures v.Finds(it.dir, it.rel, it.depth, x)
  {
    var sub := it.rel + "/" + e.name;
    assert '/' !in e.name;
    if e.node == File {
      assert x[|it.rel| + 1..] == e.name && x[..|it.rel|] == it.rel;
      SplitLast(e.name, '/');
    } else {
      assert x[..|it.rel|] == sub[..|it.rel|] == it.rel && x[|it.rel|] == sub[|it.rel|];
      var more := x[|sub| + 1..];
      assert x == sub + "/" + more;
      assert x[|it.rel| + 1..] == e.name + "/" + more;
      SplitFirst(e.name, more, '/');
      assert PartsBelow(it.rel, x)[1..] == PartsBelow(sub, x);
    }
  }

  // ---- Which paths are files, by entries ------------------------------------------------------

  /** The nodes from a folder along the names of a path, each an entry of the one before. */
  predicate LeadsTo(dir: Node, parts: seq<string>, nodes: seq<Node>) {
    && |nodes| == |parts| + 1 && nodes[0] == dir
    && forall k :: 0 <= k < |parts| ==> nodes[k].Dir? && Named(parts[k], nodes[k + 1]) in nodes[k].entries
  }

  /** `rel` is a file, reached through folders that are real, not excluded, named by a name of their own, not pruned and not
      too deep. */
  ghost predicate IsRegular(v: View, rel: string) {
    var parts := Split(rel, '/');
    && |parts| - 1 <= 512
    && (forall k :: 0 <= k < |parts| - 1 ==>
          parts[k] !in v.excludes && parts[k] != "" && parts[k] != "." && parts[k] != "..")
    && (forall p :: p in v.pruned ==> !(p + "/" <= rel))
    && exists nodes :: LeadsTo(v.root, parts, nodes) && nodes[|parts|] == File
  }

  /** A folder on the way is what stands before a slash. */
  lemma OnTheWay(rel: string, p: string)
    ensures var parts := Split(rel, '/');
            p + "/" <= rel <==> exists k :: 0 < k <= |parts| - 1 && Join(parts[..k], '/') == p
  {
    var parts := Split(rel, '/');
    hide Split, Join;
    SplitPieces(rel, '/');
    if k :| 0 < k <= |parts| - 1 && Join(parts[..k], '/') == p {
      JoinBoth(parts[..k], parts[k..], '/');
      assert parts == parts[..k] + parts[k..];
    }
    if p + "/" <= rel {
      var more := rel[|p| + 1..];
      assert rel == p + ['/'] + more;
      SplitAt(p, more, '/');
      SplitPieces(p, '/');
      assert parts[..|Split(p, '/')|] == Split(p, '/');
    }
  }

  lemma PrunedIs(v: View, rel: string)
    ensures var parts := Split(rel, '/');
            v.InPruned(parts, |parts| - 1) <==> exists p :: p in v.pruned && p + "/" <= rel
  {
    var parts := Split(rel, '/');
    hide Split, Join;
    forall p ensures p + "/" <= rel <==> exists k :: 0 < k <= |parts| - 1 && Join(parts[..k], '/') == p {
      OnTheWay(rel, p);
    }
  }

  /** Nothing is below a name that is none of an entry's. */
  lemma {:induction false} NoFileThere(parts: seq<string>)
    requires parts != []
    ensures Walk(Dir([]), parts) != Some(File)
    decreases |parts|
  {
    if |parts| > 1 {
      NoFileThere(parts[1..]);
    }
  }

  lemma FindIs(dir: Node, name: string, next: Node)
    requires dir.Dir? && Proper(dir)
    ensures Find(dir.entries, name) == Some(next) <==> Named(name, next) in dir.entries
  {
    FindIn(dir.entries, name);
    if Named(name, next) in dir.entries {
      var i :| 0 <= i < |dir.entries| && dir.entries[i] == Named(name, next);
    }
  }

  /** Walking the parts comes to a file exactly when nodes lead there. */
  lemma {:induction false} WalkIsLead(dir: Node, parts: seq<string>)
    requires dir.Dir? && Proper(dir) && parts != []
    ensures Walk(dir, parts) == Some(File) <==> exists nodes :: LeadsTo(dir, parts, nodes) && nodes[|parts|] == File
    decreases |parts|
  {
    FindProper(dir, parts[0]);
    var next := Find(dir.entries, parts[0]);
    if next.Some? {
      FindIs(dir, parts[0], next.value);
    }
    if |parts| > 1 {
      NoFileThere(parts[1..]);
    }
    if Walk(dir, parts) == Some(File) {
      assert !Special(parts[0]) && next.Some?;
      if |parts| == 1 {
        assert LeadsTo(dir, parts, [dir, File]);
      } else {
        WalkIsLead(next.value, parts[1..]);
        var nodes :| LeadsTo(next.value, parts[1..], nodes) && nodes[|parts| - 1] == File;
        assert LeadsTo(dir, parts, [dir] + nodes) && ([dir] + nodes)[|parts|] == File;
      }
    }
    if nodes :| LeadsTo(dir, parts, nodes) && nodes[|parts|] == File {
      FindIs(dir, parts[0], nodes[1]);
      if |parts| > 1 {
        assert LeadsTo(nodes[1], parts[1..], nodes[1..]) && nodes[1..][|parts| - 1] == File;
        WalkIsLead(nodes[1], parts[1..]);
      }
    }
  }

  lemma OnDiskIs(v: View, rel: string)
    requires v.root.Dir? && Proper(v.root)
    ensures v.OnDisk(rel) <==> IsRegular(v, rel)
  {
    PrunedIs(v, rel);
    WalkIsLead(v.root, Split(rel, '/'));
    hide LeadsTo, Walk, Proper, Split, View.InPruned;
  }

  class DependencyTree {
    const view: View
    var regular: map<string, bool>          // onDisk's answers so far

    ghost predicate Valid()
      reads this
    {
      view.root.Dir? && Proper(view.root) && forall rel :: rel in regular ==> regular[rel] == view.OnDisk(rel)
    }

    constructor (root: Node, sources: set<string>, manifests: set<string>, exclude: set<string>, pruned: set<string>)
      requires root.Dir? && Proper(root)
      ensures Valid() && view == View(root, sources, manifests, exclude + {".git"}, pruned)
    {
      view, regular := View(root, sources, manifests, exclude + {".git"}, pruned), map[];
    }

    /** isFile: the answer for the disk asked once. */
    method IsFile(rel: string) returns (answer: bool)
      requires Valid()
      modifies this`regular
      ensures Valid() && answer == view.IsFile(rel)
      ensures answer <==> rel in view.sources || rel in view.manifests || IsRegular(view, rel)
    {
      OnDiskIs(view, rel);
      if view.Read(rel) {
        return true;
      }
      if rel !in regular {
        var found := OnDisk(rel);
        regular := regular[rel := found];
      }
      answer := regular[rel];
    }

    /** onDisk: the parts of the path one by one, no link on the way. */
    method OnDisk(rel: string) returns (answer: bool)
      requires Valid()
      ensures answer == view.OnDisk(rel)
    {
      var parts := Split(rel, '/');
      if !view.Open(parts, |parts| - 1) {
        return false;
      }
      var dir, k := view.root, 0;
      while k < |parts|
        invariant k < |parts| && dir.Dir?
        invariant Walk(dir, parts[k..]) == Walk(view.root, parts)
      {
        assert parts[k..][0] == parts[k] && parts[k..][1..] == parts[k + 1..];
        var st := Lstat(dir, parts[k]);
        if st.None? {
          return false;
        }
        if st.value.Link? {
          return false;
        }
        if k < |parts| - 1 {
          if !st.value.Dir? {
            return false;
          }
        } else {
          return st.value.File?;
        }
        dir := st.value;
        k := k + 1;
      }
    }

    /** The folder's node; None if a link, a barred part or a pruned folder is on the way, or no folder is there. */
    method OpenFolder(folder: string) returns (dir: Option<Node>)
      requires Valid()
      ensures dir.Some? ==> dir.value.Dir? && Proper(dir.value)
      ensures var parts := Split(folder, '/');
              if (forall k :: 0 <= k < |parts| ==> !view.Barred(parts[k])) && !view.InPruned(parts, |parts|)
                 && |parts| - 1 <= MAX_WALK_DEPTH && Walk(view.root, parts).Some? && Walk(view.root, parts).value.Dir?
              then dir == Walk(view.root, parts) else dir.None?
    {
      var parts := Split(folder, '/');
      if (exists k :: 0 <= k < |parts| && view.Barred(parts[k])) || view.InPruned(parts, |parts|)
         || |parts| - 1 > MAX_WALK_DEPTH {
        return None;
      }
      var at, k := view.root, 0;
      while k < |parts|
        invariant k <= |parts| && at.Dir? && Proper(at)
        invariant k < |parts| ==> Walk(at, parts[k..]) == Walk(view.root, parts)
        invariant k == |parts| ==> Walk(view.root, parts) == Some(at)
      {
        assert parts[k..][0] == parts[k] && parts[k..][1..] == parts[k + 1..];
        var st := Lstat(at, parts[k]);
        if st.None? || !st.value.Dir? {
          return None;
        }
        FindProper(at, parts[k]);
        at := st.value;
        k := k + 1;
      }
      dir := Some(at);
    }

    /** under: what isFile accepts below `folder`, sorted. */
    method Under(folder: string) returns (paths: seq<string>)
      requires Valid()
      ensures forall i, j :: 0 <= i < j < |paths| ==> Precedes(paths[i], paths[j])
      ensures forall x :: x in paths <==>
                folder + "/" <= x && (x in view.sources || x in view.manifests || IsRegular(view, x))
    {
      hide IsRegular, View.OnDisk;
      var out := set x | x in view.sources + view.manifests && Below(folder, x);
      var dir := OpenFolder(folder);
      if dir.Some? {
        var found := Search(dir.value, folder, |Split(folder, '/')|);
        forall x ensures x in found <==> Below(folder, x) && view.OnDisk(x) {
          if Below(folder, x) {
            UnderIsOnDisk(dir.value, folder, x);
          }
        }
        out := out + found;
      } else {
        forall x | Below(folder, x) ensures !view.OnDisk(x) {
          NothingUnder(folder, x);
        }
      }
      forall x ensures x in out <==> folder + "/" <= x && (x in view.sources || x in view.manifests || IsRegular(view, x)) {
        OnDiskIs(view, x);
      }
      paths := Sorted(out);
    }

    /** The search from a folder: a stack of the folders to read. */
    method Search(dir: Node, folder: string, depth: nat) returns (out: set<string>)
      requires dir.Dir? && Proper(dir)
      ensures forall x :: x in out <==> view.Finds(dir, folder, depth, x)
    {
      out := {};
      var start := Item(dir, folder, depth);
      var stack := [start];
      FoundPush(view, [], start);
      assert [] + [start] == [start];
      while stack != []
        invariant forall it :: it in stack ==> ItemProper(it)
        invariant forall x :: FoundBy(view, start, x) <==> x in out || FoundFrom(view, stack, x)
        decreases Pending(stack)
      {
        hide FoundBy, FoundFrom;
        var it := stack[|stack| - 1];
        var below := stack[..|stack| - 1];
        assert stack == below + [it];
        FoundPush(view, below, it);
        stack := below;
        if it.depth > MAX_WALK_DEPTH {
          TooDeep(view, it);
          continue;
        }
        ByEntries(view, it);
        out, stack := ReadFolder(it, out, stack);
      }
    }

    /** The entries of one folder: its files, and its folders on the stack. */
    method ReadFolder(it: Item, out0: set<string>, stack0: seq<Item>) returns (out: set<string>, stack: seq<Item>)
      requires ItemProper(it) && forall i :: i in stack0 ==> ItemProper(i)
      ensures forall i :: i in stack ==> ItemProper(i)
      ensures Pending(stack) < Pending(stack0) + Size(it.dir)
      ensures forall x :: x in out || FoundFrom(view, stack, x) <==>
                x in out0 || FoundFrom(view, stack0, x) || ViaSome(view, it, |it.dir.entries|, x)
    {
      hide FoundFrom, ViaEntry;
      out, stack := out0, stack0;
      var entries := it.dir.entries;
      for n := 0 to |entries|
        invariant forall i :: i in stack ==> ItemProper(i)
        invariant Pending(stack) + SizeOf(entries[n..]) <= Pending(stack0) + SizeOf(entries)
        invariant forall x :: x in out || FoundFrom(view, stack, x) <==>
                    x in out0 || FoundFrom(view, stack0, x) || ViaSome(view, it, n, x)
      {
        assert entries[n..][0] == entries[n] && entries[n..][1..] == entries[n + 1..];
        ViaNext(view, it, n);
        out, stack := ReadEntry(it, entries[n], out, stack);
      }
    }

    method ReadEntry(it: Item, e: Named, out0: set<string>, stack0: seq<Item>) returns (out: set<string>, stack: seq<Item>)
      requires ItemProper(it) && e in it.dir.entries && forall i :: i in stack0 ==> ItemProper(i)
      ensures forall i :: i in stack ==> ItemProper(i)
      ensures Pending(stack) <= Pending(stack0) + Size(e.node)
      ensures forall x :: x in out || FoundFrom(view, stack, x) <==>
                x in out0 || FoundFrom(view, stack0, x) || ViaEntry(view, it, e, x)
    {
      out, stack := out0, stack0;
      var sub := it.rel + "/" + e.name;
      if e.node.Dir? {
        if e.name !in view.excludes && sub !in view.pruned {
          stack := stack + [Item(e.node, sub, it.depth + 1)];
          assert stack[..|stack| - 1] == stack0;
          FoundPush(view, stack0, Item(e.node, sub, it.depth + 1));
        }
      } else if e.node.File? {
        out := out + {sub};
      }
      hide FoundFrom;
    }

    lemma UnderIsOnDisk(dir: Node, folder: string, x: string)
      requires Valid() && dir.Dir? && Proper(dir) && Below(folder, x)
      requires var parts := Split(folder, '/');
               && (forall k :: 0 <= k < |parts| ==> !view.Barred(parts[k])) && !view.InPruned(parts, |parts|)
               && Walk(view.root, parts) == Some(dir)
      ensures view.Finds(dir, folder, |Split(folder, '/')|, x) <==> view.OnDisk(x)
    {
      var parts := Split(folder, '/');
      var all := Split(x, '/');
      PartsOf(folder, x);
      var n := |parts|;
      assert all[..n] == parts && all[n..] == PartsBelow(folder, x);
      SplitPieces(folder, '/');
      assert !view.InPruned(all, n) by {
        assert forall k :: 0 < k <= n ==> all[..k] == parts[..k];
      }
      ComesIsOnDisk(view, dir, all, n);
      WalkJoins(view.root, parts, all[n..]);
    }

    /** Below a folder under does not open, isFile answers for nothing on the disk. */
    lemma NothingUnder(folder: string, x: string)
      requires Valid() && Below(folder, x)
      requires var parts := Split(folder, '/');
               !((forall k :: 0 <= k < |parts| ==> !view.Barred(parts[k])) && !view.InPruned(parts, |parts|)
                 && |parts| - 1 <= MAX_WALK_DEPTH && Walk(view.root, parts).Some? && Walk(view.root, parts).value.Dir?)
      ensures !view.OnDisk(x)
    {
      var parts := Split(folder, '/');
      var all := Split(x, '/');
      PartsOf(folder, x);
      var n := |parts|;
      assert all[..n] == parts && all[n..] == PartsBelow(folder, x);
      WalkJoins(view.root, parts, all[n..]);
      if view.Open(all, |all| - 1) {
        OpenBefore(view, all, n, |all| - 1);
        assert forall k :: 0 < k <= n ==> all[..k] == parts[..k];
        assert forall k :: 0 <= k < n ==> all[k] == parts[k];
      }
    }
  }
}
