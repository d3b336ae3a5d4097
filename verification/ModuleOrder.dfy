/**
 scripts/make_dashboard.py: the modules of the dashboard's page put in an order in which each comes after those it
 imports (`module_order`), and the one script made of them (`build_script`), in which module k is the constant M$k.
 */
module ModuleOrder {
  import opened Common

  type Path = string

  /** What an import brings in: a namespace, or a list of names, which an `export … from` leaves empty. */
  datatype Names = Star(local: string) | Listed(names: seq<(string, string)>)

  datatype Import = Import(target: Path, names: Names)

  /** An export: a name of the module's own, or one of a module it imports. */
  datatype Export = Own(name: string, local: string) | From(name: string, target: Path, other: string)

  datatype Module = Module(imports: seq<Import>, exports: seq<Export>)

  /** The files that are modules, as they read; any other file is one the build cannot read. */
  type Files = map<Path, Module>

  function Targets(m: Module): seq<Path> {
    seq(|m.imports|, i requires 0 <= i < |m.imports| => m.imports[i].target)
  }

  /** parse_module: a module is read if every file it imports is there. Its exports name only what it imports. */
  predicate Reads(files: Files, path: Path) {
    && path in files
    && (forall t :: t in Targets(files[path]) ==> t in files)
    && (forall e :: e in files[path].exports && e.From? ==> e.target in Targets(files[path]))
  }

  function ImportsOf(files: Files, path: Path): seq<Path> {
    if Reads(files, path) then Targets(files[path]) else []
  }

  // ---- What is reachable ---------------------------------------------------------------------

  /** Each module of the chain imports the next. */
  predicate IsChain(files: Files, c: seq<Path>) {
    c != [] && forall i :: 0 <= i < |c| - 1 ==> c[i + 1] in ImportsOf(files, c[i])
  }

  predicate ChainTo(files: Files, c: seq<Path>, entry: Path, path: Path) {
    IsChain(files, c) && c[0] == entry && c[|c| - 1] == path
  }

  ghost predicate Reached(files: Files, entry: Path, path: Path) {
    exists c :: ChainTo(files, c, entry, path)
  }

  /** A chain from the entry that comes back to one of its modules. */
  predicate IsCycle(files: Files, entry: Path, c: seq<Path>) {
    IsChain(files, c) && c[0] == entry && c[|c| - 1] in c[..|c| - 1]
  }

  lemma ChainLonger(files: Files, c: seq<Path>, path: Path)
    requires IsChain(files, c) && path in ImportsOf(files, c[|c| - 1])
    ensures IsChain(files, c + [path])
  {
  }

  // ---- An order with imports first ------------------------------------------------------------

  /** Every module once, after all it imports. */
  predicate InOrder(files: Files, order: seq<Path>) {
    && NoRepeats(order)
    && (forall k :: 0 <= k < |order| ==> Reads(files, order[k]) && BeforeAll(ImportsOf(files, order[k]), order[..k]))
  }

  predicate BeforeAll(targets: seq<Path>, earlier: seq<Path>) {
    forall t :: t in targets ==> t in earlier
  }

  lemma InOrderPush(files: Files, order: seq<Path>, path: Path)
    requires InOrder(files, order) && path !in order && Reads(files, path) && BeforeAll(ImportsOf(files, path), order)
    ensures InOrder(files, order + [path])
  {
    var more := order + [path];
    forall k | 0 <= k < |more| ensures Reads(files, more[k]) && BeforeAll(ImportsOf(files, more[k]), more[..k]) {
      assert more[..k] == order[..k];
      assert k < |order| ==> more[k] == order[k];
      assert k == |order| ==> order[..k] == order;
    }
  }

  /** Where a module comes. */
  function At(order: seq<Path>, path: Path): (k: nat)
    requires path in order
    ensures k < |order| && order[k] == path
  {
    if order[0] == path then 0 else 1 + At(order[1..], path)
  }

  /** A chain of imports from a module of the order stays in it and only goes back. */
  lemma {:induction false} ChainGoesBack(files: Files, order: seq<Path>, c: seq<Path>, n: nat)
    requires InOrder(files, order) && IsChain(files, c) && c[0] in order && n < |c|
    ensures c[n] in order && At(order, c[n]) + n <= At(order, c[0])
  {
    if n > 0 {
      ChainGoesBack(files, order, c, n - 1);
      var k := At(order, c[n - 1]);
      assert BeforeAll(ImportsOf(files, order[k]), order[..k]);
      assert c[n] in order[..k];
      var j :| 0 <= j < k && order[j] == c[n];
      assert order[At(order, c[n])] == c[n];
    }
  }

  lemma ChainOf(files: Files, c: seq<Path>, n: nat)
    requires IsChain(files, c) && n < |c|
    ensures IsChain(files, c[n..])
  {
  }

  /** With such an order of the entry and all it leads to, no cycle is reachable and every module reads. */
  lemma OrderedIsAcyclic(files: Files, entry: Path, order: seq<Path>)
    requires InOrder(files, order) && entry in order
    ensures forall c :: !IsCycle(files, entry, c)
    ensures forall path :: Reached(files, entry, path) ==> path in order && Reads(files, path)
  {
    hide At;
    forall c ensures !IsCycle(files, entry, c) {
      if IsCycle(files, entry, c) {
        var n :| 0 <= n < |c| - 1 && c[n] == c[|c| - 1];
        ChainGoesBack(files, order, c, n);
        ChainOf(files, c, n);
        ChainGoesBack(files, order, c[n..], |c| - 1 - n);
      }
    }
    forall path | Reached(files, entry, path) ensures path in order && Reads(files, path) {
      var c :| ChainTo(files, c, entry, path);
      ChainGoesBack(files, order, c, |c| - 1);
      assert order[At(order, path)] == path;
    }
  }

  // ---- module_order --------------------------------------------------------------------------

  datatype Mark = Open | Closed

  datatype Outcome = Built | Cycle(chain: seq<Path>) | Unreadable(path: Path)

  /** What holds between visits: `chain` is open, what is closed is ordered. */
  ghost predicate Visiting(files: Files, entry: Path, chain: seq<Path>, state: map<Path, Mark>, order: seq<Path>) {
    && (chain == [] || (IsChain(files, chain) && chain[0] == entry))
    && (forall p :: p in chain <==> p in state && state[p].Open?)
    && (forall p :: p in order <==> p in state && state[p].Closed?)
    && InOrder(files, order)
    && (forall p :: p in order ==> Reached(files, entry, p))
  }

  /** A module that may be visited next: the entry, or one the last of the chain imports. */
  predicate MayVisit(files: Files, entry: Path, chain: seq<Path>, path: Path) {
    if chain == [] then path == entry
    else path in ImportsOf(files, chain[|chain| - 1])
  }

  lemma NextIsReached(files: Files, entry: Path, chain: seq<Path>, path: Path)
    requires chain == [] || (IsChain(files, chain) && chain[0] == entry)
    requires MayVisit(files, entry, chain, path)
    ensures ChainTo(files, chain + [path], entry, path) && Reached(files, entry, path)
  {
    if chain != [] {
      ChainLonger(files, chain, path);
    }
    assert ChainTo(files, chain + [path], entry, path);
  }

  lemma VisitingOpens(files: Files, entry: Path, chain: seq<Path>, state: map<Path, Mark>, order: seq<Path>, path: Path)
    requires Visiting(files, entry, chain, state, order) && MayVisit(files, entry, chain, path) && path !in state
    ensures Visiting(files, entry, chain + [path], state[path := Open], order)
  {
    NextIsReached(files, entry, chain, path);
    hide IsChain, InOrder, Reached, ImportsOf;
  }

  lemma VisitingCloses(files: Files, entry: Path, chain: seq<Path>, state: map<Path, Mark>, order: seq<Path>, path: Path)
    requires Visiting(files, entry, chain + [path], state, order) && Visiting(files, entry, chain, state - {path}, order)
    requires MayVisit(files, entry, chain, path)
    requires Reads(files, path) && BeforeAll(ImportsOf(files, path), order)
    ensures Visiting(files, entry, chain, state[path := Closed], order + [path])
  {
    NextIsReached(files, entry, chain, path);
    InOrderPush(files, order, path);
    hide IsChain, InOrder, Reached, ImportsOf, BeforeAll;
    assert state[path].Open?;
    forall p ensures p in chain <==> p in state[path := Closed] && state[path := Closed][p].Open? {
      assert p in chain <==> p in state - {path} && (state - {path})[p].Open?;
    }
  }

  class Orderer {
    const files: Files
    var order: seq<Path>
    var state: map<Path, Mark>

    constructor (files: Files)
      ensures this.files == files && order == [] && state == map[]
    {
      this.files := files;
      order, state := [], map[];
    }

    /** visit: the module and all it imports, those first. */
    method Visit(path: Path, chain: seq<Path>, entry: Path) returns (o: Outcome)
      requires Visiting(files, entry, chain, state, order) && MayVisit(files, entry, chain, path)
      modifies this
      ensures o.Built? ==> Visiting(files, entry, chain, state, order) && path in order && old(order) <= order
      ensures o.Built? && path !in old(state) ==> order[|order| - 1] == path
      ensures old(state).Keys <= state.Keys
      ensures o.Cycle? ==> IsCycle(files, entry, o.chain)
      ensures o.Unreadable? ==> Reached(files, entry, o.path) && !Reads(files, o.path)
      decreases files.Keys - state.Keys, 1
    {
      o := Built;
      if path in state && state[path].Closed? {
        return;
      }
      NextIsReached(files, entry, chain, path);
      if path in state {
        return Cycle(chain + [path]);
      }
      VisitingOpens(files, entry, chain, state, order, path);
      state := state[path := Open];
      if !Reads(files, path) {
        return Unreadable(path);
      }
      assert path in files.Keys;
      o := VisitAll(path, chain, entry);
    }

    /** visit, once the module is open: the modules it imports, then itself. */
    method VisitAll(path: Path, chain: seq<Path>, entry: Path) returns (o: Outcome)
      requires Visiting(files, entry, chain + [path], state, order) && MayVisit(files, entry, chain, path)
      requires path !in chain && Reads(files, path)
      modifies this
      ensures o.Built? ==> Visiting(files, entry, chain, state, order) && path in order && old(order) <= order
      ensures o.Built? ==> order[|order| - 1] == path
      ensures old(state).Keys <= state.Keys
      ensures o.Cycle? ==> IsCycle(files, entry, o.chain)
      ensures o.Unreadable? ==> Reached(files, entry, o.path) && !Reads(files, o.path)
      decreases files.Keys - state.Keys, 2
    {
      hide Reached, IsCycle, IsChain, InOrder;
      var targets := Targets(files[path]);
      for i := 0 to |targets|
        invariant Visiting(files, entry, chain + [path], state, order) && old(order) <= order
        invariant old(state).Keys <= state.Keys
        invariant BeforeAll(targets[..i], order)
      {
        assert targets[i] in ImportsOf(files, path);
        ghost var order0 := order;
        o := Visit(targets[i], chain + [path], entry);
        if !o.Built? {
          return;
        }
        assert targets[..i + 1] == targets[..i] + [targets[i]];
      }
      assert targets[..|targets|] == targets == ImportsOf(files, path);
      VisitingBack(files, entry, chain, state, order, path);
      VisitingCloses(files, entry, chain, state, order, path);
      state := state[path := Closed];
      order := order + [path];
      o := Built;
    }
  }

  lemma VisitingBack(files: Files, entry: Path, chain: seq<Path>, state: map<Path, Mark>, order: seq<Path>, path: Path)
    requires Visiting(files, entry, chain + [path], state, order) && path !in chain
    ensures Visiting(files, entry, chain, state - {path}, order)
  {
    var more := chain + [path];
    assert chain == more[..|chain|];
    if chain != [] {
      assert chain[0] == more[0];
      forall i | 0 <= i < |chain| - 1 ensures chain[i + 1] in ImportsOf(files, chain[i]) {
        assert more[i + 1] == chain[i + 1] && more[i] == chain[i];
      }
    }
    hide InOrder, Reached, ImportsOf;
    assert path in more;
    forall p ensures p in chain <==> p in state - {path} && (state - {path})[p].Open? {
      assert p in more <==> p in chain || p == path;
    }
    forall p ensures p in order <==> p in state - {path} && (state - {path})[p].Closed? {
    }
  }

  lemma VisitingStarts(files: Files, entry: Path)
    ensures Visiting(files, entry, [], map[], [])
  {
  }

  /** module_order: if every module the entry leads to can be read and none imports itself in a cycle, exactly those, each
      once and after all it imports, the entry last; if not, a cycle or a module that cannot be read. */
  method Order(files: Files, entry: Path) returns (order: seq<Path>, o: Outcome)
    ensures o.Built? <==> && (forall c :: !IsCycle(files, entry, c))
                          && (forall path :: Reached(files, entry, path) ==> Reads(files, path))
    ensures o.Built? ==> InOrder(files, order) && (forall path :: path in order <==> Reached(files, entry, path))
    ensures o.Built? ==> order != [] && order[|order| - 1] == entry
    ensures o.Cycle? ==> IsCycle(files, entry, o.chain)
    ensures o.Unreadable? ==> Reached(files, entry, o.path) && !Reads(files, o.path)
  {
    var orderer := new Orderer(files);
    VisitingStarts(files, entry);
    o := orderer.Visit(entry, [], entry);
    order := orderer.order;
    if o.Built? {
      OrderedIsAcyclic(files, entry, order);
    }
  }

  // ---- build_script --------------------------------------------------------------------------

  /** A line at the head of a module's function: the constant M$number, or names of it. */
  datatype Line = All(local: string, number: nat) | Picked(names: seq<(string, string)>, number: nat)

  /** What a module's function returns under a name: one it declares, or one of M$number's. */
  datatype Return = Local(name: string, local: string) | Of(name: string, number: nat, other: string)

  /** One module's function. */
  datatype Section = Section(path: Path, lines: seq<Line>, gives: seq<Return>)

  function LinesOf(order: seq<Path>, imports: seq<Import>): seq<Line>
    requires forall i :: i in imports ==> i.target in order
  {
    if imports == [] then []
    else
      var more := LinesOf(order, imports[..|imports| - 1]);
      var i := imports[|imports| - 1];
      match i.names
      case Star(local) => more + [All(local, At(order, i.target))]
      case Listed(names) => if names == [] then more else more + [Picked(names, At(order, i.target))]
  }

  function ReturnsOf(order: seq<Path>, exports: seq<Export>): seq<Return>
    requires forall e :: e in exports && e.From? ==> e.target in order
  {
    if exports == [] then []
    else
      var more := ReturnsOf(order, exports[..|exports| - 1]);
      match exports[|exports| - 1]
      case Own(name, local) => more + [Local(name, local)]
      case From(name, target, other) => more + [Of(name, At(order, target), other)]
  }

  predicate Numbered(order: seq<Path>, number: map<Path, nat>) {
    forall p :: p in order ==> p in number && number[p] == At(order, p)
  }

  lemma ImportsInOrder(files: Files, order: seq<Path>, k: nat)
    requires InOrder(files, order) && k < |order|
    ensures order[k] in files
    ensures forall i :: i in files[order[k]].imports ==> i.target in order[..k]
    ensures forall e :: e in files[order[k]].exports && e.From? ==> e.target in order[..k]
  {
    var m := files[order[k]];
    assert BeforeAll(ImportsOf(files, order[k]), order[..k]);
    forall i | i in m.imports ensures i.target in order[..k] {
      var n :| 0 <= n < |m.imports| && m.imports[n] == i;
      assert Targets(m)[n] == i.target;
    }
  }

  function SectionOf(files: Files, order: seq<Path>, k: nat): Section
    requires InOrder(files, order) && k < |order|
  {
    ImportsInOrder(files, order, k);
    var m := files[order[k]];
    Section(order[k], LinesOf(order, m.imports), ReturnsOf(order, m.exports))
  }

  /** The sections build_script writes for an order. */
  ghost predicate AreSections(files: Files, order: seq<Path>, sections: seq<Section>)
    requires InOrder(files, order)
  {
    |sections| == |order| && forall k :: 0 <= k < |order| ==> sections[k] == SectionOf(files, order, k)
  }

  /** A line makes `local` the constant of module k, or (`name`) what that module gives under a name. */
  predicate LineBinds(lines: seq<Line>, local: string, k: nat, name: Option<string>) {
    match name
    case None => All(local, k) in lines
    case Some(n) => exists i :: 0 <= i < |lines| && lines[i].Picked? && lines[i].number == k && (n, local) in lines[i].names
  }

  /** So does an import, of module `target`. */
  predicate ImportBinds(imports: seq<Import>, local: string, target: Path, name: Option<string>) {
    exists i :: && 0 <= i < |imports| && imports[i].target == target
                && match name
                   case None => imports[i].names == Star(local)
                   case Some(n) => imports[i].names.Listed? && (n, local) in imports[i].names.names
  }

  /** A section gives `name` what its export says: a local value, or what module k gives as `other`. */
  predicate Gives(order: seq<Path>, r: Return, e: Export) {
    match e
    case Own(name, local) => r == Local(name, local)
    case From(name, target, other) =>
      r.Of? && r.name == name && r.other == other && r.number < |order| && order[r.number] == target
  }

  /** A section names what its module's text does, module by module of the order. */
  ghost predicate NamesAs(m: Module, order: seq<Path>, section: Section) {
    && (forall local, k: nat, name :: k < |order| ==>
          (LineBinds(section.lines, local, k, name) <==> ImportBinds(m.imports, local, order[k], name)))
    && |section.gives| == |m.exports|
    && forall i :: 0 <= i < |m.exports| ==> Gives(order, section.gives[i], m.exports[i])
  }

  lemma BindsPush(lines: seq<Line>, l: Line, local: string, k: nat, name: Option<string>)
    ensures LineBinds(lines + [l], local, k, name) <==> LineBinds(lines, local, k, name) || LineBinds([l], local, k, name)
  {
    var more := lines + [l];
    assert more[|lines|] == l && [l][0] == l;
    if name.Some? && LineBinds(lines, local, k, name) {
      var i :| 0 <= i < |lines| && lines[i].Picked? && lines[i].number == k && (name.value, local) in lines[i].names;
      assert more[i] == lines[i];
    }
  }

  lemma ImportsPush(imports: seq<Import>, i: Import, local: string, target: Path, name: Option<string>)
    ensures ImportBinds(imports + [i], local, target, name) <==>
            ImportBinds(imports, local, target, name) || ImportBinds([i], local, target, name)
  {
    var more := imports + [i];
    assert more[|imports|] == i && [i][0] == i;
    if ImportBinds(imports, local, target, name) {
      var j :| && 0 <= j < |imports| && imports[j].target == target
               && match name
                  case None => imports[j].names == Star(local)
                  case Some(n) => imports[j].names.Listed? && (n, local) in imports[j].names.names;
      assert more[j] == imports[j];
    }
  }

  lemma {:induction false} LinesBind(order: seq<Path>, imports: seq<Import>, local: string, k: nat, name: Option<string>)
    requires NoRepeats(order) && k < |order| && forall i :: i in imports ==> i.target in order
    ensures LineBinds(LinesOf(order, imports), local, k, name) <==> ImportBinds(imports, local, order[k], name)
  {
    if imports != [] {
      var init, i := imports[..|imports| - 1], imports[|imports| - 1];
      assert imports == init + [i];
      LinesBind(order, init, local, k, name);
      ImportsPush(init, i, local, order[k], name);
      AtIs(order, k);
      assert order[At(order, i.target)] == i.target;
      assert [i][0] == i;
      match i.names
      case Star(l) =>
        BindsPush(LinesOf(order, init), All(l, At(order, i.target)), local, k, name);
      case Listed(names) =>
        BindsPush(LinesOf(order, init), Picked(names, At(order, i.target)), local, k, name);
        assert [Picked(names, At(order, i.target))][0] == Picked(names, At(order, i.target));
    }
  }

  lemma {:induction false} ReturnsGive(order: seq<Path>, exports: seq<Export>)
    requires forall e :: e in exports && e.From? ==> e.target in order
    ensures |ReturnsOf(order, exports)| == |exports|
    ensures forall i :: 0 <= i < |exports| ==> Gives(order, ReturnsOf(order, exports)[i], exports[i])
  {
    if exports != [] {
      ReturnsGive(order, exports[..|exports| - 1]);
    }
  }

  lemma SectionNames(files: Files, order: seq<Path>, k: nat)
    requires InOrder(files, order) && k < |order|
    ensures order[k] in files && SectionOf(files, order, k).path == order[k]
    ensures NamesAs(files[order[k]], order, SectionOf(files, order, k))
  {
    ImportsInOrder(files, order, k);
    DistinctOrder(files, order);
    hide LinesOf, ReturnsOf, LineBinds, ImportBinds, Gives, InOrder;
    var m := files[order[k]];
    ReturnsGive(order, m.exports);
    forall local, j: nat, name | j < |order|
      ensures LineBinds(LinesOf(order, m.imports), local, j, name) <==> ImportBinds(m.imports, local, order[j], name)
    {
      LinesBind(order, m.imports, local, j, name);
    }
  }

  method NumberAll(order: seq<Path>) returns (number: map<Path, nat>)
    requires NoRepeats(order)
    ensures Numbered(order, number)
  {
    number := map[];
    for k := 0 to |order|
      invariant forall j :: 0 <= j < k ==> order[j] in number && number[order[j]] == j
    {
      number := number[order[k] := k];
    }
  }

  method WriteLines(order: seq<Path>, number: map<Path, nat>, imports: seq<Import>) returns (lines: seq<Line>)
    requires Numbered(order, number) && forall i :: i in imports ==> i.target in order
    ensures lines == LinesOf(order, imports)
  {
    lines := [];
    for n := 0 to |imports|
      invariant lines == LinesOf(order, imports[..n])
    {
      assert imports[..n + 1][..n] == imports[..n];
      var i := imports[n];
      if i.names.Star? {
        lines := lines + [All(i.names.local, number[i.target])];
      } else if i.names.names != [] {
        lines := lines + [Picked(i.names.names, number[i.target])];
      }
    }
    assert imports[..|imports|] == imports;
  }

  method WriteReturns(order: seq<Path>, number: map<Path, nat>, exports: seq<Export>) returns (gives: seq<Return>)
    requires Numbered(order, number) && forall e :: e in exports && e.From? ==> e.target in order
    ensures gives == ReturnsOf(order, exports)
  {
    gives := [];
    for n := 0 to |exports|
      invariant gives == ReturnsOf(order, exports[..n])
    {
      assert exports[..n + 1][..n] == exports[..n];
      match exports[n]
      case From(name, target, other) => gives := gives + [Of(name, number[target], other)];
      case Own(name, local) => gives := gives + [Local(name, local)];
    }
    assert exports[..|exports|] == exports;
  }

  method WriteSection(files: Files, order: seq<Path>, number: map<Path, nat>, k: nat) returns (section: Section)
    requires InOrder(files, order) && Numbered(order, number) && k < |order|
    ensures section == SectionOf(files, order, k)
  {
    ImportsInOrder(files, order, k);
    hide InOrder, LinesOf, ReturnsOf, Numbered;
    var lines := WriteLines(order, number, files[order[k]].imports);
    var gives := WriteReturns(order, number, files[order[k]].exports);
    section := Section(order[k], lines, gives);
  }

  /** build_script, for the order module_order gave. */
  method BuildScript(files: Files, order: seq<Path>) returns (sections: seq<Section>)
    requires InOrder(files, order)
    ensures AreSections(files, order, sections)
    ensures |sections| == |order|
    ensures forall k :: 0 <= k < |order| ==>
              order[k] in files && sections[k].path == order[k] && NamesAs(files[order[k]], order, sections[k])
  {
    DistinctOrder(files, order);
    var number := NumberAll(order);
    hide InOrder, SectionOf, Numbered, NamesAs;
    sections := [];
    for k := 0 to |order|
      invariant |sections| == k
      invariant forall j :: 0 <= j < k ==> sections[j] == SectionOf(files, order, j)
    {
      var section := WriteSection(files, order, number, k);
      sections := sections + [section];
    }
    forall k | 0 <= k < |order|
      ensures order[k] in files && sections[k].path == order[k] && NamesAs(files[order[k]], order, sections[k])
    {
      SectionNames(files, order, k);
    }
  }

  // ---- What the script computes ----------------------------------------------------------------

  function LineNumbers(lines: seq<Line>): seq<nat> {
    seq(|lines|, i requires 0 <= i < |lines| => lines[i].number)
  }

  function ReturnNumbers(gives: seq<Return>): seq<nat> {
    if gives == [] then []
    else ReturnNumbers(gives[..|gives| - 1]) +
         var r := gives[|gives| - 1]; if r.Of? then [r.number] else []
  }

  /** The modules whose constants a section reads. */
  function Numbers(s: Section): seq<nat> {
    LineNumbers(s.lines) + ReturnNumbers(s.gives)
  }

  function Values<V>(vals: seq<V>, numbers: seq<nat>): seq<V>
    requires forall n :: n in numbers ==> n < |vals|
  {
    seq(|numbers|, i requires 0 <= i < |numbers| => assert numbers[i] in numbers; vals[numbers[i]])
  }

  /** The script run: each section's function is called with the constants it reads, which must have been set. */
  function RunScript<V>(eval: (Path, seq<V>) -> V, sections: seq<Section>): Option<seq<V>> {
    if sections == [] then Some([])
    else
      match RunScript(eval, sections[..|sections| - 1])
      case None => None
      case Some(vals) =>
        var s := sections[|sections| - 1];
        if forall n :: n in Numbers(s) ==> n < |vals|
        then Some(vals + [eval(s.path, Values(vals, Numbers(s)))])
        else None
  }

  /** The modules a module reads values of. */
  function ImportsRead(imports: seq<Import>): seq<Path> {
    if imports == [] then []
    else
      var i := imports[|imports| - 1];
      ImportsRead(imports[..|imports| - 1]) + if i.names == Listed([]) then [] else [i.target]
  }

  function ExportsRead(exports: seq<Export>): seq<Path> {
    if exports == [] then []
    else
      var e := exports[|exports| - 1];
      ExportsRead(exports[..|exports| - 1]) + if e.From? then [e.target] else []
  }

  function PathsRead(m: Module): seq<Path> {
    ImportsRead(m.imports) + ExportsRead(m.exports)
  }

  function Places(order: seq<Path>, paths: seq<Path>): seq<nat>
    requires forall p :: p in paths ==> p in order
  {
    seq(|paths|, i requires 0 <= i < |paths| => assert paths[i] in paths; At(order, paths[i]))
  }

  lemma PlacesOn(order: seq<Path>, a: seq<Path>, b: seq<Path>)
    requires (forall p :: p in a ==> p in order) && forall p :: p in b ==> p in order
    ensures forall p :: p in a + b ==> p in order
    ensures Places(order, a + b) == Places(order, a) + Places(order, b)
  {
    hide At;
  }

  lemma LineNumbersPush(a: seq<Line>, l: Line)
    ensures LineNumbers(a + [l]) == LineNumbers(a) + [l.number]
  {
  }

  lemma {:induction false} LinesRead(order: seq<Path>, imports: seq<Import>)
    requires forall i :: i in imports ==> i.target in order
    ensures forall p :: p in ImportsRead(imports) ==> p in order
    ensures LineNumbers(LinesOf(order, imports)) == Places(order, ImportsRead(imports))
  {
    if imports != [] {
      var init, i := imports[..|imports| - 1], imports[|imports| - 1];
      assert i in imports && forall x :: x in init ==> x in imports;
      LinesRead(order, init);
      hide At, LineNumbers;
      PlacesOn(order, ImportsRead(init), if i.names == Listed([]) then [] else [i.target]);
      assert Places(order, [i.target]) == [At(order, i.target)];
      if LinesOf(order, imports) != LinesOf(order, init) {
        LineNumbersPush(LinesOf(order, init), LinesOf(order, imports)[|LinesOf(order, init)|]);
      }
    }
  }

  lemma {:induction false} ReturnsRead(order: seq<Path>, exports: seq<Export>)
    requires forall e :: e in exports && e.From? ==> e.target in order
    ensures forall p :: p in ExportsRead(exports) ==> p in order
    ensures ReturnNumbers(ReturnsOf(order, exports)) == Places(order, ExportsRead(exports))
  {
    if exports != [] {
      var init, e := exports[..|exports| - 1], exports[|exports| - 1];
      assert e in exports && forall x :: x in init ==> x in exports;
      ReturnsRead(order, init);
      hide At;
      PlacesOn(order, ExportsRead(init), if e.From? then [e.target] else []);
      assert e.From? ==> Places(order, [e.target]) == [At(order, e.target)];
      var gives := ReturnsOf(order, exports);
      assert gives[..|gives| - 1] == ReturnsOf(order, init);
    }
  }

  lemma AtEarlier(order: seq<Path>, k: nat, p: Path)
    requires k <= |order| && p in order[..k] && NoRepeats(order)
    ensures p in order && At(order, p) < k
  {
    var j :| 0 <= j < k && order[j] == p;
    assert order[At(order, p)] == p;
  }

  lemma AtIs(order: seq<Path>, k: nat)
    requires k < |order| && NoRepeats(order)
    ensures At(order, order[k]) == k
  {
    assert order[At(order, order[k])] == order[k];
  }

  lemma ReadEarlier(files: Files, order: seq<Path>, k: nat)
    requires InOrder(files, order) && k < |order|
    ensures order[k] in files
    ensures forall p :: p in PathsRead(files[order[k]]) ==> p in order[..k]
  {
    ImportsInOrder(files, order, k);
    LinesRead(order[..k], files[order[k]].imports);
    ReturnsRead(order[..k], files[order[k]].exports);
  }

  lemma SectionNumbers(files: Files, order: seq<Path>, sections: seq<Section>, k: nat)
    requires InOrder(files, order) && AreSections(files, order, sections) && k < |order|
    ensures order[k] in files && sections[k].path == order[k]
    ensures forall p :: p in PathsRead(files[order[k]]) ==> p in order
    ensures Numbers(sections[k]) == Places(order, PathsRead(files[order[k]]))
  {
    ImportsInOrder(files, order, k);
    hide At, InOrder;
    var m := files[order[k]];
    assert sections[k] == SectionOf(files, order, k);
    hide AreSections, LinesOf, ReturnsOf;
    LinesRead(order, m.imports);
    ReturnsRead(order, m.exports);
    PlacesOn(order, ImportsRead(m.imports), ExportsRead(m.exports));
  }

  /** Every constant M$j that the function of module k reads is that of the module it means, and j < k. */
  lemma SectionReads(files: Files, order: seq<Path>, sections: seq<Section>, k: nat)
    requires InOrder(files, order) && AreSections(files, order, sections) && k < |order|
    ensures order[k] in files && sections[k].path == order[k]
    ensures forall p :: p in PathsRead(files[order[k]]) ==> p in order && At(order, p) < k
    ensures Numbers(sections[k]) == Places(order, PathsRead(files[order[k]]))
    ensures forall n :: n in Numbers(sections[k]) ==> n < k
  {
    SectionNumbers(files, order, sections, k);
    ReadEarlier(files, order, k);
    DistinctOrder(files, order);
    var paths := PathsRead(files[order[k]]);
    hide At, InOrder, AreSections, PathsRead, Numbers;
    forall p | p in paths ensures p in order && At(order, p) < k {
      AtEarlier(order, k, p);
    }
    forall n | n in Numbers(sections[k]) ensures n < k {
      var i :| 0 <= i < |paths| && n == At(order, paths[i]);
      assert paths[i] in paths;
    }
  }

  lemma DistinctOrder(files: Files, order: seq<Path>)
    requires InOrder(files, order)
    ensures NoRepeats(order)
  {
  }

  /** Each value is its section's, of the values before it. */
  ghost predicate RunsTo<V>(eval: (Path, seq<V>) -> V, sections: seq<Section>, vals: seq<V>) {
    |vals| == |sections| &&
    forall k :: 0 <= k < |sections| ==>
      && (forall n :: n in Numbers(sections[k]) ==> n < k)
      && vals[k] == eval(sections[k].path, Values(vals, Numbers(sections[k])))
  }

  lemma {:induction false} RunIs<V>(eval: (Path, seq<V>) -> V, sections: seq<Section>)
    requires forall k :: 0 <= k < |sections| ==> forall n :: n in Numbers(sections[k]) ==> n < k
    ensures RunScript(eval, sections).Some? && RunsTo(eval, sections, RunScript(eval, sections).value)
  {
    if sections != [] {
      hide Numbers, Values;
      var init, s := sections[..|sections| - 1], sections[|sections| - 1];
      RunIs(eval, init);
      var vals := RunScript(eval, init).value;
      assert forall n :: n in Numbers(s) ==> n < |vals|;
      var v := eval(s.path, Values(vals, Numbers(s)));
      assert RunScript(eval, sections) == Some(vals + [v]);
      forall k | 0 <= k < |sections|
        ensures (vals + [v])[k] == eval(sections[k].path, Values(vals + [v], Numbers(sections[k])))
      {
        ValuesMore(vals, v, Numbers(sections[k]));
        assert k < |init| ==> sections[k] == init[k];
      }
    }
  }

  lemma ValuesMore<V>(vals: seq<V>, v: V, numbers: seq<nat>)
    requires forall n :: n in numbers ==> n < |vals|
    ensures Values(vals + [v], numbers) == Values(vals, numbers)
  {
    assert forall i :: 0 <= i < |numbers| ==> numbers[i] in numbers;
  }

  function ValuesOf<V>(vals: map<Path, V>, paths: seq<Path>): seq<V>
    requires forall p :: p in paths ==> p in vals
  {
    seq(|paths|, i requires 0 <= i < |paths| => assert paths[i] in paths; vals[paths[i]])
  }

  /** What the modules are by themselves: each the value of its body, given the values of the modules it reads. */
  ghost predicate Linked<V>(eval: (Path, seq<V>) -> V, files: Files, order: seq<Path>, vals: map<Path, V>) {
    forall k :: 0 <= k < |order| ==> LinkedAt(eval, files, vals, order[k])
  }

  ghost predicate LinkedAt<V>(eval: (Path, seq<V>) -> V, files: Files, vals: map<Path, V>, path: Path) {
    && path in files && path in vals
    && (forall p :: p in PathsRead(files[path]) ==> p in vals)
    && vals[path] == eval(path, ValuesOf(vals, PathsRead(files[path])))
  }

  /** The values of a run, by module. */
  function ByPath<V>(order: seq<Path>, vals: seq<V>): map<Path, V>
    requires |vals| == |order|
  {
    map p | p in order :: vals[At(order, p)]
  }

  /** The script runs: no constant is read before it is set, each module's function is called once, and every module gets
      the values of the modules it imports. */
  lemma ScriptLinks<V>(eval: (Path, seq<V>) -> V, files: Files, order: seq<Path>, sections: seq<Section>)
    requires InOrder(files, order) && AreSections(files, order, sections)
    ensures RunScript(eval, sections).Some? && |RunScript(eval, sections).value| == |order|
    ensures Linked(eval, files, order, ByPath(order, RunScript(eval, sections).value))
  {
    assert |sections| == |order|;
    hide AreSections, InOrder, Numbers, PathsRead, RunScript;
    forall k | 0 <= k < |order| ensures forall n :: n in Numbers(sections[k]) ==> n < k {
      SectionReads(files, order, sections, k);
    }
    RunIs(eval, sections);
    var vals := RunScript(eval, sections).value;
    forall k | 0 <= k < |order| ensures LinkedAt(eval, files, ByPath(order, vals), order[k]) {
      SectionReads(files, order, sections, k);
      DistinctOrder(files, order);
      AtIs(order, k);
      SameValues(order, vals, PathsRead(files[order[k]]));
    }
  }

  lemma SameValues<V>(order: seq<Path>, vals: seq<V>, paths: seq<Path>)
    requires |vals| == |order| && forall p :: p in paths ==> p in order
    ensures forall n :: n in Places(order, paths) ==> n < |vals|
    ensures Values(vals, Places(order, paths)) == ValuesOf(ByPath(order, vals), paths)
  {
    hide At;
    forall i | 0 <= i < |paths| ensures paths[i] in order {
      assert paths[i] in paths;
    }
  }

  lemma SameThere<V>(eval: (Path, seq<V>) -> V, files: Files, a: map<Path, V>, b: map<Path, V>, path: Path)
    requires LinkedAt(eval, files, a, path) && LinkedAt(eval, files, b, path)
    requires forall p :: p in PathsRead(files[path]) ==> a[p] == b[p]
    ensures a[path] == b[path]
  {
    var paths := PathsRead(files[path]);
    hide PathsRead;
    assert forall i :: 0 <= i < |paths| ==> paths[i] in paths;
    assert ValuesOf(a, paths) == ValuesOf(b, paths);
  }

  /** And there is nothing else the modules could be. */
  lemma {:induction false} LinkedOnce<V>(eval: (Path, seq<V>) -> V, files: Files, order: seq<Path>, a: map<Path, V>,
                                        b: map<Path, V>, k: nat)
    requires InOrder(files, order) && Linked(eval, files, order, a) && Linked(eval, files, order, b) && k <= |order|
    ensures forall j :: 0 <= j < k ==> order[j] in a && order[j] in b && a[order[j]] == b[order[j]]
  {
    if k > 0 {
      LinkedOnce(eval, files, order, a, b, k - 1);
      ReadEarlier(files, order, k - 1);
      var path := order[k - 1];
      assert LinkedAt(eval, files, a, path) && LinkedAt(eval, files, b, path);
      hide PathsRead, InOrder, Linked;
      forall p | p in PathsRead(files[path]) ensures p in a && p in b && a[p] == b[p] {
        var j :| 0 <= j < k - 1 && order[j] == p;
      }
      SameThere(eval, files, a, b, path);
    }
  }
}
