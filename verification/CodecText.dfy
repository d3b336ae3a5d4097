/**
 scripts/make_codec_tables.py, rust_text: the flat list of CodecTables as text, a token an entry or a run of entries,
 and the ISO-2022 sets' tables of their own. Their readers are written here from the formats the script states.
 */
module CodecText {
  import opened Common
  import opened Numerals
  import opened Texts
  import opened CodecTables

  const HEX: nat := 16

  /** What a token means: the next `n` characters, a character at a distance from the one before, an error of length
      one, or any other entry. */
  datatype Token = Run(n: nat) | Delta(d: int) | X | Other(v: nat)

  // ---- The writer ------------------------------------------------------------------------

  /** _hex_delta. */
  function HexDelta(d: int): string {
    if d >= 0 then Show(d, HEX) else "-" + Show(-d, HEX)
  }

  /** A token as the writer's loop has it. */
  function Written(t: Token): string {
    match t
    case Run(n) => "~" + Show(n, HEX)
    case Delta(d) => HexDelta(d)
    case X => "x"
    case Other(v) => "!" + Show(v, HEX)
  }

  /** A token as the text has it: nothing at all when it is a run of one. */
  function Final(s: string): string {
    if s == "~1" then "" else s
  }

  /** The tokens with one for `v` more, after the character `prev`. */
  function Push(toks: seq<Token>, prev: nat, v: nat): seq<Token> {
    if v <= CHAR_MAX && v == prev + 1 then
      if toks != [] && toks[|toks| - 1].Run? then toks[..|toks| - 1] + [Run(toks[|toks| - 1].n + 1)]
      else toks + [Run(1)]
    else if v <= CHAR_MAX then toks + [Delta(v - prev)]
    else toks + [if v == ERR + 1 then X else Other(v)]
  }

  /** The last character of `flat` (0 when it has none). */
  function LastCharacter(flat: seq<nat>): nat {
    if flat == [] then 0
    else if flat[|flat| - 1] <= CHAR_MAX then flat[|flat| - 1]
    else LastCharacter(flat[..|flat| - 1])
  }

  function Tokens(flat: seq<nat>): seq<Token> {
    if flat == [] then []
    else
      var before := flat[..|flat| - 1];
      Push(Tokens(before), LastCharacter(before), flat[|flat| - 1])
  }

  function Map<A, B>(f: A -> B, xs: seq<A>): (ys: seq<B>)
    ensures |ys| == |xs| && forall k :: 0 <= k < |xs| ==> ys[k] == f(xs[k])
  {
    seq(|xs|, k requires 0 <= k < |xs| => f(xs[k]))
  }

  // ---- The reader ------------------------------------------------------------------------

  /** A token read. */
  function Parse(s: string): Option<Token> {
    if s == "" then Some(Run(1))
    else if s == "x" then Some(X)
    else if s[0] == '~' then (match ReadNumber(s[1..], HEX) case Some(n) => Some(Run(n)) case None => None)
    else if s[0] == '!' then (match ReadNumber(s[1..], HEX) case Some(v) => Some(Other(v)) case None => None)
    else match ParseDelta(s) case Some(d) => Some(Delta(d)) case None => None
  }

  function ParseDelta(s: string): Option<int>
    requires s != ""
  {
    if s[0] == '-' then (match ReadNumber(s[1..], HEX) case Some(n) => Some(0 - n as int) case None => None)
    else match ReadNumber(s, HEX) case Some(n) => Some(n as int) case None => None
  }

  function ParseAll(parts: seq<string>): Option<seq<Token>> {
    if parts == [] then Some([])
    else match (Parse(parts[0]), ParseAll(parts[1..]))
      case (Some(t), Some(ts)) => Some([t] + ts)
      case _ => None
  }

  function Counting(from: int, n: nat): (xs: seq<int>) {
    seq(n, k => from + k)
  }

  /** The entries a token stands for after the character `prev`, and the character after it. */
  function Meaning(t: Token, prev: int): seq<int> {
    match t
    case Run(n) => Counting(prev + 1, n)
    case Delta(d) => [prev + d]
    case X => [ERR + 1]
    case Other(v) => [v]
  }

  function Next(t: Token, prev: int): int {
    match t
    case Run(n) => prev + n
    case Delta(d) => prev + d
    case _ => prev
  }

  function Expand(toks: seq<Token>, prev: int): seq<int> {
    if toks == [] then [] else Meaning(toks[0], prev) + Expand(toks[1..], Next(toks[0], prev))
  }

  function ReadText(text: string): Option<seq<int>> {
    match ParseAll(Split(text, ','))
    case Some(toks) => Some(Expand(toks, 0))
    case None => None
  }

  // ---- What was written reads back ----------------------------------------------------------

  /** The character the tokens leave off at. */
  function After(toks: seq<Token>, prev: int): int {
    if toks == [] then prev else After(toks[1..], Next(toks[0], prev))
  }

  lemma {:induction false} ExpandPush(toks: seq<Token>, t: Token, prev: int)
    ensures Expand(toks + [t], prev) == Expand(toks, prev) + Meaning(t, After(toks, prev))
    ensures After(toks + [t], prev) == Next(t, After(toks, prev))
  {
    hide Meaning, Next;
    if toks == [] {
      assert toks + [t] == [t];
    } else {
      assert (toks + [t])[1..] == toks[1..] + [t];
      ExpandPush(toks[1..], t, Next(toks[0], prev));
    }
  }

  lemma PushExpands(toks: seq<Token>, prev: nat, v: nat)
    requires After(toks, 0) == prev
    ensures Expand(Push(toks, prev, v), 0) == Expand(toks, 0) + [v]
    ensures After(Push(toks, prev, v), 0) == if v <= CHAR_MAX then v else prev
  {
    hide Expand, After;
    if v <= CHAR_MAX && v == prev + 1 && toks != [] && toks[|toks| - 1].Run? {
      var init, n := toks[..|toks| - 1], toks[|toks| - 1].n;
      assert toks == init + [Run(n)];
      ExpandPush(init, Run(n), 0);
      ExpandPush(init, Run(n + 1), 0);
      var p := After(init, 0);
      assert Counting(p + 1, n + 1) == Counting(p + 1, n) + [p + 1 + n];
    } else {
      var t := if v <= CHAR_MAX then (if v == prev + 1 then Run(1) else Delta(v - prev))
               else if v == ERR + 1 then X else Other(v);
      assert Push(toks, prev, v) == toks + [t];
      ExpandPush(toks, t, 0);
      assert Counting(prev + 1, 1) == [prev + 1];
    }
  }

  /** The tokens of a list expand to it. */
  lemma {:induction false} TokensExpand(flat: seq<nat>)
    ensures Expand(Tokens(flat), 0) == flat
    ensures After(Tokens(flat), 0) == LastCharacter(flat)
    ensures Tokens(flat) == [] <==> flat == []
  {
    if flat != [] {
      var before, v := flat[..|flat| - 1], flat[|flat| - 1];
      TokensExpand(before);
      PushExpands(Tokens(before), LastCharacter(before), v);
      assert flat == before + [v];
    }
  }

  lemma ShowPlain(n: nat)
    ensures forall k :: 0 <= k < |Show(n, HEX)| ==> Show(n, HEX)[k] !in [',', '~', '!', '-', '.', '*', 'x']
  {
    ShowDigits(n, HEX);
  }

  lemma ParseHexDelta(d: int)
    ensures HexDelta(d) != "" && ParseDelta(HexDelta(d)) == Some(d)
    ensures HexDelta(d)[0] !in ['~', '!', '*', 'x'] && ',' !in HexDelta(d)
  {
    var n := if d >= 0 then d else -d;
    ShowPlain(n);
    ReadShow(n, HEX);
    if d < 0 {
      assert ("-" + Show(n, HEX))[1..] == Show(n, HEX);
    }
  }

  lemma ParseWritten(t: Token)
    ensures Parse(Final(Written(t))) == Some(t) && ',' !in Final(Written(t))
  {
    match t
    case Run(n) => ParseTagged('~', n);
    case Other(v) => ParseTagged('!', v);
    case Delta(d) => ParseHexDelta(d);
    case X =>
  }

  lemma ParseTagged(tag: char, n: nat)
    requires tag in ['~', '!']
    ensures var s := [tag] + Show(n, HEX);
            && s != "" && s[0] == tag && s != "x" && ReadNumber(s[1..], HEX) == Some(n) && ',' !in s
            && (s == "~1" ==> n == 1)
  {
    var s := [tag] + Show(n, HEX);
    assert s[1..] == Show(n, HEX);
    ReadShow(n, HEX);
    ShowPlain(n);
    if s == "~1" {
      assert Show(n, HEX) == "1" == Show(1, HEX);
      ReadShow(1, HEX);
    }
  }

  lemma {:induction false} ParseAllWritten(toks: seq<Token>)
    ensures ParseAll(Map(t => Final(Written(t)), toks)) == Some(toks)
    ensures forall s :: s in Map(t => Final(Written(t)), toks) ==> ',' !in s
  {
    var parts := Map(t => Final(Written(t)), toks);
    if toks != [] {
      ParseWritten(toks[0]);
      ParseAllWritten(toks[1..]);
      assert parts[1..] == Map(t => Final(Written(t)), toks[1..]);
      assert [toks[0]] + toks[1..] == toks;
    }
    forall s | s in parts ensures ',' !in s {
      var k :| 0 <= k < |parts| && parts[k] == s;
      ParseWritten(toks[k]);
    }
  }

  lemma EmptyTextReadsAsOne()
    ensures ReadText("") == Some([1])
  {
    var parts, toks := Split("", ','), [Run(1)];
    assert parts == [""] && parts[1..] == [] && toks[1..] == [];
    assert Parse(parts[0]) == Some(Run(1));
    assert ParseAll(parts) == Some(toks) by { assert [Run(1)] + [] == toks; }
    assert Expand(toks, 0) == [1] by {
      assert Expand(toks, 0) == Meaning(Run(1), 0) + Expand(toks[1..], 1);
      assert Counting(1, 1) == [1];
    }
  }

  function Text(flat: seq<nat>): string {
    Join(Map(t => Final(Written(t)), Tokens(flat)), ',')
  }

  /** The text reads back as the list it was made from, whatever its entries, if and only if the list has any: the text
      of an empty list is read as one run of one. */
  lemma TextReadsBack(flat: seq<nat>)
    ensures ReadText(Text(flat)) == Some(flat) <==> flat != []
  {
    var toks := Tokens(flat);
    ParseAllWritten(toks);
    TokensExpand(flat);
    SplitJoin(Map(t => Final(Written(t)), toks), ',');
    if flat == [] {
      EmptyTextReadsAsOne();
    }
  }

  /** A token more, as text: the last one, a run, made longer, or one added. */
  lemma PushWritten(toks: seq<Token>, prev: nat, v: nat)
    ensures var strings := Map(Written, toks);
            var long := v <= CHAR_MAX && v == prev + 1 && toks != [] && strings[|toks| - 1] != ""
                        && strings[|toks| - 1][0] == '~';
            && (toks != [] ==> strings[|toks| - 1] != "")
            && (long ==> ReadNumber(strings[|toks| - 1][1..], HEX).Some?)
            && Map(Written, Push(toks, prev, v)) ==
               if long then
                 strings[|toks| - 1 := "~" + Show(ReadNumber(strings[|toks| - 1][1..], HEX).value + 1, HEX)]
               else if v <= CHAR_MAX && v == prev + 1 then strings + ["~1"]
               else if v <= CHAR_MAX then strings + [HexDelta(v - prev)]
               else strings + [if v == ERR + 1 then "x" else "!" + Show(v, HEX)]
  {
    if toks != [] {
      TaggedRun(toks[|toks| - 1]);
    }
    ShowOne();
    hide ReadNumber, Show, HexDelta;
  }

  /** rust_text's loop over the flat list. */
  method WriteTokens(flat: seq<nat>) returns (text: string)
    ensures text == Text(flat)
  {
    hide ReadNumber, Show, HexDelta, Push, Written, Join;
    var prev, toks: seq<string> := 0, [];
    ghost var meant: seq<Token> := [];
    for i := 0 to |flat|
      invariant meant == Tokens(flat[..i]) && prev == LastCharacter(flat[..i])
      invariant toks == Map(Written, meant)
    {
      var v := flat[i];
      PushWritten(meant, prev, v);
      meant := Push(meant, prev, v);
      TokensPush(flat, i);
      if v <= CHAR_MAX && v == prev + 1 && toks != [] && toks[|toks| - 1][0] == '~' {
        toks := toks[|toks| - 1 := "~" + Show(ReadNumber(toks[|toks| - 1][1..], HEX).value + 1, HEX)];
      } else if v <= CHAR_MAX && v == prev + 1 {
        toks := toks + ["~1"];
      } else if v <= CHAR_MAX {
        toks := toks + [HexDelta(v - prev)];
      } else {
        toks := toks + [if v == ERR + 1 then "x" else "!" + Show(v, HEX)];
      }
      if v <= CHAR_MAX {
        prev := v;
      }
    }
    assert flat[..|flat|] == flat;
    var final := Map(Final, toks);
    assert final == Map(t => Final(Written(t)), meant);
    text := Join(final, ',');
  }

  lemma TokensPush(flat: seq<nat>, i: nat)
    requires i < |flat|
    ensures Tokens(flat[..i + 1]) == Push(Tokens(flat[..i]), LastCharacter(flat[..i]), flat[i])
    ensures LastCharacter(flat[..i + 1]) == if flat[i] <= CHAR_MAX then flat[i] else LastCharacter(flat[..i])
  {
    assert flat[..i + 1][..i] == flat[..i];
  }

  lemma TaggedRun(t: Token)
    ensures Written(t) != "" && (Written(t)[0] == '~' <==> t.Run?)
    ensures t.Run? ==> ReadNumber(Written(t)[1..], HEX) == Some(t.n)
  {
    match t
    case Run(n) => ParseTagged('~', n);
    case Delta(d) => ParseHexDelta(d);
    case _ =>
  }

  lemma ShowOne()
    ensures "~" + Show(1, HEX) == "~1"
  {
  }

  /** _chunks: the literals the text is written in join to it. */
  function Chunks(text: string, width: nat): seq<string>
    requires width > 0
    decreases |text|
  {
    if |text| == 0 then []
    else if |text| <= width then [text]
    else [text[..width]] + Chunks(text[width..], width)
  }

  lemma {:induction false} ChunksJoin(text: string, width: nat)
    requires width > 0
    ensures Flatten(Chunks(text, width)) == text
    ensures forall c :: c in Chunks(text, width) ==> 0 < |c| <= width
    decreases |text|
  {
    if |text| > width {
      ChunksJoin(text[width..], width);
      assert text[..width] + text[width..] == text;
    } else if |text| > 0 {
      assert Flatten([text]) == text + Flatten<char>([]);
    }
  }

  // ---- The ISO-2022 sets' tables -------------------------------------------------------------

  /** An entry of a table: none, one character as its distance from the one character before, or several whole. */
  function TableToken(entry: Option<CodecTables.Text>, prev: nat): string {
    if entry.None? then ""
    else if |entry.value| == 1 then HexDelta(entry.value[0] - prev)
    else "*" + Join(Map((c: CodePoint) => Show(c, HEX), entry.value), '.')
  }

  /** Only an entry of one character moves the distance. */
  function Carried(entry: Option<CodecTables.Text>, prev: nat): nat {
    if entry.Some? && |entry.value| == 1 then entry.value[0] else prev
  }

  function TableTokens(table: seq<Option<CodecTables.Text>>, prev: nat): seq<string> {
    if table == [] then []
    else [TableToken(table[0], prev)] + TableTokens(table[1..], Carried(table[0], prev))
  }

  function TableText(table: seq<Option<CodecTables.Text>>): string {
    Join(TableTokens(table, 0), ',')
  }

  function ReadCharacters(parts: seq<string>): Option<seq<int>> {
    if parts == [] then Some([])
    else match (ReadNumber(parts[0], HEX), ReadCharacters(parts[1..]))
      case (Some(n), Some(more)) => Some([n as int] + more)
      case _ => None
  }

  /** A token of a table read: whether it reads, and its entry. */
  function ReadEntry(s: string, prev: int): Option<Option<seq<int>>> {
    if s == "" then Some(None)
    else if s[0] == '*' then
      (match ReadCharacters(Split(s[1..], '.')) case Some(cs) => Some(Some(cs)) case None => None)
    else match ParseDelta(s) case Some(d) => Some(Some([prev + d])) case None => None
  }

  function ReadEntries(parts: seq<string>, prev: int): Option<seq<Option<seq<int>>>> {
    if parts == [] then Some([])
    else match ReadEntry(parts[0], prev)
      case None => None
      case Some(entry) =>
        var prev' := if parts[0] != "" && parts[0][0] != '*' && entry.Some? && |entry.value| == 1
                     then entry.value[0] else prev;
        match ReadEntries(parts[1..], prev')
        case None => None
        case Some(more) => Some([entry] + more)
  }

  function ReadTable(text: string): Option<seq<Option<seq<int>>>> {
    ReadEntries(Split(text, ','), 0)
  }

  lemma ShowSome(n: nat)
    ensures Show(n, HEX) != ""
  {
  }

  lemma {:induction false} ReadCharactersShown(cs: CodecTables.Text)
    ensures ReadCharacters(Map((c: CodePoint) => Show(c, HEX), cs)) == Some(cs)
    ensures forall p :: p in Map((c: CodePoint) => Show(c, HEX), cs) ==> '.' !in p && ',' !in p
  {
    hide Show, ReadNumber;
    var parts := Map((c: CodePoint) => Show(c, HEX), cs);
    if cs != [] {
      ReadCharactersShown(cs[1..]);
      ReadShow(cs[0], HEX);
      ShowSome(cs[0]);
      assert parts[1..] == Map((c: CodePoint) => Show(c, HEX), cs[1..]);
      assert [cs[0]] + cs[1..] == cs;
    }
    forall p | p in parts ensures '.' !in p && ',' !in p {
      var k :| 0 <= k < |parts| && parts[k] == p;
      ShowPlain(cs[k]);
    }
  }

  lemma {:induction false} JoinWithout(parts: seq<string>, sep: char, c: char)
    requires sep != c && forall p :: p in parts ==> c !in p
    ensures c !in Join(parts, sep)
  {
    if |parts| > 1 {
      JoinWithout(parts[1..], sep, c);
    }
  }

  lemma SeveralRead(value: CodecTables.Text)
    requires |value| != 1
    ensures var s := "*" + Join(Map((c: CodePoint) => Show(c, HEX), value), '.');
            && ',' !in s && s[0] == '*'
            && ReadCharacters(Split(s[1..], '.')) == if value == [] then None else Some(value)
  {
    var parts := Map((c: CodePoint) => Show(c, HEX), value);
    ReadCharactersShown(value);
    SplitJoin(parts, '.');
    JoinWithout(parts, '.', ',');
    var s := "*" + Join(parts, '.');
    assert s[1..] == Join(parts, '.');
    if value == [] {
      assert ReadNumber("", HEX) == None;
      assert ReadCharacters([""]) == None;
    }
    hide ReadNumber, Show, Join, Split;
  }

  lemma EntryReads(entry: Option<CodecTables.Text>, prev: nat)
    ensures ',' !in TableToken(entry, prev)
    ensures ReadEntry(TableToken(entry, prev), prev) == if entry == Some([]) then None else Some(entry)
    ensures var s := TableToken(entry, prev);
            s != "" && s[0] != '*' <==> entry.Some? && |entry.value| == 1
  {
    hide HexDelta, Show, Join, Split, ParseDelta, ReadCharacters;
    if entry.Some? && |entry.value| == 1 {
      ParseHexDelta(entry.value[0] - prev);
      assert entry.value == [entry.value[0]];
    } else if entry.Some? {
      SeveralRead(entry.value);
    }
  }

  lemma {:induction false} TableTokensRead(table: seq<Option<CodecTables.Text>>, prev: nat)
    ensures forall s :: s in TableTokens(table, prev) ==> ',' !in s
    ensures ReadEntries(TableTokens(table, prev), prev) == if Some([]) in table then None else Some(table)
  {
    hide TableToken, ReadEntry;
    if table != [] {
      var entry, toks := table[0], TableTokens(table, prev);
      EntryReads(entry, prev);
      TableTokensRead(table[1..], Carried(entry, prev));
      assert toks[1..] == TableTokens(table[1..], Carried(entry, prev));
      assert [entry] + table[1..] == table;
    }
  }

  /** A set's table reads back if and only if it has an entry and none of them is the empty text; what its distances
      are counted from is carried over the entries of several characters, and of none. */
  lemma TableReadsBack(table: seq<Option<CodecTables.Text>>)
    ensures ReadTable(TableText(table)) == Some(table) <==> table != [] && Some([]) !in table
  {
    TableTokensRead(table, 0);
    SplitJoin(TableTokens(table, 0), ',');
    if table == [] {
      assert Split(TableText(table), ',') == [""];
      assert ReadEntries([""], 0) != Some([]);
    }
  }

  lemma TableTokensFrom(table: seq<Option<CodecTables.Text>>, i: nat, prev: nat)
    requires i < |table|
    ensures TableTokens(table[i..], prev)
            == [TableToken(table[i], prev)] + TableTokens(table[i + 1..], Carried(table[i], prev))
  {
    assert table[i..][1..] == table[i + 1..];
  }

  /** rust_text's loop over a set's table. */
  method WriteTable(table: seq<Option<CodecTables.Text>>) returns (text: string)
    ensures text == TableText(table)
  {
    hide HexDelta, Show, Join;
    var prev: nat, toks: seq<string> := 0, [];
    for i := 0 to |table|
      invariant toks + TableTokens(table[i..], prev) == TableTokens(table, 0)
    {
      var t := table[i];
      TableTokensFrom(table, i, prev);
      hide TableTokens;
      var tok, after := "", prev;
      if t.Some? && |t.value| == 1 {
        var d: int := t.value[0] as int - prev as int;
        tok := HexDelta(d);
        after := t.value[0];
      } else if t.Some? {
        tok := "*" + Join(Map((c: CodePoint) => Show(c, HEX), t.value), '.');
      }
      assert tok == TableToken(t, prev) && after == Carried(t, prev);
      hide TableToken, Carried;
      assert toks + ([tok] + TableTokens(table[i + 1..], after)) == toks + [tok] + TableTokens(table[i + 1..], after);
      toks := toks + [tok];
      prev := after;
    }
    assert toks + [] == toks;
    text := Join(toks, ',');
  }

  // ---- gb18030's four-byte sequences ---------------------------------------------------------

  /** Where consecutive code points begin: `cp` is that of the linear index `index`, the next one's is one more. */
  datatype Start = Start(index: nat, cp: nat)

  /** The code point at the linear index `l`: the last run that has begun by then, counted on. */
  function ReadRange(runs: seq<Start>, l: nat): Option<nat> {
    if runs == [] then None
    else
      var last := runs[|runs| - 1];
      if last.index <= l then Some(last.cp + l - last.index) else ReadRange(runs[..|runs| - 1], l)
  }

  lemma {:induction false} ReadRangeBefore(runs: seq<Start>, next: Start, l: nat)
    requires l < next.index
    ensures ReadRange(runs + [next], l) == ReadRange(runs, l)
  {
    assert (runs + [next])[..|runs|] == runs;
  }

  lemma ReadRangeLast(runs: seq<Start>, l: nat)
    requires runs != [] && runs[|runs| - 1].index <= l
    ensures ReadRange(runs, l) == Some(runs[|runs| - 1].cp + l - runs[|runs| - 1].index)
  {
  }

  /** gb18030_ranges, of `n` sequences whose code points `cps` gives: the runs read back at every index. */
  method Ranges(cps: seq<nat>) returns (out: seq<Start>)
    ensures forall l :: 0 <= l < |cps| ==> ReadRange(out, l) == Some(cps[l])
    ensures forall i, j :: 0 <= i < j < |out| ==> out[i].index < out[j].index
    ensures forall k :: 0 < k < |out| ==>
              out[k].cp - out[k].index != out[k - 1].cp - out[k - 1].index       // (no run could be the one before)
  {
    hide ReadRange;
    out := [];
    for l := 0 to |cps|
      invariant forall k :: 0 <= k < l ==> ReadRange(out, k) == Some(cps[k])
      invariant forall i, j :: 0 <= i < j < |out| ==> out[i].index < out[j].index
      invariant forall i :: 0 <= i < |out| ==> out[i].index < l
      invariant forall k :: 0 < k < |out| ==> out[k].cp - out[k].index != out[k - 1].cp - out[k - 1].index
      invariant l > 0 ==> out != []
    {
      var cp := cps[l];
      if out == [] || cp - l != out[|out| - 1].cp - out[|out| - 1].index {
        forall k | 0 <= k < l ensures ReadRange(out + [Start(l, cp)], k) == Some(cps[k]) {
          ReadRangeBefore(out, Start(l, cp), k);
        }
        out := out + [Start(l, cp)];
      }
      ReadRangeLast(out, l);
    }
  }
}
