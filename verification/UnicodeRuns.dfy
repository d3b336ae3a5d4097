/**
 scripts/make_unicode_tables.py: which code points Unicode assigns, written as the lengths of alternating runs in base 36
 (`runs_from_unicodedata`, `b36`), read back by the Python and the JavaScript module it makes (`_unassigned`, `assigned`,
 `assigned13`), and what both do to a text with it (`pin`, `pinUnicode`).
 */
module UnicodeRuns {
  import opened Common
  import opened Numerals
  import opened Texts

  const BASE: nat := 36

  // ---- The runs -----------------------------------------------------------------------------------

  function Repeat(b: bool, n: nat): (r: seq<bool>)
    ensures |r| == n
  {
    seq(n, _ => b)
  }

  /** What alternating runs say of each code point from 0, the first run of what is `b`. */
  function Expand(runs: seq<nat>, b: bool): seq<bool> {
    if runs == [] then [] else Repeat(b, runs[0]) + Expand(runs[1..], !b)
  }

  /** Only the first run may be empty. */
  predicate Positive(runs: seq<nat>) {
    forall k :: 1 <= k < |runs| ==> runs[k] > 0
  }

  lemma {:induction false} ExpandPush(runs: seq<nat>, n: nat, b: bool)
    ensures Expand(runs + [n], b) == Expand(runs, b) + Repeat(if |runs| % 2 == 0 then b else !b, n)
  {
    if runs == [] {
      assert Expand([n], b) == Repeat(b, n) + Expand([], !b);
    } else {
      assert (runs + [n])[1..] == runs[1..] + [n];
      ExpandPush(runs[1..], n, !b);
    }
  }

  lemma RepeatMore(b: bool, n: nat)
    ensures Repeat(b, n) + [b] == Repeat(b, n + 1)
    ensures Repeat(b, 0) == []
  {
  }

  lemma Assoc<T>(a: seq<T>, b: seq<T>, x: T)
    ensures a + (b + [x]) == a + b + [x]
  {
  }

  lemma TakeMore<T>(s: seq<T>, n: nat)
    requires n < |s|
    ensures s[..n + 1] == s[..n] + [s[n]]
  {
  }

  /** One more code point, in the run it continues or in a new one. */
  lemma RunOn(runs: seq<nat>, n: nat, given: bool, table: seq<bool>, cp: nat)
    requires cp < |table| && Expand(runs, true) + Repeat(given, n) == table[..cp] && given == (|runs| % 2 == 0)
    ensures table[cp] == given ==> Expand(runs, true) + Repeat(given, n + 1) == table[..cp + 1]
    ensures table[cp] != given ==> Expand(runs + [n], true) + Repeat(!given, 1) == table[..cp + 1]
  {
    hide *;
    ExpandPush(runs, n, true);
    TakeMore(table, cp);
    RepeatMore(given, n);
    RepeatMore(!given, 0);
    Assoc(Expand(runs, true), Repeat(given, n), given);
  }

  /** The runs before `cp`: those ended, and one of what is `given` from `start`. */
  ghost predicate SoFar(table: seq<bool>, cp: nat, runs: seq<nat>, start: nat, given: bool) {
    && start <= cp <= |table| && Expand(runs, true) + Repeat(given, cp - start) == table[..cp]
    && given == (|runs| % 2 == 0) && Positive(runs) && (runs != [] ==> start < cp)
  }

  lemma SoFarOn(table: seq<bool>, cp: nat, runs: seq<nat>, start: nat, given: bool)
    requires cp < |table| && SoFar(table, cp, runs, start, given)
    ensures table[cp] == given ==> SoFar(table, cp + 1, runs, start, given)
    ensures table[cp] != given ==> SoFar(table, cp + 1, runs + [cp - start], cp, !given)
  {
    hide Expand, Repeat;
    RunOn(runs, cp - start, given, table, cp);
  }

  lemma SoFarEnds(table: seq<bool>, runs: seq<nat>, start: nat, given: bool)
    requires SoFar(table, |table|, runs, start, given)
    ensures Expand(runs + [|table| - start], true) == table
    ensures table != [] ==> Positive(runs + [|table| - start])
  {
    hide Expand, Repeat;
    ExpandPush(runs, |table| - start, true);
    assert table[..|table|] == table;
  }

  /** runs_from_unicodedata, of a table of what is assigned. */
  method RunsOf(table: seq<bool>) returns (runs: seq<nat>)
    ensures Expand(runs, true) == table && runs != [] && (table != [] ==> Positive(runs))
  {
    runs := [];
    var start: nat, given := 0, true;
    for cp := 0 to |table|
      invariant start <= cp && SoFar(table, cp, runs, start, given)
    {
      SoFarOn(table, cp, runs, start, given);
      hide SoFar;
      if table[cp] != given {
        runs := runs + [cp - start];
        start, given := cp, table[cp];
      }
    }
    SoFarEnds(table, runs, start, given);
    runs := runs + [|table| - start];
  }

  /** A table has one such list of runs. */
  lemma {:induction false} RunsAreUnique(a: seq<nat>, b: seq<nat>, first: bool)
    requires Positive(a) && Positive(b) && a != [] && b != [] && Expand(a, first) == Expand(b, first)
    requires (|a| > 1 || a[0] > 0) && (|b| > 1 || b[0] > 0)
    ensures a == b
    decreases |a|
  {
    FirstRun(a, first);
    FirstRun(b, first);
    var s := Expand(a, first);
    assert a[0] == b[0];
    assert s[a[0]..] == Expand(a[1..], !first) == Expand(b[1..], !first);
    if |a| > 1 {
      FirstRun(b[1..], !first);
      RunsAreUnique(a[1..], b[1..], !first);
      assert a == [a[0]] + a[1..] && b == [b[0]] + b[1..];
    }
  }

  lemma FirstRun(runs: seq<nat>, first: bool)
    requires Positive(runs)
    ensures runs == [] ==> Expand(runs, first) == []
    ensures runs != [] ==>
      && runs[0] <= |Expand(runs, first)|
      && (forall k :: 0 <= k < runs[0] ==> Expand(runs, first)[k] == first)
      && Expand(runs, first)[runs[0]..] == Expand(runs[1..], !first)
      && (|runs| > 1 ==> runs[0] < |Expand(runs, first)| && Expand(runs, first)[runs[0]] == !first)
  {
    if |runs| > 1 {
      assert Expand(runs[1..], !first) == Repeat(!first, runs[1]) + Expand(runs[1..][1..], first);
    }
  }

  // ---- Their text ---------------------------------------------------------------------------------

  lemma ShowStep(n: nat)
    ensures n < BASE ==> Show(n, BASE) == [DigitChar(n)]
    ensures n >= BASE ==> Show(n, BASE) == Show(n / BASE, BASE) + [DigitChar(n % BASE)] && n / BASE < n
  {
    if n >= BASE {
      DivMod(n, BASE);
    }
  }

  /** b36. */
  method WriteNumber(n: nat) returns (out: string)
    ensures out == Show(n, BASE)
  {
    var left: nat := n;
    out := "";
    while left >= BASE
      invariant Show(n, BASE) == Show(left, BASE) + out
      decreases left
    {
      ShowStep(left);
      hide Show;
      out := [DigitChar(left % BASE)] + out;
      left := left / BASE;
    }
    ShowStep(left);
    out := [DigitChar(left)] + out;
  }

  function Numbers(runs: seq<nat>): seq<string> {
    seq(|runs|, k requires 0 <= k < |runs| => Show(runs[k], BASE))
  }

  function Text(runs: seq<nat>): string {
    Join(Numbers(runs), ' ')
  }

  method WriteRuns(table: seq<bool>) returns (text: string, ghost runs: seq<nat>)
    ensures text == Text(runs) && Expand(runs, true) == table && runs != [] && (table != [] ==> Positive(runs))
  {
    var lengths := RunsOf(table);
    runs := lengths;
    var parts: seq<string> := [];
    for k := 0 to |lengths|
      invariant parts == Numbers(lengths[..k])
    {
      hide Show;
      var part := WriteNumber(lengths[k]);
      parts := parts + [part];
    }
    assert lengths[..|lengths|] == lengths;
    text := Join(parts, ' ');
  }

  function ReadRuns(parts: seq<string>): Option<seq<nat>> {
    if parts == [] then Some([])
    else
      match ReadNumber(parts[0], BASE)
      case None => None
      case Some(n) => match ReadRuns(parts[1..]) case None => None case Some(more) => Some([n] + more)
  }

  lemma NoSpace(n: nat)
    ensures ' ' !in Show(n, BASE)
  {
    ShowDigits(n, BASE);
    assert forall c :: IsDigit(c, BASE) ==> c != ' ';
  }

  lemma {:induction false} NumbersReadBack(runs: seq<nat>)
    ensures ReadRuns(Numbers(runs)) == Some(runs)
  {
    hide Show, ReadNumber;
    if runs != [] {
      ReadShow(runs[0], BASE);
      assert Numbers(runs)[1..] == Numbers(runs[1..]);
      NumbersReadBack(runs[1..]);
      assert [runs[0]] + runs[1..] == runs;
    }
  }

  lemma TextReadsBack(runs: seq<nat>)
    requires runs != []
    ensures ReadRuns(Split(Text(runs), ' ')) == Some(runs)
  {
    hide Show, ReadRuns, Split, Join;
    var parts := Numbers(runs);
    forall p | p in parts ensures ' ' !in p {
      var k :| 0 <= k < |parts| && p == parts[k];
      NoSpace(runs[k]);
    }
    SplitJoin(parts, ' ');
    NumbersReadBack(runs);
  }

  // ---- The unassigned ranges ----------------------------------------------------------------------

  type Range = (int, int)

  /** The ranges of what is not assigned, from code point `cp`. */
  function Ranges(runs: seq<nat>, cp: nat, given: bool): seq<Range> {
    if runs == [] then []
    else (if given then [] else [(cp, cp + runs[0] - 1)]) + Ranges(runs[1..], cp + runs[0], !given)
  }

  predicate Within(ranges: seq<Range>, cp: int) {
    exists k :: 0 <= k < |ranges| && ranges[k].0 <= cp <= ranges[k].1
  }

  /** The ranges are nonempty, in order and apart. */
  predicate InOrder(ranges: seq<Range>) {
    && (forall k :: 0 <= k < |ranges| ==> ranges[k].0 <= ranges[k].1)
    && forall j, k :: 0 <= j < k < |ranges| ==> ranges[j].1 < ranges[k].0
  }

  /** _unassigned, and the loop of the JavaScript module. */
  method Unassigned(text: string) returns (r: Option<seq<Range>>)
    ensures r == match ReadRuns(Split(text, ' ')) case None => None case Some(runs) => Some(Ranges(runs, 0, true))
  {
    var toks := Split(text, ' ');
    var out: seq<Range>, cp: nat, given, k := [], 0, true, 0;
    ghost var want := Read(toks, 0, true);
    assert toks[0..] == toks;
    ReadIs(toks, 0, true);
    WithNothing(want);
    while k < |toks|
      invariant 0 <= k <= |toks| && want == With(out, Read(toks[k..], cp, given))
    {
      hide Split, ReadNumber, With;
      assert toks[k..][0] == toks[k] && toks[k..][1..] == toks[k + 1..];
      var n := ReadNumber(toks[k], BASE);
      if n == None {
        WithNone(out);
        return None;
      }
      ghost var next := Read(toks[k + 1..], cp + n.value, !given);
      if !given {
        WithOne(out, (cp, cp + n.value - 1), next);
        out := out + [(cp, cp + n.value - 1)];
      }
      cp := cp + n.value;
      given := !given;
      k := k + 1;
    }
    assert toks[k..] == [] && out + [] == out;
    r := Some(out);
  }

  /** The ranges of the runs these tokens write. */
  function Read(toks: seq<string>, cp: nat, given: bool): Option<seq<Range>> {
    if toks == [] then Some([])
    else
      match ReadNumber(toks[0], BASE)
      case None => None
      case Some(n) =>
        var more := Read(toks[1..], cp + n, !given);
        if given then more else With([(cp, cp + n - 1)], more)
  }

  function With(out: seq<Range>, more: Option<seq<Range>>): Option<seq<Range>> {
    match more case None => None case Some(s) => Some(out + s)
  }

  lemma WithNothing(more: Option<seq<Range>>)
    ensures With([], more) == more
  {
    assert more.Some? ==> [] + more.value == more.value;
  }

  lemma WithNone(out: seq<Range>)
    ensures With(out, None) == None
  {
  }

  lemma WithOne(out: seq<Range>, r: Range, more: Option<seq<Range>>)
    ensures With(out, With([r], more)) == With(out + [r], more)
  {
    assert more.Some? ==> out + ([r] + more.value) == out + [r] + more.value;
  }

  lemma {:induction false} ReadIs(toks: seq<string>, cp: nat, given: bool)
    ensures Read(toks, cp, given)
            == match ReadRuns(toks) case None => None case Some(runs) => Some(Ranges(runs, cp, given))
  {
    hide ReadNumber;
    if toks != [] {
      match ReadNumber(toks[0], BASE)
      case None =>
      case Some(n) =>
        ReadIs(toks[1..], cp + n, !given);
        if ReadRuns(toks).Some? {
          assert ReadRuns(toks).value == [n] + ReadRuns(toks[1..]).value;
          assert ReadRuns(toks).value[1..] == ReadRuns(toks[1..]).value && ReadRuns(toks).value[0] == n;
          assert [] + Ranges(ReadRuns(toks[1..]).value, cp + n, !given) == Ranges(ReadRuns(toks[1..]).value, cp + n, !given);
        }
    }
  }

  predicate SaysNot(table: seq<bool>, at: int) {
    0 <= at < |table| && !table[at]
  }

  lemma SaysNotOn(given: bool, n: nat, rest: seq<bool>, at: int)
    ensures SaysNot(Repeat(given, n) + rest, at) <==> if at < n then 0 <= at && !given else SaysNot(rest, at - n)
  {
  }

  ghost predicate Says(ranges: seq<Range>, cp: int, table: seq<bool>) {
    forall o :: Within(ranges, o) <==> SaysNot(table, o - cp)
  }

  /** A run before what the rest says. */
  lemma SaysOn(cp: nat, n: nat, given: bool, more: seq<Range>, rest: seq<bool>)
    requires Says(more, cp + n, rest) && forall r :: r in more ==> cp + n <= r.0
    ensures given ==> Says(more, cp, Repeat(given, n) + rest)
    ensures !given ==> Says([(cp, cp + n - 1)] + more, cp, Repeat(given, n) + rest)
  {
    hide SaysNot, Within, Repeat;
    var r: Range := (cp, cp + n - 1);
    forall o
      ensures given ==> (Within(more, o) <==> SaysNot(Repeat(given, n) + rest, o - cp))
      ensures !given ==> (Within([r] + more, o) <==> SaysNot(Repeat(given, n) + rest, o - cp))
    {
      SaysNotOn(given, n, rest, o - cp);
      assert o - cp - n == o - (cp + n);
      if o < cp + n {
        NotWithin(more, cp + n, o);
      }
      WithinCons(r, more, o);
    }
    assert [r] + more == [(cp, cp + n - 1)] + more;
  }

  lemma RangesStep(runs: seq<nat>, cp: nat, given: bool)
    requires runs != []
    ensures var more := Ranges(runs[1..], cp + runs[0], !given);
            Ranges(runs, cp, given) == if given then more else [(cp, cp + runs[0] - 1)] + more
  {
    var more := Ranges(runs[1..], cp + runs[0], !given);
    assert [] + more == more;
  }

  /** The ranges say what the runs say. */
  lemma {:induction false} RangesSay(runs: seq<nat>, cp: nat, given: bool)
    requires forall k :: 0 <= k < |runs| ==> (k > 0 || !given) ==> runs[k] > 0
    ensures InOrder(Ranges(runs, cp, given))
    ensures forall r :: r in Ranges(runs, cp, given) ==> cp <= r.0
    ensures Says(Ranges(runs, cp, given), cp, Expand(runs, given))
  {
    if runs != [] {
      var n, more := runs[0], Ranges(runs[1..], cp + runs[0], !given);
      RangesSay(runs[1..], cp + n, !given);
      RangesStep(runs, cp, given);
      SaysOn(cp, n, given, more, Expand(runs[1..], !given));
      hide Ranges, Says;
      if !given {
        InOrderCons((cp, cp + n - 1), more);
      }
    }
  }

  lemma InOrderCons(r: Range, more: seq<Range>)
    requires InOrder(more) && r.0 <= r.1 && forall x :: x in more ==> r.1 < x.0
    ensures InOrder([r] + more)
  {
  }

  lemma WithinCons(r: Range, more: seq<Range>, o: int)
    ensures Within([r] + more, o) <==> r.0 <= o <= r.1 || Within(more, o)
  {
    var all := [r] + more;
    if Within(more, o) {
      var k :| 0 <= k < |more| && more[k].0 <= o <= more[k].1;
      assert all[k + 1] == more[k];
    }
    if r.0 <= o <= r.1 {
      assert all[0] == r;
    }
  }

  lemma NotWithin(ranges: seq<Range>, lo: int, o: int)
    requires (forall r :: r in ranges ==> lo <= r.0) && o < lo
    ensures !Within(ranges, o)
  {
    forall k | 0 <= k < |ranges| ensures ranges[k].0 > o {
      assert ranges[k] in ranges;
    }
  }

  /** assigned13's search, and bisect.bisect_right's in assigned: the last range that starts at or before `cp`. */
  method Assigned(ranges: seq<Range>, cp: int) returns (r: bool)
    requires InOrder(ranges)
    ensures r == !Within(ranges, cp)
  {
    var lo, hi := 0, |ranges|;
    while lo < hi
      invariant 0 <= lo <= hi <= |ranges|
      invariant forall k :: 0 <= k < lo ==> ranges[k].0 <= cp
      invariant forall k :: hi <= k < |ranges| ==> ranges[k].0 > cp
    {
      var mid := (lo + hi) / 2;
      if ranges[mid].0 <= cp {
        lo := mid + 1;
      } else {
        hi := mid;
      }
    }
    r := lo == 0 || cp > ranges[lo - 1].1;
  }

  /** Whatever is assigned: written as text and read back, each code point is asked right. */
  lemma TableAnswers(table: seq<bool>, runs: seq<nat>, cp: int)
    requires runs != [] && Positive(runs) && Expand(runs, true) == table
    ensures ReadRuns(Split(Text(runs), ' ')) == Some(runs) && InOrder(Ranges(runs, 0, true))
    ensures Within(Ranges(runs, 0, true), cp) <==> 0 <= cp < |table| && !table[cp]
  {
    TextReadsBack(runs);
    RangesSay(runs, 0, true);
  }

  /** From the table to its text and back to an answer. */
  method Ask(table: seq<bool>, cp: nat) returns (r: bool)
    requires cp < |table|
    ensures r == table[cp]
  {
    hide Split, Expand, Ranges, Text, ReadRuns;
    var text, runs := WriteRuns(table);
    TableAnswers(table, runs, cp);
    var ranges := Unassigned(text);
    r := Assigned(ranges.value, cp);
  }

  // ---- pin ----------------------------------------------------------------------------------------

  const REPLACEMENT: nat := 0xFFFD
  const FIRST_UNASSIGNED: nat := 0x378

  /** A text, as its code points. */
  type CodePoints = seq<nat>

  /** `text` with each code point that `odd` says replaced. */
  function Replaced(text: CodePoints, odd: nat -> bool): (r: CodePoints)
    ensures |r| == |text|
  {
    seq(|text|, k requires 0 <= k < |text| => if odd(text[k]) then REPLACEMENT else text[k])
  }

  predicate IsAscii(text: CodePoints) {
    forall c :: c in text ==> c < 0x80
  }

  /** Python's pin: only code points from U+0378 up are looked up, and none in an ASCII text. */
  function Pin(text: CodePoints, given: nat -> bool): CodePoints {
    if IsAscii(text) then text else Replaced(text, (c: nat) => c >= FIRST_UNASSIGNED && !given(c))
  }

  /** JavaScript's pinUnicode: all are looked up, but none in an ASCII text. */
  function PinUnicode(text: CodePoints, given: nat -> bool): CodePoints {
    if IsAscii(text) then text else Replaced(text, (c: nat) => !given(c))
  }

  ghost predicate LowAssigned(given: nat -> bool) {
    forall c: nat :: c < FIRST_UNASSIGNED ==> given(c)
  }

  /** Point by point: U+FFFD for a code point not assigned, which the one looks up from U+0378 on, the other in any text that
      is not ASCII; and every other code point as it is, in its place. */
  lemma PinSays(text: CodePoints, given: nat -> bool)
    ensures |Pin(text, given)| == |text| == |PinUnicode(text, given)|
    ensures forall k :: 0 <= k < |text| ==>
              Pin(text, given)[k] == if text[k] >= 0x378 && !given(text[k]) then 0xFFFD else text[k]
    ensures forall k :: 0 <= k < |text| ==>
              PinUnicode(text, given)[k]
              == if (exists c :: c in text && c >= 0x80) && !given(text[k]) then 0xFFFD else text[k]
  {
    assert forall k :: 0 <= k < |text| ==> text[k] in text;
  }

  /** A text pinned: as long, its assigned code points where they were and U+FFFD in the place of each other. */
  lemma PinIs(text: CodePoints, given: nat -> bool)
    requires LowAssigned(given)
    ensures Pin(text, given) == PinUnicode(text, given)
    ensures |Pin(text, given)| == |text|
    ensures forall k :: 0 <= k < |text| ==> Pin(text, given)[k] == if given(text[k]) then text[k] else 0xFFFD
  {
    assert forall k :: 0 <= k < |text| ==> text[k] in text;
    forall k | 0 <= k < |text| && text[k] < FIRST_UNASSIGNED ensures given(text[k]) {
    }
  }

  /** Pinning a text again changes nothing, and only assigned code points are left. */
  lemma PinOnce(text: CodePoints, given: nat -> bool)
    requires LowAssigned(given) && given(REPLACEMENT)
    ensures Pin(Pin(text, given), given) == Pin(text, given)
    ensures |Pin(text, given)| == |text| && forall c :: c in Pin(text, given) ==> given(c)
  {
    PinIs(text, given);
    PinIs(Pin(text, given), given);
  }

  /** They never differ if and only if every code point below U+0378 is assigned. */
  lemma PinsAgree(given: nat -> bool)
    ensures LowAssigned(given) <==> forall text :: Pin(text, given) == PinUnicode(text, given)
  {
    if LowAssigned(given) {
      forall text ensures Pin(text, given) == PinUnicode(text, given) {
        PinIs(text, given);
      }
    } else {
      var c: nat :| c < FIRST_UNASSIGNED && !given(c);
      var text := [c, 0x80];
      assert text[1] in text && text[0] == c;
      assert Pin(text, given)[0] == c && PinUnicode(text, given)[0] == REPLACEMENT;
    }
  }

  /** What is replaced: str.translate, of the code points of the text that `pin` looks up. */
  method PinText(text: CodePoints, ranges: seq<Range>) returns (out: CodePoints)
    requires InOrder(ranges)
    ensures out == Pin(text, (c: nat) => !Within(ranges, c)) && |out| == |text|
    ensures forall k :: 0 <= k < |text| ==>
              out[k] == if text[k] >= 0x378 && Within(ranges, text[k]) then 0xFFFD else text[k]
  {
    PinSays(text, (c: nat) => !Within(ranges, c));
    if IsAscii(text) {
      return text;
    }
    var table: set<nat> := {};
    for k := 0 to |text|
      invariant forall c :: c in table <==> c in text[..k] && c >= FIRST_UNASSIGNED && Within(ranges, c)
    {
      assert text[..k + 1] == text[..k] + [text[k]];
      var given := Assigned(ranges, text[k]);
      if text[k] >= FIRST_UNASSIGNED && !given {
        table := table + {text[k]};
      }
    }
    assert text[..|text|] == text;
    out := seq(|text|, k requires 0 <= k < |text| => if text[k] in table then REPLACEMENT else text[k]);
  }
}
