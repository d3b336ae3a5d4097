/**
 scripts/make_pyparse_tables.py: the front-coded table of character names. An entry begins with how many
 characters it takes over from the previous name (0 where a block begins), goes on with dictionary words, of one byte or of
 two, and single characters, and ends with a zero, which may also be the second byte of a word.
 */
module NameTable {
  import opened Common

  const BLOCK: nat := 16
  const ONE_BYTE: nat := 128             // words of one byte: from 0x80 up
  const TWO_BYTE: nat := 31              // words of two: the first is below 0x20 and not zero

  /** The characters that stand for themselves (the names' are among them). */
  predicate Plain(s: string) {
    forall k :: 0 <= k < |s| ==> ' ' <= s[k] <= '~'
  }

  predicate IsBreak(c: char) {
    c == ' ' || c == '-'
  }

  // ---- Words -----------------------------------------------------------------------------

  function RunLength(s: string): (n: nat)
    ensures n <= |s| && forall k :: 0 <= k < n ==> !IsBreak(s[k])
    ensures n < |s| ==> IsBreak(s[n])
  {
    if s == "" || IsBreak(s[0]) then 0 else 1 + RunLength(s[1..])
  }

  /** The length of the first word: a run and the break after it, or a break with no run before it. */
  function WordLength(s: string): (m: nat)
    requires s != ""
    ensures 0 < m <= |s|
  {
    var n := RunLength(s);
    if n < |s| then n + 1 else n
  }

  /** words_of. */
  function WordsOf(s: string): seq<string>
    decreases |s|
  {
    if s == "" then [] else [s[..WordLength(s)]] + WordsOf(s[WordLength(s)..])
  }

  lemma {:induction false} WordsJoin(s: string)
    ensures Flatten(WordsOf(s)) == s
    decreases |s|
  {
    hide WordLength;
    if s != "" {
      var m := WordLength(s);
      WordsJoin(s[m..]);
      assert s[..m] + s[m..] == s;
    }
  }

  lemma {:induction false} WordsPlain(s: string)
    requires Plain(s)
    ensures forall w :: w in WordsOf(s) ==> Plain(w)
    decreases |s|
  {
    hide WordLength;
    if s != "" {
      var m := WordLength(s);
      WordsPlain(s[m..]);
      assert forall w :: w in WordsOf(s) ==> w == s[..m] || w in WordsOf(s[m..]);
    }
  }

  /** The words are cut after each break and nowhere else. */
  lemma {:induction false} WordsCutAtBreaks(s: string)
    ensures forall w :: w in WordsOf(s) ==> w != "" && forall k :: 0 <= k < |w| - 1 ==> w[k] != ' ' && w[k] != '-'
    ensures forall i :: 0 <= i < |WordsOf(s)| - 1 ==> WordsOf(s)[i] != "" && WordsOf(s)[i][|WordsOf(s)[i]| - 1] in " -"
    decreases |s|
  {
    if s != "" {
      var m := WordLength(s);
      WordsCutAtBreaks(s[m..]);
      var ws, more := WordsOf(s), WordsOf(s[m..]);
      assert ws == [s[..m]] + more;
      forall i | 0 <= i < |ws| - 1 ensures ws[i] != "" && ws[i][|ws[i]| - 1] in " -" {
        if i > 0 {
          assert ws[i] == more[i - 1];
        }
      }
    }
  }

  // ---- The writer ------------------------------------------------------------------------

  type Code = map<string, Bytes>

  function Literal(w: string): Bytes
    requires Plain(w)
  {
    seq(|w|, k requires 0 <= k < |w| => w[k] as int)
  }

  function WordBytes(code: Code, w: string): Bytes
    requires Plain(w)
  {
    if w in code then code[w] else Literal(w)
  }

  function SuffixBytes(code: Code, words: seq<string>): Bytes
    requires forall w :: w in words ==> Plain(w)
  {
    if words == [] then [] else WordBytes(code, words[0]) + SuffixBytes(code, words[1..])
  }

  function CommonPrefix(a: string, b: string): (k: nat)
    ensures k <= |a| && k <= |b| && a[..k] == b[..k]
    ensures k < |a| && k < |b| ==> a[k] != b[k]
  {
    if a == "" || b == "" || a[0] != b[0] then 0
    else
      var k := CommonPrefix(a[1..], b[1..]);
      assert a[..k + 1] == [a[0]] + a[1..][..k] && b[..k + 1] == [b[0]] + b[1..][..k];
      k + 1
  }

  /** `k` moved back to just after a break, or to the start. */
  function BackToBreak(n: string, k: nat): (j: nat)
    requires k <= |n|
    ensures j <= k && (j == 0 || IsBreak(n[j - 1]))
    ensures forall i :: j <= i < k ==> !IsBreak(n[i])
  {
    if k > 0 && !IsBreak(n[k - 1]) then BackToBreak(n, k - 1) else k
  }

  datatype Entry = Entry(name: string, cp: nat)

  /** How many characters entry `i` takes over from the previous name. */
  function SharedAt(entries: seq<Entry>, i: nat): (k: nat)
    requires i < |entries|
    ensures k <= |entries[i].name|
    ensures i % BLOCK != 0 ==> k <= |entries[i - 1].name| && entries[i].name[..k] == entries[i - 1].name[..k]
    ensures i % BLOCK == 0 ==> k == 0
  {
    if i % BLOCK == 0 then 0
    else
      var c := CommonPrefix(entries[i].name, entries[i - 1].name);
      var k := BackToBreak(entries[i].name, c);
      assert entries[i].name[..k] == entries[i].name[..c][..k] == entries[i - 1].name[..c][..k];
      k
  }

  /** Entry `i`, written. */
  function EntryBytes(code: Code, entries: seq<Entry>, i: nat): Bytes
    requires i < |entries| && Plain(entries[i].name) && SharedAt(entries, i) < 256
  {
    var n, k := entries[i].name, SharedAt(entries, i);
    WordsPlain(n[k..]);
    [k as Byte] + SuffixBytes(code, WordsOf(n[k..])) + [0]
  }

  /** The three bytes of a code point, the least first. */
  function CpBytes(cp: nat): Bytes {
    var high := cp / 256; [cp % 256, high % 256, high / 256 % 256]
  }

  datatype Table = Table(words: seq<string>, data: Bytes, blocks: seq<nat>, cps: Bytes)

  /** What the script raises an error for. */
  predicate Refused(entries: seq<Entry>, i: nat)
    requires i < |entries|
  {
    SharedAt(entries, i) >= 256 || entries[i].cp >= 0x1_000000
  }

  // ---- The reader ------------------------------------------------------------------------

  /** The word of the bytes `b` and `c`. */
  function TwoByteWord(b: int, c: int): nat
    requires 1 <= b && 0 <= c
  {
    ONE_BYTE + (b - 1) * 256 + c
  }

  /** decode_entry's loop: what is read on to `out`, and what is left after the zero. */
  function DecodeSuffix(words: seq<string>, rest: Bytes, out: string): Option<(string, Bytes)>
    decreases |rest|
  {
    if rest == [] then None
    else
      var b := rest[0];
      if b == 0 then Some((out, rest[1..]))
      else if b >= 0x80 then
        if b - 0x80 < |words| then DecodeSuffix(words, rest[1..], out + words[b - 0x80]) else None
      else if b < 0x20 then
        if |rest| > 1 && TwoByteWord(b, rest[1]) < |words| then
          DecodeSuffix(words, rest[2..], out + words[TwoByteWord(b, rest[1])])
        else None
      else DecodeSuffix(words, rest[1..], out + [b as char])
  }

  /** decode_entry: the first entry of `rest`, whose previous name is `prev`, as a name, and what is left. */
  function DecodeEntry(words: seq<string>, rest: Bytes, prev: string): Option<(string, Bytes)> {
    if rest == [] then None
    else DecodeSuffix(words, rest[1..], if rest[0] < |prev| then prev[..rest[0]] else prev)
  }

  /** The bytes `bytes` are the word `w`, to the reader. */
  ghost predicate IsWordCode(words: seq<string>, bytes: Bytes, w: string) {
    || (|bytes| == 1 && bytes[0] >= 0x80 && bytes[0] - 0x80 < |words| && words[bytes[0] - 0x80] == w)
    || (|bytes| == 2 && 1 <= bytes[0] < 0x20 && TwoByteWord(bytes[0], bytes[1]) < |words|
        && words[TwoByteWord(bytes[0], bytes[1])] == w)
  }

  ghost predicate IsCode(words: seq<string>, code: Code) {
    forall w :: w in code ==> IsWordCode(words, code[w], w)
  }

  lemma {:induction false} DecodeLiteral(words: seq<string>, w: string, rest: Bytes, out: string)
    requires Plain(w)
    ensures DecodeSuffix(words, Literal(w) + rest, out) == DecodeSuffix(words, rest, out + w)
  {
    if w == "" {
      assert Literal(w) + rest == rest;
      assert out + w == out;
    } else {
      var bytes := Literal(w) + rest;
      assert bytes[0] == w[0] as int && bytes[1..] == Literal(w[1..]) + rest;
      DecodeLiteral(words, w[1..], rest, out + [w[0]]);
      assert out + [w[0]] + w[1..] == out + w;
    }
  }

  lemma DecodeWord(words: seq<string>, code: Code, w: string, rest: Bytes, out: string)
    requires IsCode(words, code) && Plain(w)
    ensures DecodeSuffix(words, WordBytes(code, w) + rest, out) == DecodeSuffix(words, rest, out + w)
  {
    if w in code {
      assert IsWordCode(words, code[w], w);
      var bytes := code[w] + rest;
      assert bytes[|code[w]|..] == rest;
    } else {
      DecodeLiteral(words, w, rest, out);
    }
  }

  /** A suffix reads back, though its codes may hold zeros: they are never read as its end. */
  lemma {:induction false} DecodeWords(words: seq<string>, code: Code, ws: seq<string>, rest: Bytes, out: string)
    requires IsCode(words, code) && forall w :: w in ws ==> Plain(w)
    ensures DecodeSuffix(words, SuffixBytes(code, ws) + [0] + rest, out) == Some((out + Flatten(ws), rest))
  {
    hide IsCode, WordBytes;
    if ws == [] {
      var bytes := SuffixBytes(code, ws) + [0] + rest;
      assert bytes[0] == 0 && bytes[1..] == rest;
      assert out + [] == out;
    } else {
      var more := SuffixBytes(code, ws[1..]) + [0] + rest;
      assert SuffixBytes(code, ws) + [0] + rest == WordBytes(code, ws[0]) + more;
      hide DecodeSuffix;
      DecodeWord(words, code, ws[0], more, out);
      DecodeWords(words, code, ws[1..], rest, out + ws[0]);
      assert out + ws[0] + Flatten(ws[1..]) == out + Flatten(ws);
    }
  }

  /** Entry `i` reads back given the previous name or, where a block begins, given any name. */
  lemma EntryReadsBack(words: seq<string>, code: Code, entries: seq<Entry>, i: nat, rest: Bytes, prev: string)
    requires IsCode(words, code) && i < |entries| && Plain(entries[i].name) && SharedAt(entries, i) < 256
    requires i % BLOCK == 0 || prev == entries[i - 1].name
    ensures DecodeEntry(words, EntryBytes(code, entries, i) + rest, prev) == Some((entries[i].name, rest))
  {
    hide DecodeSuffix, SharedAt, WordsOf, IsCode, SuffixBytes, Flatten;
    var n, k := entries[i].name, SharedAt(entries, i);
    WordsJoin(n[k..]);
    WordsPlain(n[k..]);
    var suffix := SuffixBytes(code, WordsOf(n[k..]));
    var bytes := EntryBytes(code, entries, i) + rest;
    assert bytes[0] == k && bytes[1..] == suffix + [0] + rest;
    DecodeWords(words, code, WordsOf(n[k..]), rest, n[..k]);
    assert n[..k] + n[k..] == n;
    assert (if k < |prev| then prev[..k] else prev) == n[..k] by {
      if i % BLOCK == 0 { assert n[..0] == prev[..0]; }
    }
  }

  // ---- The table -------------------------------------------------------------------------

  /** `t` holds the first `m` of `entries`; `offs[i]` is where entry `i` starts. */
  ghost predicate Holds(t: Table, code: Code, entries: seq<Entry>, m: nat, offs: seq<nat>)
    requires m <= |entries|
  {
    && IsCode(t.words, code)
    && |offs| == m + 1 && offs[0] == 0 && offs[m] == |t.data|
    && |t.cps| == 3 * m
    && |t.blocks| == (m + BLOCK - 1) / BLOCK
    && (forall j :: 0 <= j < |t.blocks| ==> t.blocks[j] == offs[BLOCK * j])
    && (forall i :: 0 <= i < m ==> HoldsAt(t, code, entries, i, offs))
  }

  ghost predicate HoldsAt(t: Table, code: Code, entries: seq<Entry>, i: nat, offs: seq<nat>)
    requires i < |entries|
  {
    && Plain(entries[i].name) && !Refused(entries, i)
    && i + 1 < |offs| && offs[i] <= offs[i + 1] <= |t.data|
    && t.data[offs[i]..offs[i + 1]] == EntryBytes(code, entries, i)
    && 3 * i + 3 <= |t.cps| && t.cps[3 * i..3 * i + 3] == CpBytes(entries[i].cp)
  }

  function LittleEndian(a: int, b: int, c: int): int {
    a + 256 * b + 65536 * c
  }

  /** The code point of entry `i`. */
  function CpAt(cps: Bytes, i: nat): int
    requires 3 * i + 3 <= |cps|
  {
    LittleEndian(cps[3 * i], cps[3 * i + 1], cps[3 * i + 2])
  }

  lemma CpBytesRead(cp: nat)
    requires cp < 0x1_000000
    ensures LittleEndian(CpBytes(cp)[0], CpBytes(cp)[1], CpBytes(cp)[2]) == cp
  {
    var high := cp / 256;
    var top := high / 256;
    assert cp == 256 * high + cp % 256 && high == 256 * top + high % 256 && top < 256;
  }

  /** Every entry of the table reads back from where it starts, after the name before it (after any name at a block's
      start), and so does its code point. */
  lemma TableReadsBack(t: Table, code: Code, entries: seq<Entry>, offs: seq<nat>, i: nat, prev: string)
    requires Holds(t, code, entries, |entries|, offs) && i < |entries|
    requires i % BLOCK == 0 || prev == entries[i - 1].name
    ensures offs[i] <= offs[i + 1] <= |t.data|
    ensures DecodeEntry(t.words, t.data[offs[i]..], prev) == Some((entries[i].name, t.data[offs[i + 1]..]))
    ensures CpAt(t.cps, i) == entries[i].cp
    ensures i % BLOCK == 0 ==> t.blocks[i / BLOCK] == offs[i]
  {
    assert IsCode(t.words, code) && HoldsAt(t, code, entries, i, offs);
    hide *;
    BlockStart(t, code, entries, offs, i);
    CpReadsBack(t, code, entries, offs, i);
    RestReadsBack(t, code, entries, offs, i, prev);
  }

  lemma BlockStart(t: Table, code: Code, entries: seq<Entry>, offs: seq<nat>, i: nat)
    requires Holds(t, code, entries, |entries|, offs) && i < |entries|
    ensures i + 1 < |offs| && offs[i] <= offs[i + 1] <= |t.data|
    ensures i % BLOCK == 0 ==> i / BLOCK < |t.blocks| && t.blocks[i / BLOCK] == offs[i]
    ensures 3 * i + 3 <= |t.cps|
  {
    assert HoldsAt(t, code, entries, i, offs);
    hide HoldsAt, IsCode;
    if i % BLOCK == 0 {
      var j := i / BLOCK;
      assert i == BLOCK * j && j < |t.blocks|;
    }
  }

  lemma RestReadsBack(t: Table, code: Code, entries: seq<Entry>, offs: seq<nat>, i: nat, prev: string)
    requires IsCode(t.words, code) && i < |entries| && HoldsAt(t, code, entries, i, offs)
    requires i % BLOCK == 0 || prev == entries[i - 1].name
    ensures DecodeEntry(t.words, t.data[offs[i]..], prev) == Some((entries[i].name, t.data[offs[i + 1]..]))
  {
    var rest := t.data[offs[i + 1]..];
    assert t.data[offs[i]..] == t.data[offs[i]..offs[i + 1]] + rest;
    hide IsCode, EntryBytes, SharedAt, DecodeEntry, CpBytes;
    EntryReadsBack(t.words, code, entries, i, rest, prev);
  }

  lemma CpReadsBack(t: Table, code: Code, entries: seq<Entry>, offs: seq<nat>, i: nat)
    requires i < |entries| && HoldsAt(t, code, entries, i, offs)
    ensures CpAt(t.cps, i) == entries[i].cp
  {
    hide EntryBytes, SharedAt, Plain;
    var three := t.cps[3 * i..3 * i + 3];
    assert t.cps[3 * i] == three[0] && t.cps[3 * i + 1] == three[1] && t.cps[3 * i + 2] == three[2];
    CpBytesRead(entries[i].cp);
  }

  /** The names of `count` entries, the first read after `prev`. */
  function DecodeNames(words: seq<string>, rest: Bytes, prev: string, count: nat): Option<seq<string>>
    decreases count
  {
    if count == 0 then Some([])
    else match DecodeEntry(words, rest, prev)
      case None => None
      case Some((name, left)) =>
        match DecodeNames(words, left, name, count - 1)
        case None => None
        case Some(more) => Some([name] + more)
  }

  function Names(entries: seq<Entry>, from: nat, count: nat): seq<string>
    requires from + count <= |entries|
  {
    seq(count, k requires 0 <= k < count => entries[from + k].name)
  }

  lemma NamesCons(entries: seq<Entry>, from: nat, count: nat)
    requires from + count <= |entries| && count > 0
    ensures Names(entries, from, count) == [entries[from].name] + Names(entries, from + 1, count - 1)
  {
  }

  lemma DecodeMore(words: seq<string>, rest: Bytes, prev: string, count: nat, name: string, left: Bytes, more: seq<string>)
    requires count > 0 && DecodeEntry(words, rest, prev) == Some((name, left))
    requires DecodeNames(words, left, name, count - 1) == Some(more)
    ensures DecodeNames(words, rest, prev, count) == Some([name] + more)
  {
    hide DecodeEntry;
  }

  lemma DecodeNone(words: seq<string>, rest: Bytes, prev: string, entries: seq<Entry>, from: nat)
    requires from <= |entries|
    ensures DecodeNames(words, rest, prev, 0) == Some(Names(entries, from, 0))
  {
    assert Names(entries, from, 0) == [];
  }

  lemma OffsetIn(t: Table, code: Code, entries: seq<Entry>, offs: seq<nat>, from: nat)
    requires Holds(t, code, entries, |entries|, offs) && from <= |entries|
    ensures from < |offs| && offs[from] <= |t.data|
  {
    assert from < |entries| ==> HoldsAt(t, code, entries, from, offs);
    hide HoldsAt, IsCode;
    if from < |entries| {
      BlockStart(t, code, entries, offs, from);
    }
  }

  lemma {:induction false} NamesReadBack(t: Table, code: Code, entries: seq<Entry>, offs: seq<nat>, from: nat, prev: string,
                                         count: nat)
    requires Holds(t, code, entries, |entries|, offs) && from + count <= |entries|
    requires from % BLOCK == 0 || (from > 0 && prev == entries[from - 1].name)
    ensures from < |offs| && offs[from] <= |t.data|
    ensures DecodeNames(t.words, t.data[offs[from]..], prev, count) == Some(Names(entries, from, count))
    decreases count
  {
    hide *;
    OffsetIn(t, code, entries, offs, from);
    if count > 0 {
      OffsetIn(t, code, entries, offs, from + 1);
      TableReadsBack(t, code, entries, offs, from, prev);
      var name := entries[from].name;
      NamesReadBack(t, code, entries, offs, from + 1, name, count - 1);
      NamesCons(entries, from, count);
      DecodeMore(t.words, t.data[offs[from]..], prev, count, name, t.data[offs[from + 1]..],
                 Names(entries, from + 1, count - 1));
    } else {
      DecodeNone(t.words, t.data[offs[from]..], prev, entries, from);
    }
  }

  /** A block reads on its own, from its recorded offset, whatever was read before. */
  lemma BlockReadsBack(t: Table, code: Code, entries: seq<Entry>, offs: seq<nat>, j: nat, prev: string)
    requires Holds(t, code, entries, |entries|, offs) && j < |t.blocks|
    ensures var size := if BLOCK * j + BLOCK <= |entries| then BLOCK else |entries| - BLOCK * j;
            && 0 < size && t.blocks[j] <= |t.data|
            && DecodeNames(t.words, t.data[t.blocks[j]..], prev, size) == Some(Names(entries, BLOCK * j, size))
  {
    var size := if BLOCK * j + BLOCK <= |entries| then BLOCK else |entries| - BLOCK * j;
    NamesReadBack(t, code, entries, offs, BLOCK * j, prev, size);
  }

  // ---- The script's own code ----------------------------------------------------------------

  function FirstOf(words: seq<string>, n: nat): set<string>
    requires n <= |words|
  {
    set w | w in words[..n]
  }

  /** The code of each word of the dictionary: the first in one byte, the next in two. */
  method BuildCode(ranked: seq<string>) returns (words: seq<string>, code: Code)
    ensures words == if |ranked| <= ONE_BYTE + TWO_BYTE * 256 then ranked else ranked[..ONE_BYTE + TWO_BYTE * 256]
    ensures IsCode(words, code) && code.Keys == set w | w in words
  {
    hide IsCode, FirstOf, TwoByteWord;
    var one := if |ranked| <= ONE_BYTE then ranked else ranked[..ONE_BYTE];
    var end := if |ranked| <= ONE_BYTE + TWO_BYTE * 256 then |ranked| else ONE_BYTE + TWO_BYTE * 256;
    var two := if |ranked| <= ONE_BYTE then [] else ranked[ONE_BYTE..end];
    words := one + two;
    code := map[];
    NoCode(words);
    for i := 0 to |one|
      invariant IsCode(words, code) && code.Keys == FirstOf(words, i)
    {
      assert words[i] == one[i];
      MoreCode(words, code, i, [0x80 + i]);
      code := code[one[i] := [0x80 + i]];
    }
    for i := 0 to |two|
      invariant IsCode(words, code) && code.Keys == FirstOf(words, |one| + i)
    {
      assert words[|one| + i] == two[i];
      TwoBytesOf(i);
      MoreCode(words, code, |one| + i, [1 + i / 256, i % 256]);
      code := code[two[i] := [1 + i / 256, i % 256]];
    }
    AllOf(words);
  }

  lemma NoCode(words: seq<string>)
    ensures IsCode(words, map[]) && FirstOf(words, 0) == {}
  {
  }

  lemma AllOf(words: seq<string>)
    ensures FirstOf(words, |words|) == set w | w in words
  {
    assert words[..|words|] == words;
  }

  lemma TwoBytesOf(i: nat)
    requires i < TWO_BYTE * 256
    ensures 1 <= 1 + i / 256 < 0x20 && TwoByteWord(1 + i / 256, i % 256) == ONE_BYTE + i
  {
  }

  lemma MoreCode(words: seq<string>, code: Code, i: nat, bytes: Bytes)
    requires IsCode(words, code) && i < |words| && IsWordCode(words, bytes, words[i])
    requires code.Keys == FirstOf(words, i)
    ensures IsCode(words, code[words[i] := bytes])
    ensures code[words[i] := bytes].Keys == FirstOf(words, i + 1)
  {
    assert words[..i + 1] == words[..i] + [words[i]];
  }

  lemma Differ(a: string, b: string, c: nat, j: nat)
    requires c < |a| && c < |b| && a[c] != b[c] && j <= |a| && j <= |b|
    ensures j > c ==> a[..j] != b[..j]
  {
    assert j > c ==> a[..j][c] == a[c] && b[..j][c] == b[c];
  }

  /** What a name `n` shares with the name `prev` before it: the longest prefix of both that ends after a break. */
  method SharePrefix(n: string, prev: string) returns (k: nat)
    ensures k == BackToBreak(n, CommonPrefix(n, prev))
    ensures k <= |n| && k <= |prev| && n[..k] == prev[..k] && (k == 0 || n[k - 1] == ' ' || n[k - 1] == '-')
    ensures forall j :: k < j <= |n| && j <= |prev| && n[..j] == prev[..j] ==> n[j - 1] != ' ' && n[j - 1] != '-'
  {
    k := 0;
    while k < |n| && k < |prev| && n[k] == prev[k]
      invariant k <= |n| && k <= |prev|
      invariant CommonPrefix(n, prev) == k + CommonPrefix(n[k..], prev[k..])
    {
      assert n[k..][1..] == n[k + 1..] && prev[k..][1..] == prev[k + 1..];
      k := k + 1;
    }
    ghost var c := k;
    while k > 0 && !IsBreak(n[k - 1])
      invariant k <= |n| && BackToBreak(n, k) == BackToBreak(n, c)
    {
      k := k - 1;
    }
    LongestBreak(n, prev);
  }

  /** The longest common prefix moved back to a break is the longest that ends after one. */
  lemma LongestBreak(n: string, prev: string)
    ensures var k := BackToBreak(n, CommonPrefix(n, prev));
            && k <= |n| && k <= |prev| && n[..k] == prev[..k] && (k == 0 || IsBreak(n[k - 1]))
            && forall j :: k < j <= |n| && j <= |prev| && n[..j] == prev[..j] ==> !IsBreak(n[j - 1])
  {
    var c := CommonPrefix(n, prev);
    var k := BackToBreak(n, c);
    assert n[..c][..k] == n[..k] && prev[..c][..k] == prev[..k];
    hide CommonPrefix, BackToBreak;
    forall j | k < j <= |n| && j <= |prev| && n[..j] == prev[..j] ensures !IsBreak(n[j - 1]) {
      if c < |n| && c < |prev| {
        Differ(n, prev, c, j);
      }
    }
  }

  method WriteWord(code: Code, w: string) returns (bytes: Bytes)
    requires Plain(w)
    ensures bytes == WordBytes(code, w)
  {
    if w in code {
      bytes := code[w];
    } else {
      bytes := Literal(w);
    }
  }

  /** The words of an entry's rest, each as its code or as it is. */
  method WriteSuffix(code: Code, s: string) returns (bytes: Bytes)
    requires Plain(s)
    ensures (forall w :: w in WordsOf(s) ==> Plain(w)) && bytes == SuffixBytes(code, WordsOf(s))
  {
    hide WordBytes;
    WordsPlain(s);
    var ws := WordsOf(s);
    hide WordsOf;
    bytes := [];
    for i := 0 to |ws|
      invariant bytes + SuffixBytes(code, ws[i..]) == SuffixBytes(code, ws)
    {
      assert ws[i..][0] == ws[i] && ws[i..][1..] == ws[i + 1..];
      var word := WriteWord(code, ws[i]);
      assert bytes + (word + SuffixBytes(code, ws[i + 1..])) == bytes + word + SuffixBytes(code, ws[i + 1..]);
      bytes := bytes + word;
    }
  }

  /** Entry `i` (None: its prefix's length does not fit a byte). */
  method WriteEntry(code: Code, entries: seq<Entry>, i: nat, prev: string) returns (bytes: Option<Bytes>)
    requires i < |entries| && Plain(entries[i].name) && (i > 0 ==> prev == entries[i - 1].name)
    ensures bytes.None? <==> SharedAt(entries, i) >= 256
    ensures bytes.Some? ==> bytes.value == EntryBytes(code, entries, i)
  {
    hide SuffixBytes, WordsOf, BackToBreak, CommonPrefix;
    var n := entries[i].name;
    var k := 0;
    if i % BLOCK != 0 {
      k := SharePrefix(n, prev);
    }
    assert k == SharedAt(entries, i);
    if k >= 256 {
      return None;
    }
    var suffix := WriteSuffix(code, n[k..]);
    bytes := Some([k] + suffix + [0]);
  }

  lemma HoldsNone(words: seq<string>, code: Code, entries: seq<Entry>)
    requires IsCode(words, code)
    ensures Holds(Table(words, [], [], []), code, entries, 0, [0])
  {
  }

  /** What is added leaves an entry written before as it was. */
  lemma HoldsAtLater(t: Table, t': Table, code: Code, entries: seq<Entry>, m: nat, offs: seq<nat>, off: nat, i: nat)
    requires i < m < |entries| && Holds(t, code, entries, m, offs) && t.data <= t'.data && t.cps <= t'.cps
    ensures HoldsAt(t', code, entries, i, offs + [off])
  {
    assert HoldsAt(t, code, entries, i, offs);
    hide Holds, IsCode, EntryBytes, Plain, CpBytes;
    assert (offs + [off])[i] == offs[i] && (offs + [off])[i + 1] == offs[i + 1];
    assert t'.data[offs[i]..offs[i + 1]] == t.data[offs[i]..offs[i + 1]];
    assert t'.cps[3 * i..3 * i + 3] == t.cps[3 * i..3 * i + 3];
  }

  lemma HoldsMore(t: Table, t': Table, code: Code, entries: seq<Entry>, m: nat, offs: seq<nat>, bytes: Bytes)
    requires m < |entries| && Holds(t, code, entries, m, offs) && Plain(entries[m].name) && !Refused(entries, m)
    requires bytes == EntryBytes(code, entries, m)
    requires t' == Table(t.words, t.data + bytes, if m % BLOCK == 0 then t.blocks + [|t.data|] else t.blocks,
                         t.cps + CpBytes(entries[m].cp))
    ensures Holds(t', code, entries, m + 1, offs + [|t.data| + |bytes|])
  {
    hide EntryBytes, IsCode, Refused, Plain;
    var offs' := offs + [|t.data| + |bytes|];
    assert t'.data[|t.data|..|t.data| + |bytes|] == bytes;
    assert t'.cps[3 * m..3 * m + 3] == CpBytes(entries[m].cp);
    assert HoldsAt(t', code, entries, m, offs');
    hide HoldsAt;
    forall i | 0 <= i < m + 1 ensures HoldsAt(t', code, entries, i, offs') {
      if i < m {
        HoldsAtLater(t, t', code, entries, m, offs, |t.data| + |bytes|, i);
      }
    }
  }

  /** encode_names, with the dictionary's words in the order `ranked` (None: an assertion fails, or a code point does
      not fit its bytes). */
  method EncodeNames(entries: seq<Entry>, ranked: seq<string>)
    returns (table: Option<Table>, ghost code: Code, ghost offs: seq<nat>)
    requires forall e :: e in entries ==> Plain(e.name)
    ensures table.None? <==> exists i :: 0 <= i < |entries| && Refused(entries, i)
    ensures table.Some? ==> Holds(table.value, code, entries, |entries|, offs)
  {
    hide Holds, EntryBytes, SharedAt, IsCode, Plain;
    var words, codes := BuildCode(ranked);
    HoldsNone(words, codes, entries);
    code, offs := codes, [0];
    var data: Bytes, blocks: seq<nat>, cps: Bytes := [], [], [];
    var prev := "";
    for i := 0 to |entries|
      invariant Holds(Table(words, data, blocks, cps), code, entries, i, offs) && code == codes
      invariant forall j :: 0 <= j < i ==> !Refused(entries, j)
      invariant i > 0 ==> prev == entries[i - 1].name
    {
      ghost var before := Table(words, data, blocks, cps);
      if i % BLOCK == 0 {
        blocks := blocks + [|data|];
      }
      var bytes := WriteEntry(codes, entries, i, prev);
      if bytes.None? || entries[i].cp >= 0x1_000000 {
        assert Refused(entries, i);
        return None, code, offs;
      }
      data := data + bytes.value;
      cps := cps + CpBytes(entries[i].cp);
      HoldsMore(before, Table(words, data, blocks, cps), code, entries, i, offs, bytes.value);
      offs := offs + [|before.data| + |bytes.value|];
      prev := entries[i].name;
    }
    table := Some(Table(words, data, blocks, cps));
  }

  /** decode_entry, by index: a name and the offset after its entry (None: the data ends before, or the dictionary does). */
  method DecodeEntryAt(words: seq<string>, data: Bytes, at: nat, prev: string) returns (r: Option<(string, nat)>)
    requires at <= |data|
    ensures r.None? <==> DecodeEntry(words, data[at..], prev).None?
    ensures r.Some? ==> r.value.1 <= |data|
                        && DecodeEntry(words, data[at..], prev) == Some((r.value.0, data[r.value.1..]))
  {
    if at == |data| {
      return None;
    }
    var k := data[at];
    var out := if k < |prev| then prev[..k] else prev;
    var pos := at + 1;
    assert data[at..][1..] == data[pos..];
    while true
      invariant pos <= |data|
      invariant DecodeSuffix(words, data[pos..], out) == DecodeEntry(words, data[at..], prev)
      decreases |data| - pos
    {
      if pos == |data| {
        return None;
      }
      var b := data[pos];
      assert data[pos..][0] == b && data[pos..][1..] == data[pos + 1..];
      if b == 0 {
        return Some((out, pos + 1));
      }
      if b >= 0x80 {
        if b - 0x80 >= |words| {
          return None;
        }
        out := out + words[b - 0x80];
        pos := pos + 1;
      } else if b < 0x20 {
        if pos + 1 == |data| {
          return None;
        }
        assert data[pos..][1] == data[pos + 1] && data[pos..][2..] == data[pos + 2..];
        if TwoByteWord(b, data[pos + 1]) >= |words| {
          return None;
        }
        out := out + words[TwoByteWord(b, data[pos + 1])];
        pos := pos + 2;
      } else {
        out := out + [b as char];
        pos := pos + 1;
      }
    }
  }

  /** check_encoding: none of its assertions fails on a table encode_names made. */
  method CheckEncoding(entries: seq<Entry>, t: Table, ghost code: Code, ghost offs: seq<nat>) returns (ok: bool)
    requires Holds(t, code, entries, |entries|, offs)
    ensures ok
  {
    assert |offs| == |entries| + 1 && offs[0] == 0;
    hide *;
    var prev, at := "", 0;
    for i := 0 to |entries|
      invariant offs[i] == at <= |t.data| && (i > 0 ==> prev == entries[i - 1].name)
    {
      BlockStart(t, code, entries, offs, i);
      if i % BLOCK == 0 {
        if i / BLOCK >= |t.blocks| || at != t.blocks[i / BLOCK] {
          return false;
        }
        prev := "";
      }
      TableReadsBack(t, code, entries, offs, i, prev);
      var got := DecodeEntryAt(t.words, t.data, at, prev);
      SameRest(t.data, got.value.1, offs[i + 1]);
      if got.None? || got.value.0 != entries[i].name || CpAt(t.cps, i) != entries[i].cp {
        return false;
      }
      prev, at := got.value.0, got.value.1;
    }
    ok := true;
  }

  lemma SameRest(data: Bytes, a: nat, b: nat)
    requires a <= |data| && b <= |data| && data[a..] == data[b..]
    ensures a == b
  {
    assert |data[a..]| == |data[b..]|;
  }
}
