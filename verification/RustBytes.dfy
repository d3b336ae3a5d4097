/**
 scripts/make_pyparse_tables.py, rust_bytes: bytes as a Rust byte string literal over several lines. After a
 backslash at the end of a line Rust skips all blanks, so that a blank is never what a line begins with. The
 reader is Rust's (The Rust Reference, "Byte string literals" and "String continuation escapes").
 */
module RustBytes {
  import opened Common
  import opened Numerals

  const WIDTH: nat := 100

  predicate IsBlank(c: char) {
    c == ' ' || c == '\t' || c == '\n' || c == '\r'
  }

  /** A byte as itself, when it is printable and has no meaning in a literal, or escaped. */
  function Token(x: Byte): string {
    if 0x20 <= x < 0x7F && x != 0x22 && x != 0x5C then [x as char]
    else ['\\', 'x', DigitChar(x / 16), DigitChar(x % 16)]
  }

  /** The token of a byte at a line's start. */
  function FirstToken(x: Byte): string {
    if Token(x) == " " then "\\x20" else Token(x)
  }

  /** The end of a line of `width` characters, when it is full and there is a next one. */
  function LineEnd(width: nat, last: bool): string {
    if width >= WIDTH && !last then "\\\n" else ""
  }

  function NextWidth(width: nat): nat {
    if width >= WIDTH then 0 else width
  }

  /** What is written for `bs` from a line with `width` characters to the literal's end. */
  function Rest(bs: Bytes, width: nat): string {
    if bs == [] then "\""
    else
      var t := if width == 0 then FirstToken(bs[0]) else Token(bs[0]);
      t + (LineEnd(width + |t|, |bs| == 1) + Rest(bs[1..], NextWidth(width + |t|)))
  }

  // ---- Rust's reader -----------------------------------------------------------------------

  /** A hexadecimal digit, of either case. */
  function HexValue(c: char): Option<nat> {
    if 'A' <= c <= 'F' then Some((c - 'A') as nat + 10)
    else if IsDigit(c, 16) then DigitOf(c)
    else None
  }

  /** What a backslash and this character stand for. */
  function SimpleEscape(c: char): Option<Byte> {
    match c
    case 'n' => Some(10)
    case 'r' => Some(13)
    case 't' => Some(9)
    case '0' => Some(0)
    case '\\' => Some(0x5C)
    case '\'' => Some(0x27)
    case '"' => Some(0x22)
    case _ => None
  }

  function SkipBlanks(s: string): (r: string)
    ensures |r| <= |s|
  {
    if s != "" && IsBlank(s[0]) then SkipBlanks(s[1..]) else s
  }

  /** The bytes of a literal from just after its opening quote (None: it is not one). */
  function ReadBody(s: string): Option<Bytes>
    decreases |s|
  {
    if s == "" then None
    else if s[0] == '"' then if |s| == 1 then Some([]) else None
    else if s[0] == '\\' then
      if |s| >= 2 && s[1] == '\n' then ReadBody(SkipBlanks(s[2..]))
      else if |s| >= 4 && s[1] == 'x' && HexValue(s[2]).Some? && HexValue(s[3]).Some? then
        Prepend(HexValue(s[2]).value * 16 + HexValue(s[3]).value, ReadBody(s[4..]))
      else if |s| >= 2 && SimpleEscape(s[1]).Some? then Prepend(SimpleEscape(s[1]).value, ReadBody(s[2..]))
      else None
    else if s[0] as int < 0x80 && s[0] != '\r' then Prepend(s[0] as int, ReadBody(s[1..]))
    else None
  }

  function Prepend(b: Byte, more: Option<Bytes>): Option<Bytes> {
    match more
    case Some(bs) => Some([b] + bs)
    case None => None
  }

  function ReadLiteral(s: string): Option<Bytes> {
    if |s| >= 2 && s[0] == 'b' && s[1] == '"' then ReadBody(s[2..]) else None
  }

  // ---- What is written reads back --------------------------------------------------------------

  lemma ReadToken(x: Byte, s: string)
    ensures ReadBody(Token(x) + s) == Prepend(x, ReadBody(s))
    ensures ReadBody(FirstToken(x) + s) == Prepend(x, ReadBody(s))
    ensures !IsBlank(FirstToken(x)[0])
  {
    var t := Token(x);
    if |t| == 1 {
      assert (t + s)[1..] == s;
    } else {
      ReadEscape(x, s);
    }
    if t == " " {
      assert x == 0x20 && FirstToken(x) == ['\\', 'x', DigitChar(x / 16), DigitChar(x % 16)];
      ReadEscape(x, s);
    }
  }

  lemma ReadEscape(x: Byte, s: string)
    ensures ReadBody(['\\', 'x', DigitChar(x / 16), DigitChar(x % 16)] + s) == Prepend(x, ReadBody(s))
  {
    var high, low := x / 16, x % 16;
    var all := ['\\', 'x', DigitChar(high), DigitChar(low)] + s;
    assert HexValue(all[2]) == Some(high) && HexValue(all[3]) == Some(low);
    assert all[4..] == s;
  }

  lemma RestStart(bs: Bytes)
    ensures Rest(bs, 0) != "" && !IsBlank(Rest(bs, 0)[0])
  {
    if bs != [] {
      ReadToken(bs[0], "");
    }
  }

  lemma ReadLineEnd(width: nat, last: bool, s: string)
    requires width >= WIDTH && !last ==> s != "" && !IsBlank(s[0])
    ensures ReadBody(LineEnd(width, last) + s) == ReadBody(s)
  {
    if width >= WIDTH && !last {
      assert ("\\\n" + s)[2..] == s;
    } else {
      assert "" + s == s;
    }
  }

  lemma RestOfNone(width: nat)
    ensures Rest([], width) == "\"" && ReadBody("\"") == Some([])
  {
  }

  lemma RestParts(bs: Bytes, width: nat) returns (t: string, w: nat, more: string)
    requires bs != []
    ensures t == if width == 0 then FirstToken(bs[0]) else Token(bs[0])
    ensures w == width + |t| && more == Rest(bs[1..], NextWidth(w))
    ensures Rest(bs, width) == t + (LineEnd(w, |bs| == 1) + more)
  {
    hide Token, FirstToken, LineEnd, NextWidth;
    t := if width == 0 then FirstToken(bs[0]) else Token(bs[0]);
    w := width + |t|;
    more := Rest(bs[1..], NextWidth(w));
  }

  lemma {:induction false} RestReads(bs: Bytes, width: nat)
    ensures ReadBody(Rest(bs, width)) == Some(bs)
    decreases |bs|
  {
    hide Rest, ReadBody, Token, FirstToken, LineEnd, NextWidth;
    if bs == [] {
      RestOfNone(width);
    } else {
      var t, w, more := RestParts(bs, width);
      RestReads(bs[1..], NextWidth(w));
      if |bs| > 1 && w >= WIDTH {
        RestStart(bs[1..]);
        assert NextWidth(w) == 0 by { NextLine(w); }
      }
      ReadLineEnd(w, |bs| == 1, more);
      ReadToken(bs[0], LineEnd(w, |bs| == 1) + more);
      assert [bs[0]] + bs[1..] == bs;
    }
  }

  lemma NextLine(width: nat)
    ensures NextWidth(width) == if width >= WIDTH then 0 else width
  {
  }

  function Literal(bs: Bytes): string {
    "b\"\\\n" + Rest(bs, 0)
  }

  /** The literal of any bytes reads back as them. */
  lemma LiteralReadsBack(bs: Bytes)
    ensures ReadLiteral(Literal(bs)) == Some(bs)
  {
    var s := Literal(bs);
    assert s[2..] == "\\\n" + Rest(bs, 0);
    assert s[2..][2..] == Rest(bs, 0);
    RestStart(bs);
    RestReads(bs, 0);
  }

  // ---- The script's own code -------------------------------------------------------------------

  function JoinLines(lines: seq<string>): string {
    if lines == [] then ""
    else if |lines| == 1 then lines[0]
    else lines[0] + "\\\n" + JoinLines(lines[1..])
  }

  lemma {:induction false} JoinLinesPush(lines: seq<string>, line: string)
    ensures JoinLines(lines + [line]) == if lines == [] then line else JoinLines(lines) + "\\\n" + line
  {
    if |lines| > 0 {
      assert (lines + [line])[1..] == lines[1..] + [line];
      JoinLinesPush(lines[1..], line);
      if |lines| > 1 {
        assert lines[0] + "\\\n" + (JoinLines(lines[1..]) + "\\\n" + line)
            == lines[0] + "\\\n" + JoinLines(lines[1..]) + "\\\n" + line;
      }
    }
  }

  /** What is written of the lines made and the one begun, with bytes still to come or none. */
  function Begun(lines: seq<string>, line: string, more: bool): string {
    if lines == [] then line
    else if line == "" && !more then JoinLines(lines)
    else JoinLines(lines) + "\\\n" + line
  }

  method RustLiteral(bs: Bytes) returns (s: string)
    ensures s == Literal(bs) && ReadLiteral(s) == Some(bs)
  {
    hide Rest, JoinLines, Token;
    var lines: seq<string>, line := [], "";
    for i := 0 to |bs|
      invariant |line| < WIDTH
      invariant Begun(lines, line, i < |bs|) + Rest(bs[i..], |line|) == Rest(bs, 0)
    {
      var t := Token(bs[i]);
      if line == "" && t == " " {
        t := "\\x20";
      }
      TokenSome(bs[i]);
      NextToken(bs, i, lines, line, t);
      line := line + t;
      if |line| >= WIDTH {
        JoinLinesPush(lines, line);
        lines := lines + [line];
        line := "";
      }
    }
    if line != "" {
      JoinLinesPush(lines, line);
      lines := lines + [line];
    }
    NoMore(bs, |line|);
    NoLines(lines, line);
    s := "b\"\\\n" + JoinLines(lines) + "\"";
    LiteralReadsBack(bs);
    assert s == "b\"\\\n" + (JoinLines(lines) + "\"");
  }

  lemma TokenSome(x: Byte)
    ensures Token(x) != ""
  {
  }

  lemma NoMore(bs: Bytes, width: nat)
    ensures Rest(bs[|bs|..], width) == "\""
  {
  }

  lemma NoLines(lines: seq<string>, line: string)
    ensures lines == [] ==> JoinLines(lines) == ""
  {
  }

  lemma BegunOn(lines: seq<string>, line: string, t: string, more: bool)
    requires line + t != ""
    ensures Begun(lines, line + t, more) == Begun(lines, line, true) + t
    ensures Begun(lines + [line + t], "", more) == Begun(lines, line, true) + t + if more then "\\\n" else ""
  {
    JoinLinesPush(lines, line + t);
    hide JoinLines;
    if lines != [] {
      assert JoinLines(lines) + "\\\n" + (line + t) == JoinLines(lines) + "\\\n" + line + t;
    }
  }

  /** A token on: on the same line, or with the line's end after it. */
  lemma NextToken(bs: Bytes, i: nat, lines: seq<string>, line: string, t: string)
    requires i < |bs| && |line| < WIDTH && t != ""
    requires t == if line == "" then FirstToken(bs[i]) else Token(bs[i])
    requires Begun(lines, line, true) + Rest(bs[i..], |line|) == Rest(bs, 0)
    ensures |line + t| < WIDTH ==> Begun(lines, line + t, i + 1 < |bs|) + Rest(bs[i + 1..], |line + t|) == Rest(bs, 0)
    ensures |line + t| >= WIDTH ==>
              Begun(lines + [line + t], "", i + 1 < |bs|) + Rest(bs[i + 1..], 0) == Rest(bs, 0)
  {
    hide Rest, Token, FirstToken, Begun;
    Drop(bs, i);
    var t', w, rest := RestParts(bs[i..], |line|);
    BegunOn(lines, line, t, i + 1 < |bs|);
    Regroup(Begun(lines, line, true), t, LineEnd(w, |bs[i..]| == 1), rest);
  }

  lemma Drop(bs: Bytes, i: nat)
    requires i < |bs|
    ensures bs[i..][0] == bs[i] && bs[i..][1..] == bs[i + 1..] && |bs[i..]| == |bs| - i
  {
  }

  lemma Regroup(a: string, b: string, c: string, d: string)
    ensures a + (b + (c + d)) == a + b + c + d
    ensures c == "" ==> a + b + c == a + b
  {
  }
}
