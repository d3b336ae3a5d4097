/**
 scripts/make_codec_tables.py, _rs: a text as a Rust string literal, and texts cut into lines as such literals (`_chunks`).
 The reader is Rust's (The Rust Reference, "String literals").
 */
module RustStrings {
  import opened Common
  import opened Numerals
  import CodecText

  function Escape(c: char): string {
    if c == '"' || c == '\\' then ['\\', c]
    else if ' ' <= c < '\U{7F}' then [c]
    else "\\u{" + Show(c as nat, 16) + "}"
  }

  function EscapeAll(s: string): string {
    if s == "" then "" else Escape(s[0]) + EscapeAll(s[1..])
  }

  function RustString(s: string): string {
    "\"" + EscapeAll(s) + "\""
  }

  /** How many characters come before the first `}`. */
  function UpToBrace(s: string): (k: nat)
    ensures k <= |s|
  {
    if s == "" || s[0] == '}' then 0 else 1 + UpToBrace(s[1..])
  }

  /** The text of a literal from just after its opening quote (None: it is not one). */
  function ReadRest(s: string): Option<string>
    decreases |s|
  {
    if s == "" then None
    else if s[0] == '"' then if |s| == 1 then Some("") else None
    else if s[0] == '\\' then
      if |s| >= 2 && (s[1] == '"' || s[1] == '\\') then Prepend(s[1], ReadRest(s[2..]))
      else if |s| >= 3 && s[1] == 'u' && s[2] == '{' then
        var k := UpToBrace(s[3..]);
        match ReadNumber(s[3..3 + k], 16)
        case Some(n) =>
          if 3 + k < |s| && IsScalar(n) then Prepend(n as char, ReadRest(s[4 + k..])) else None
        case None => None
      else None
    else Prepend(s[0], ReadRest(s[1..]))
  }

  predicate IsScalar(n: nat) {
    n < 0xD800 || 0xE000 <= n < 0x11_0000
  }

  function Prepend(c: char, more: Option<string>): Option<string> {
    match more case Some(s) => Some([c] + s) case None => None
  }

  function ReadString(s: string): Option<string> {
    if s != "" && s[0] == '"' then ReadRest(s[1..]) else None
  }

  lemma {:induction false} BraceAfter(digits: string, rest: string)
    requires '}' !in digits
    ensures UpToBrace(digits + "}" + rest) == |digits|
  {
    if digits != "" {
      assert digits[0] in digits;
      assert (digits + "}" + rest)[1..] == digits[1..] + "}" + rest;
      BraceAfter(digits[1..], rest);
    }
  }

  lemma EscapeReads(c: char, rest: string)
    ensures ReadRest(Escape(c) + rest) == Prepend(c, ReadRest(rest))
  {
    var s := Escape(c) + rest;
    if c == '"' || c == '\\' {
      assert s[2..] == rest;
    } else if ' ' <= c < '\U{7F}' {
      assert s[1..] == rest;
    } else {
      CodeReads(c, rest);
    }
  }

  lemma CodeReads(c: char, rest: string)
    ensures ReadRest("\\u{" + Show(c as nat, 16) + "}" + rest) == Prepend(c, ReadRest(rest))
  {
    var digits := Show(c as nat, 16);
    var s := "\\u{" + digits + "}" + rest;
    ShowDigits(c as nat, 16);
    assert '}' !in digits;
    ReadShow(c as nat, 16);
    hide Show, ReadNumber, Prepend;
    assert s[3..] == digits + "}" + rest;
    BraceAfter(digits, rest);
    hide UpToBrace;
    assert s[3..3 + |digits|] == digits && s[4 + |digits|..] == rest;
  }

  lemma {:induction false} AllReads(s: string)
    ensures ReadRest(EscapeAll(s) + "\"") == Some(s)
  {
    if s == "" {
      assert EscapeAll(s) + "\"" == "\"";
    } else {
      AllReads(s[1..]);
      assert EscapeAll(s) + "\"" == Escape(s[0]) + (EscapeAll(s[1..]) + "\"");
      hide Escape, ReadRest;
      EscapeReads(s[0], EscapeAll(s[1..]) + "\"");
      assert [s[0]] + s[1..] == s;
    }
  }

  /** The literal of any text reads back as it. */
  lemma StringReadsBack(s: string)
    ensures ReadString(RustString(s)) == Some(s)
  {
    AllReads(s);
    hide ReadRest;
    assert RustString(s)[1..] == EscapeAll(s) + "\"";
  }

  /** The values of literals put together by concat!. */
  function Concat(literals: seq<string>): Option<string> {
    if literals == [] then Some("")
    else match (ReadString(literals[0]), Concat(literals[1..]))
      case (Some(a), Some(b)) => Some(a + b)
      case _ => None
  }

  function Literals(parts: seq<string>): seq<string> {
    seq(|parts|, i requires 0 <= i < |parts| => RustString(parts[i]))
  }

  lemma {:induction false} LiteralsJoin(parts: seq<string>)
    ensures Concat(Literals(parts)) == Some(Flatten(parts))
  {
    hide RustString, ReadString;
    if parts != [] {
      StringReadsBack(parts[0]);
      LiteralsJoin(parts[1..]);
      assert Literals(parts)[1..] == Literals(parts[1..]);
    }
  }

  /** _chunks: a text written as lines of literals is what concat! makes of them. */
  lemma ChunksReadBack(text: string, width: nat)
    requires width > 0
    ensures Concat(Literals(CodecText.Chunks(text, width))) == Some(text)
  {
    LiteralsJoin(CodecText.Chunks(text, width));
    CodecText.ChunksJoin(text, width);
  }
}
