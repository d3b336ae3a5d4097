/**
 scripts/make_codec_tables.py, cjk_tables: what Python's CJK decoders answer byte by byte, turned into rows of one
 flat list, each row cut short where it can be and written once. What reads the list (decode/cjk.rs, not part of this
 model) follows here the format of the list; walking it gives what the decoder gives.
 */
module CodecTables {
  import opened Common

  type CodePoint = c: nat | c <= CHAR_MAX

  const CHAR_MAX: nat := 0x10FFFF
  const MULTI: nat := 0x110000
  const ERR: nat := 0x200000
  const ROW: nat := 0x400000
  const GB4: nat := 0x800000
  const MAKEUP: nat := 0x810000

  type Text = seq<CodePoint>

  /** How a decoder takes some bytes at which a character begins: as that character, all of them; as an error, of their
      first `n`; or it waits for the next. */
  datatype Seen = Chars(text: Text) | Bad(n: nat) | More

  /** A codec: Python's decoder, and the sequences not read from it. */
  datatype Codec = Codec(outcome: Bytes -> Seen, gb18030: bool, eucKr: bool)

  /** A table as it is built: an entry, or the row of the entries of the next byte. */
  datatype Node = Char(text: Text) | Err(n: nat) | Gb4 | Makeup | Row(entries: seq<Node>)

  /** What reading a character comes to. */
  datatype Read = Reads(text: Text) | Fails(n: nat) | NeedsMore | FourBytes | MakesUp | Broken

  // ---- The decoder, directly ---------------------------------------------------------

  function Lookup(c: Codec, bytes: Bytes): Read {
    if |bytes| == 2 && c.gb18030 && 0x30 <= bytes[1] <= 0x39 then FourBytes
    else if |bytes| == 2 && c.eucKr && bytes == [0xA4, 0xD4] then MakesUp
    else match c.outcome(bytes)
      case Chars(text) => Reads(text)
      case Bad(n) => Fails(n)
      case More => NeedsMore
  }

  /** The first character of `bytes`: the decoder is given one byte more, from the first `n`, until it has enough. */
  function FirstCharacter(c: Codec, bytes: Bytes, n: nat): Read
    decreases |bytes| - n
  {
    if n > |bytes| then NeedsMore
    else
      var read := Lookup(c, bytes[..n]);
      if read == NeedsMore then FirstCharacter(c, bytes, n + 1) else read
  }

  /** A decoder of characters of three bytes at most (the script refuses any other), whose errors are of bytes it was
      given. */
  ghost predicate Proper(c: Codec) {
    forall bytes: Bytes {:trigger c.outcome(bytes)} :: c.outcome(bytes).Bad? ==> c.outcome(bytes).n <= |bytes|
  }

  /** What reading `bytes` comes to, by the decoder's answers to the first one, two, ... of them: the first answer that is
      not to wait; but for the two exceptions of second bytes. */
  ghost predicate IsRead(c: Codec, bytes: Bytes, read: Read) {
    var two := |bytes| >= 2 && c.outcome(bytes[..1]).More?;
    var gb4 := two && c.gb18030 && 0x30 <= bytes[1] <= 0x39;
    var jamo := two && c.eucKr && bytes[0] == 0xA4 && bytes[1] == 0xD4;
    match read
    case FourBytes => gb4
    case MakesUp => jamo
    case Reads(text) =>
      exists n: nat :: Settled(c, bytes, n) && c.outcome(bytes[..n]) == Chars(text) && (n > 1 ==> !gb4 && !jamo)
    case Fails(m) =>
      exists n: nat :: Settled(c, bytes, n) && c.outcome(bytes[..n]) == Bad(m) && (n > 1 ==> !gb4 && !jamo)
    case NeedsMore => !gb4 && !jamo && forall n :: 1 <= n <= |bytes| ==> c.outcome(bytes[..n]).More?
    case Broken => false
  }

  /** `n` bytes are the first it does not wait after. */
  ghost predicate Settled(c: Codec, bytes: Bytes, n: nat) {
    && 1 <= n <= |bytes| && !c.outcome(bytes[..n]).More?
    && forall m :: 1 <= m < n ==> c.outcome(bytes[..m]).More?
  }

  /** There is one such reading. */
  lemma OneRead(c: Codec, bytes: Bytes, a: Read, b: Read)
    requires IsRead(c, bytes, a) && IsRead(c, bytes, b)
    ensures a == b
  {
    assert forall n: nat, m: nat :: Settled(c, bytes, n) && Settled(c, bytes, m) ==> n == m;
    if a == FourBytes || a == MakesUp || b == FourBytes || b == MakesUp {
      assert forall n: nat :: Settled(c, bytes, n) ==> n > 1;
    }
  }

  lemma {:induction false} FirstIsRead(c: Codec, bytes: Bytes, n: nat)
    requires 1 <= n <= |bytes| + 1
    requires forall m :: 1 <= m < n ==> Lookup(c, bytes[..m]) == NeedsMore
    ensures IsRead(c, bytes, FirstCharacter(c, bytes, n))
    decreases |bytes| + 1 - n
  {
    assert forall m :: 1 <= m <= |bytes| && m != 2 ==> (Lookup(c, bytes[..m]) == NeedsMore <==> c.outcome(bytes[..m]).More?);
    assert |bytes| >= 2 ==> bytes[..2] == [bytes[0], bytes[1]];
    if n <= |bytes| {
      assert |bytes[..n]| == n;
      if Lookup(c, bytes[..n]) == NeedsMore {
        FirstIsRead(c, bytes, n + 1);
      } else if !c.outcome(bytes[..n]).More? {
        assert Settled(c, bytes, n);
      }
    }
  }

  /** Reading by the lengths one after the other is reading by the decoder's answers. */
  lemma FirstIs(c: Codec, bytes: Bytes, read: Read)
    ensures FirstCharacter(c, bytes, 1) == read <==> IsRead(c, bytes, read)
  {
    FirstIsRead(c, bytes, 1);
    if IsRead(c, bytes, read) {
      OneRead(c, bytes, read, FirstCharacter(c, bytes, 1));
    }
  }

  // ---- The tree ----------------------------------------------------------------------

  /** The node of a read that needs no more bytes. */
  function Leaf(read: Read): Node {
    match read
    case Reads(text) => Char(text)
    case Fails(n) => Err(n)
    case FourBytes => Gb4
    case _ => Makeup
  }

  function Third(c: Codec, b1: Byte, b2: Byte): seq<Node> {
    seq(256, b3 requires 0 <= b3 < 256 => Leaf(Lookup(c, [b1, b2, b3])))
  }

  function AfterTwo(c: Codec, b1: Byte, b2: Byte): Node {
    var read := Lookup(c, [b1, b2]);
    if read == NeedsMore then Row(Third(c, b1, b2)) else Leaf(read)
  }

  function AfterOne(c: Codec, b1: Byte): Node {
    var read := Lookup(c, [b1]);
    if read == NeedsMore then Row(seq(256, b2 requires 0 <= b2 < 256 => AfterTwo(c, b1, b2))) else Leaf(read)
  }

  /** Three bytes from `b1` on are not enough for some character: the script gives up. */
  predicate TooLong(c: Codec, b1: Byte) {
    && Lookup(c, [b1]) == NeedsMore
    && exists b2: Byte, b3: Byte {:trigger [b1, b2, b3]} ::
         Lookup(c, [b1, b2]) == NeedsMore && Lookup(c, [b1, b2, b3]) == NeedsMore
  }

  /** A node's answer to the bytes after it. */
  function Decode(node: Node, rest: Bytes): Read
    decreases node
  {
    match node
    case Char(text) => Reads(text)
    case Err(n) => Fails(n)
    case Gb4 => FourBytes
    case Makeup => MakesUp
    case Row(entries) =>
      if rest == [] then NeedsMore
      else if rest[0] < |entries| then Decode(entries[rest[0]], rest[1..])
      else Broken
  }

  /** The tree of a byte answers as the decoder does. */
  lemma TreeIsDecoder(c: Codec, bytes: Bytes)
    requires bytes != [] && !TooLong(c, bytes[0])
    ensures Decode(AfterOne(c, bytes[0]), bytes[1..]) == FirstCharacter(c, bytes, 1)
  {
    var b1 := bytes[0];
    assert bytes[..1] == [b1];
    if Lookup(c, [b1]) == NeedsMore {
      if |bytes| == 1 {
        assert FirstCharacter(c, bytes, 2) == NeedsMore;
      } else {
        var b2 := bytes[1];
        assert bytes[..2] == [b1, b2];
        assert bytes[1..][1..] == bytes[2..];
        assert FirstCharacter(c, bytes, 1) == FirstCharacter(c, bytes, 2);
        if Lookup(c, [b1, b2]) == NeedsMore {
          TreeOfThree(c, b1, b2, bytes);
        }
      }
    }
  }

  lemma TreeOfThree(c: Codec, b1: Byte, b2: Byte, bytes: Bytes)
    requires [b1, b2] <= bytes && !TooLong(c, b1)
    requires Lookup(c, [b1]) == NeedsMore && Lookup(c, [b1, b2]) == NeedsMore
    ensures Decode(AfterTwo(c, b1, b2), bytes[2..]) == FirstCharacter(c, bytes, 2)
  {
    assert bytes[..2] == [b1, b2];
    assert FirstCharacter(c, bytes, 2) == FirstCharacter(c, bytes, 3);
    if |bytes| > 2 {
      assert bytes[..3] == [b1, b2, bytes[2]];
    }
  }

  // ---- The flat list -------------------------------------------------------------------

  /** Reading the entry `e` with the bytes `rest` after it, as the format says. */
  function Interpret(flat: seq<nat>, multi: seq<Text>, e: nat, rest: Bytes): Read
    decreases |rest|
  {
    if e <= CHAR_MAX then Reads([e])
    else if e < ERR then if e - MULTI < |multi| then Reads(multi[e - MULTI]) else Broken
    else if e < ROW then Fails(e - ERR)
    else if e < GB4 then
      if rest == [] then NeedsMore
      else ReadRow(flat, multi, e - ROW, rest)
    else if e == GB4 then FourBytes
    else if e == MAKEUP then MakesUp
    else Broken
  }

  /** The row at `at`: the first and the last byte it has entries for, and those entries. */
  function ReadRow(flat: seq<nat>, multi: seq<Text>, at: nat, rest: Bytes): Read
    requires rest != []
    decreases |rest|, 0
  {
    var b := rest[0];
    if at + 1 >= |flat| then Broken
    else if !(flat[at] <= b <= flat[at + 1]) then Fails(1)
    else if at + 2 + b - flat[at] >= |flat| then Broken
    else Interpret(flat, multi, flat[at + 2 + b - flat[at]], rest[1..])
  }

  function Walk(flat: seq<nat>, multi: seq<Text>, first: nat, bytes: Bytes): Read {
    if bytes == [] then NeedsMore
    else if first + bytes[0] >= |flat| then Broken
    else Interpret(flat, multi, flat[first + bytes[0]], bytes[1..])
  }

  /** The texts of several characters fit their tag's gap. */
  predicate MultiFits(multi: seq<Text>) {
    |multi| <= ERR - MULTI
  }

  /** An error's size fits its gap, and a row is of 256 entries. */
  predicate Encodable(node: Node)
    decreases node
  {
    match node
    case Err(n) => n < ROW - ERR
    case Row(entries) => |entries| == 256 && forall k :: 0 <= k < |entries| ==> Encodable(entries[k])
    case _ => true
  }

  /** `e` is an entry for `node`. */
  predicate Codes(flat: seq<nat>, multi: seq<Text>, e: nat, node: Node)
    decreases node
  {
    match node
    case Char(text) =>
      if |text| == 1 then e == text[0] else MULTI <= e < MULTI + |multi| && multi[e - MULTI] == text
    case Err(n) => e == ERR + n
    case Gb4 => e == GB4
    case Makeup => e == MAKEUP
    case Row(entries) =>
      && ROW <= e && e - ROW + 1 < |flat|
      && e - ROW + 2 + flat[e - ROW + 1] < |flat| + flat[e - ROW]
      && (flat[e - ROW] <= flat[e - ROW + 1] ==> flat[e - ROW + 1] < |entries|)
      && forall k :: 0 <= k < |entries| ==>
           if flat[e - ROW] <= k <= flat[e - ROW + 1]
           then Codes(flat, multi, flat[e - ROW + 2 + k - flat[e - ROW]], entries[k])
           else entries[k] == Err(1)
  }

  /** What is added later leaves an entry's meaning as it was. */
  lemma {:induction false} CodesLater(flat: seq<nat>, multi: seq<Text>, flat': seq<nat>, multi': seq<Text>,
                                      e: nat, node: Node)
    requires Codes(flat, multi, e, node) && flat <= flat' && multi <= multi'
    ensures Codes(flat', multi', e, node)
    decreases node
  {
    if node.Row? {
      var at := e - ROW;
      forall k | 0 <= k < |node.entries| && flat[at] <= k <= flat[at + 1]
        ensures Codes(flat', multi', flat'[at + 2 + k - flat'[at]], node.entries[k])
      {
        CodesLater(flat, multi, flat', multi', flat[at + 2 + k - flat[at]], node.entries[k]);
      }
    }
  }

  /** The rows that reading the entry `e` of `node` can come to begin below the end of their tag's gap. */
  predicate RowsFit(flat: seq<nat>, e: nat, node: Node)
    decreases node
  {
    match node
    case Row(entries) =>
      && ROW <= e < GB4 && e - ROW + 1 < |flat|
      && var at := e - ROW;
      forall k :: 0 <= k < |entries| && flat[at] <= k <= flat[at + 1] && at + 2 + k - flat[at] < |flat| ==>
        RowsFit(flat, flat[at + 2 + k - flat[at]], entries[k])
    case _ => true
  }

  /** An entry for a node answers any bytes as the node does, if the rows it comes to fit. */
  lemma {:induction false} CodesMeans(flat: seq<nat>, multi: seq<Text>, e: nat, node: Node, rest: Bytes)
    requires Codes(flat, multi, e, node) && Encodable(node) && MultiFits(multi) && RowsFit(flat, e, node)
    ensures Interpret(flat, multi, e, rest) == Decode(node, rest)
    decreases node
  {
    match node
    case Row(entries) =>
      if rest != [] {
        var at, b := e - ROW, rest[0];
        if flat[at] <= b <= flat[at + 1] {
          CodesMeans(flat, multi, flat[at + 2 + b - flat[at]], entries[b], rest[1..]);
        } else {
          assert entries[b] == Err(1);
        }
      }
    case Char(text) =>
      if |text| == 1 {
        assert text == [text[0]];
      }
    case _ =>
  }

  /** If one does not, some bytes are answered otherwise: those that lead to it are not asked for more. */
  lemma {:induction false} RowMissed(flat: seq<nat>, multi: seq<Text>, e: nat, node: Node) returns (rest: Bytes)
    requires Codes(flat, multi, e, node) && Encodable(node) && !RowsFit(flat, e, node)
    ensures Interpret(flat, multi, e, rest) != Decode(node, rest)
    decreases node
  {
    rest := [];
    if e < GB4 {
      var at := e - ROW;
      var k: nat :| k < |node.entries| && flat[at] <= k <= flat[at + 1] && at + 2 + k - flat[at] < |flat|
                    && !RowsFit(flat, flat[at + 2 + k - flat[at]], node.entries[k]);
      var more := RowMissed(flat, multi, flat[at + 2 + k - flat[at]], node.entries[k]);
      rest := [k] + more;
      assert rest[1..] == more;
    }
  }

  /** An entry for a node means it, for any bytes, if and only if every row it comes to fits its tag's gap. */
  lemma MeansIfRowsFit(flat: seq<nat>, multi: seq<Text>, e: nat, node: Node)
    requires Codes(flat, multi, e, node) && Encodable(node) && MultiFits(multi)
    ensures RowsFit(flat, e, node) <==>
            forall rest: Bytes :: Interpret(flat, multi, e, rest) == Decode(node, rest)
  {
    if RowsFit(flat, e, node) {
      forall rest: Bytes ensures Interpret(flat, multi, e, rest) == Decode(node, rest) {
        CodesMeans(flat, multi, e, node, rest);
      }
    } else {
      var rest := RowMissed(flat, multi, e, node);
    }
  }

  /** In a list no longer than the gap every row fits. */
  lemma {:induction false} ShortListFits(flat: seq<nat>, multi: seq<Text>, e: nat, node: Node)
    requires Codes(flat, multi, e, node) && |flat| <= GB4 - ROW
    ensures RowsFit(flat, e, node)
    decreases node
  {
    if node.Row? {
      var at := e - ROW;
      forall k | 0 <= k < |node.entries| && flat[at] <= k <= flat[at + 1] && at + 2 + k - flat[at] < |flat|
        ensures RowsFit(flat, flat[at + 2 + k - flat[at]], node.entries[k])
      {
        ShortListFits(flat, multi, flat[at + 2 + k - flat[at]], node.entries[k]);
      }
    }
  }

  /** So it is with a text of several characters: its entry means it if and only if it is below the errors' tag. */
  lemma TextFits(flat: seq<nat>, multi: seq<Text>, e: nat, text: Text)
    requires Codes(flat, multi, e, Char(text)) && |text| != 1
    ensures e < ERR <==> forall rest: Bytes :: Interpret(flat, multi, e, rest) == Reads(text)
  {
    forall rest: Bytes ensures e < ERR ==> Interpret(flat, multi, e, rest) == Reads(text) {
    }
    if e >= ERR {
      var none: Bytes := [];
      assert Interpret(flat, multi, e, none) != Reads(text);
    }
  }

  // ---- Building it -----------------------------------------------------------------------

  /** `body` is in `flat` at `at`. */
  predicate At(flat: seq<nat>, at: nat, body: seq<nat>) {
    at + |body| <= |flat| && flat[at..at + |body|] == body
  }

  /** `es` are the entries of `nodes`. */
  predicate AllCode(flat: seq<nat>, multi: seq<Text>, es: seq<nat>, nodes: seq<Node>) {
    |es| == |nodes| && forall k :: 0 <= k < |es| ==> Codes(flat, multi, es[k], nodes[k])
  }

  lemma AllCodeLater(flat: seq<nat>, multi: seq<Text>, flat': seq<nat>, multi': seq<Text>, es: seq<nat>, nodes: seq<Node>)
    requires AllCode(flat, multi, es, nodes) && flat <= flat' && multi <= multi'
    ensures AllCode(flat', multi', es, nodes)
  {
    forall k | 0 <= k < |es| ensures Codes(flat', multi', es[k], nodes[k]) {
      CodesLater(flat, multi, flat', multi', es[k], nodes[k]);
    }
  }

  lemma AtLater(flat: seq<nat>, flat': seq<nat>, at: nat, body: seq<nat>)
    requires At(flat, at, body) && flat <= flat'
    ensures At(flat', at, body)
  {
    assert flat == flat'[..|flat|];
    assert flat'[at..at + |body|] == flat[at..at + |body|];
  }

  /** Only an error of length one has the entry of such an error. */
  lemma OnlyError(flat: seq<nat>, multi: seq<Text>, e: nat, node: Node)
    requires Codes(flat, multi, e, node) && MultiFits(multi) && e == ERR + 1
    ensures node == Err(1)
  {
  }

  /** A row's body: two bounds, and the entries from one to the other; only errors of length one are outside. */
  ghost predicate IsBody(es: seq<nat>, body: seq<nat>) {
    && |body| >= 2
    && (body[0] <= body[1] ==> body[1] < |es|)
    && |body| + body[0] == 3 + body[1]
    && (if body[0] <= body[1] then es[body[0]] != ERR + 1 && es[body[1]] != ERR + 1 else body == [1, 0])
    && forall k :: 0 <= k < |es| ==>
         if body[0] <= k <= body[1] then body[2 + k - body[0]] == es[k] else es[k] == ERR + 1
  }

  /** A row whose body is in the list codes its entries' nodes. */
  lemma RowCodes(flat: seq<nat>, multi: seq<Text>, at: nat, body: seq<nat>, es: seq<nat>, entries: seq<Node>)
    requires IsBody(es, body) && At(flat, at, body)
    requires AllCode(flat, multi, es, entries) && MultiFits(multi)
    ensures Codes(flat, multi, ROW + at, Row(entries))
  {
    assert forall j {:trigger body[j]} :: 0 <= j < |body| ==> flat[at + j] == flat[at..at + |body|][j] == body[j];
    assert flat[at] == body[0] && flat[at + 1] == body[1];
    forall k | 0 <= k < |entries|
      ensures if flat[at] <= k <= flat[at + 1]
              then Codes(flat, multi, flat[at + 2 + k - flat[at]], entries[k])
              else entries[k] == Err(1)
    {
      if flat[at] <= k <= flat[at + 1] {
        assert flat[at + (2 + k - flat[at])] == body[2 + k - flat[at]] == es[k];
      } else {
        OnlyError(flat, multi, es[k], entries[k]);
      }
    }
  }

  /** `t` is one of the texts a node can give, and not of one character. */
  predicate HasText(node: Node, t: Text)
    decreases node
  {
    match node
    case Char(text) => text == t && |t| != 1
    case Row(entries) => exists k :: 0 <= k < |entries| && HasText(entries[k], t)
    case _ => false
  }

  predicate AnyHasText(nodes: seq<Node>, t: Text) {
    exists k :: 0 <= k < |nodes| && HasText(nodes[k], t)
  }

  /** The texts of `nodes` are added, and no others. */
  ghost predicate AddsTexts(multi: seq<Text>, multi': seq<Text>, nodes: seq<Node>) {
    forall t :: t in multi' <==> t in multi || AnyHasText(nodes, t)
  }

  lemma AnyOfPush(nodes: seq<Node>, node: Node, t: Text)
    ensures AnyHasText(nodes + [node], t) <==> AnyHasText(nodes, t) || HasText(node, t)
  {
    var more := nodes + [node];
    assert more[|nodes|] == node && more[..|nodes|] == nodes;
    if AnyHasText(nodes, t) {
      var k :| 0 <= k < |nodes| && HasText(nodes[k], t);
      assert HasText(more[k], t);
    }
  }

  lemma AddsNone(multi: seq<Text>)
    ensures AddsTexts(multi, multi, [])
  {
  }

  lemma AddsOne(multi: seq<Text>, multi': seq<Text>, node: Node)
    ensures AddsTexts(multi, multi', [node]) <==> forall t :: t in multi' <==> t in multi || HasText(node, t)
  {
    forall t ensures AnyHasText([node], t) <==> HasText(node, t) {
      assert [] + [node] == [node];
      AnyOfPush([], node, t);
    }
  }

  lemma AddsRow(multi: seq<Text>, multi': seq<Text>, entries: seq<Node>)
    requires AddsTexts(multi, multi', entries)
    ensures AddsTexts(multi, multi', [Row(entries)])
  {
    AddsOne(multi, multi', Row(entries));
  }

  lemma AddsNext(multi: seq<Text>, multi': seq<Text>, multi'': seq<Text>, nodes: seq<Node>, node: Node)
    requires AddsTexts(multi, multi', nodes) && AddsTexts(multi', multi'', [node])
    ensures AddsTexts(multi, multi'', nodes + [node])
  {
    AddsOne(multi', multi'', node);
    hide HasText, AnyHasText;
    forall t ensures AnyHasText(nodes + [node], t) <==> AnyHasText(nodes, t) || HasText(node, t) {
      AnyOfPush(nodes, node, t);
    }
  }

  /** The trees of the first `n` bytes. */
  function TreesOf(c: Codec, n: nat): seq<Node>
    requires n <= 256
  {
    seq(n, b1 requires 0 <= b1 < n => AfterOne(c, b1))
  }

  /** The tables being built. */
  class Tables {
    var flat: seq<nat>
    var multi: seq<Text>
    var rowsAt: map<seq<nat>, nat>       // each row written, and where

    ghost predicate Valid()
      reads this
    {
      NoRepeats(multi) && forall body :: body in rowsAt ==> At(flat, rowsAt[body], body)
    }

    constructor ()
      ensures flat == [] && multi == [] && Valid()
    {
      flat, multi, rowsAt := [], [], map[];
    }

    /** The index of `text` in `multi`, added when it is not there. */
    method MultiIndex(text: Text) returns (k: nat)
      requires NoRepeats(multi)
      modifies this`multi
      ensures old(multi) <= multi && k < |multi| && multi[k] == text && NoRepeats(multi)
      ensures forall t :: t in multi <==> t in old(multi) || t == text
    {
      k := 0;
      while k < |multi|
        invariant k <= |multi| && text !in multi[..k]
      {
        if multi[k] == text {
          return;
        }
        k := k + 1;
      }
      multi := multi + [text];
    }

    /** `node`'s entry. */
    method Entry(node: Node) returns (e: nat)
      requires Valid() && Encodable(node)
      modifies this
      ensures Valid() && old(flat) <= flat && old(multi) <= multi
      ensures MultiFits(multi) ==> Codes(flat, multi, e, node)
      ensures AddsTexts(old(multi), multi, [node])
      decreases node
    {
      hide AddsTexts;
      ghost var multi0 := multi;
      AddsOne(multi, multi, node);
      match node
      case Char(text) =>
        if |text| == 1 {
          return text[0];
        }
        var k := MultiIndex(text);
        AddsOne(multi0, multi, node);
        e := MULTI + k;
      case Err(n) => e := ERR + n;
      case Gb4 => e := GB4;
      case Makeup => e := MAKEUP;
      case Row(entries) =>
        var at := WriteRow(entries);
        AddsRow(multi0, multi, entries);
        e := ROW + at;
    }

    /** The entries of `nodes`, one after the other. */
    method Entries(nodes: seq<Node>) returns (es: seq<nat>)
      requires Valid() && forall k :: 0 <= k < |nodes| ==> Encodable(nodes[k])
      modifies this
      ensures Valid() && old(flat) <= flat && old(multi) <= multi && |es| == |nodes|
      ensures MultiFits(multi) ==> AllCode(flat, multi, es, nodes)
      ensures AddsTexts(old(multi), multi, nodes)
      decreases nodes, 0
    {
      es := [];
      AddsNone(multi);
      hide AddsTexts;
      while |es| < |nodes|
        invariant |es| <= |nodes| && Valid() && old(flat) <= flat && old(multi) <= multi
        invariant MultiFits(multi) ==> AllCode(flat, multi, es, nodes[..|es|])
        invariant AddsTexts(old(multi), multi, nodes[..|es|])
      {
        ghost var flat0, multi0 := flat, multi;
        var e := Entry(nodes[|es|]);
        AddsNext(old(multi), multi0, multi, nodes[..|es|], nodes[|es|]);
        assert nodes[..|es|] + [nodes[|es|]] == nodes[..|es| + 1];
        if MultiFits(multi) {
          AllCodeLater(flat0, multi0, flat, multi, es, nodes[..|es|]);
        }
        es := es + [e];
      }
      assert nodes[..|es|] == nodes;
    }

    /** Where the row of `nodes` is, written unless a row equal to it is there already. */
    method WriteRow(nodes: seq<Node>) returns (at: nat)
      requires Valid() && |nodes| == 256 && forall k :: 0 <= k < |nodes| ==> Encodable(nodes[k])
      modifies this
      ensures Valid() && old(flat) <= flat && old(multi) <= multi
      ensures MultiFits(multi) ==> Codes(flat, multi, ROW + at, Row(nodes))
      ensures AddsTexts(old(multi), multi, nodes)
      decreases nodes, 1
    {
      hide AddsTexts;
      var es := Entries(nodes);
      var body := Trim(es);
      ghost var flat0 := flat;
      if body !in rowsAt {
        rowsAt := rowsAt[body := |flat|];
        flat := flat + body;
        forall b | b in rowsAt
          ensures At(flat, rowsAt[b], b)
        {
          if b != body {
            AtLater(flat0, flat, rowsAt[b], b);
          }
        }
      }
      at := rowsAt[body];
      if MultiFits(multi) {
        AllCodeLater(flat0, multi, flat, multi, es, nodes);
        RowCodes(flat, multi, at, body, es, nodes);
      }
    }

    /** `es` without the errors of one byte at its ends, its bounds first. */
    method Trim(es: seq<nat>) returns (body: seq<nat>)
      ensures IsBody(es, body)
    {
      var lo := 0;
      while lo < |es| && es[lo] == ERR + 1
        invariant lo <= |es| && forall k :: 0 <= k < lo ==> es[k] == ERR + 1
      {
        lo := lo + 1;
      }
      if lo == |es| {
        return [1, 0];
      }
      var hi := |es| - 1;
      while es[hi] == ERR + 1
        invariant lo <= hi < |es| && forall k :: hi < k < |es| ==> es[k] == ERR + 1
        decreases hi
      {
        hi := hi - 1;
      }
      body := [lo, hi] + es[lo..hi + 1];
    }

    /** The first-byte table of `c`: where it starts, None when the script refuses the codec. */
    method AddCodec(c: Codec) returns (first: Option<nat>)
      requires Valid() && Proper(c)
      modifies this
      ensures Valid() && old(flat) <= flat && old(multi) <= multi
      ensures first.None? <==> exists b1: Byte :: TooLong(c, b1)
      ensures first.Some? && MultiFits(multi) ==> CodesCodec(flat, multi, first.value, c)
      ensures first.Some? ==> AddsTexts(old(multi), multi, TreesOf(c, 256))
    {
      hide AddsTexts, Codes, AfterOne, TooLong, At, NoRepeats;
      AddsNone(multi);
      var level0: seq<nat> := [];
      assert TreesOf(c, 0) == [];
      while |level0| < 256
        invariant |level0| <= 256 && Valid() && old(flat) <= flat && old(multi) <= multi
        invariant forall b1: Byte :: b1 < |level0| ==> !TooLong(c, b1)
        invariant MultiFits(multi) ==>
                    forall b1: Byte :: b1 < |level0| ==> Codes(flat, multi, level0[b1], AfterOne(c, b1))
        invariant AddsTexts(old(multi), multi, TreesOf(c, |level0|))
      {
        var b1: Byte := |level0|;
        if TooLong(c, b1) {
          return None;
        }
        ghost var flat0, multi0 := flat, multi;
        AfterOneEncodable(c, b1);
        var e := Entry(AfterOne(c, b1));
        AddsNext(old(multi), multi0, multi, TreesOf(c, b1), AfterOne(c, b1));
        assert TreesOf(c, b1) + [AfterOne(c, b1)] == TreesOf(c, b1 + 1);
        if MultiFits(multi) {
          forall b: Byte | b < |level0| ensures Codes(flat, multi, level0[b], AfterOne(c, b)) {
            CodesLater(flat0, multi0, flat, multi, level0[b], AfterOne(c, b));
          }
        }
        level0 := level0 + [e];
      }
      first := Some(|flat|);
      ghost var flat0 := flat;
      flat := flat + level0;
      forall body | body in rowsAt ensures At(flat, rowsAt[body], body) {
        AtLater(flat0, flat, rowsAt[body], body);
      }
      if MultiFits(multi) {
        forall b: Byte ensures Codes(flat, multi, flat[|flat0| + b], AfterOne(c, b)) {
          CodesLater(flat0, multi, flat, multi, level0[b], AfterOne(c, b));
        }
      }
    }
  }

  /** The first-byte table at `first` codes the tree of each byte. */
  ghost predicate CodesCodec(flat: seq<nat>, multi: seq<Text>, first: nat, c: Codec) {
    && first + 256 <= |flat|
    && forall b1: Byte :: !TooLong(c, b1) && Codes(flat, multi, flat[first + b1], AfterOne(c, b1))
  }

  lemma AfterOneEncodable(c: Codec, b1: Byte)
    requires Proper(c)
    ensures Encodable(AfterOne(c, b1))
  {
    if Lookup(c, [b1]) == NeedsMore {
      forall b2: Byte ensures Encodable(AfterTwo(c, b1, b2)) {
        assert forall k :: 0 <= k < 256 ==> Encodable(Third(c, b1, b2)[k]);
      }
    }
  }

  lemma CodesCodecLater(flat: seq<nat>, multi: seq<Text>, flat': seq<nat>, multi': seq<Text>, first: nat, c: Codec)
    requires CodesCodec(flat, multi, first, c) && flat <= flat' && multi <= multi'
    ensures CodesCodec(flat', multi', first, c)
  {
    forall b1: Byte ensures Codes(flat', multi', flat'[first + b1], AfterOne(c, b1)) {
      CodesLater(flat, multi, flat', multi', flat[first + b1], AfterOne(c, b1));
    }
  }

  /** The rows of the tree of every first byte fit. */
  ghost predicate CodecFits(flat: seq<nat>, first: nat, c: Codec) {
    first + 256 <= |flat| && forall b1: Byte :: RowsFit(flat, flat[first + b1], AfterOne(c, b1))
  }

  lemma WalkStep(flat: seq<nat>, multi: seq<Text>, first: nat, c: Codec, bytes: Bytes)
    requires CodesCodec(flat, multi, first, c) && bytes != []
    ensures Walk(flat, multi, first, bytes) == FirstCharacter(c, bytes, 1) <==>
            Interpret(flat, multi, flat[first + bytes[0]], bytes[1..]) == Decode(AfterOne(c, bytes[0]), bytes[1..])
  {
    TreeIsDecoder(c, bytes);
  }

  /** Walking the list from a codec's first-byte table gives what its decoder gives, for any bytes, if and only if every
      row the walk can come to fits its tag's gap. */
  lemma WalkIsDecoder(flat: seq<nat>, multi: seq<Text>, first: nat, c: Codec)
    requires CodesCodec(flat, multi, first, c) && Proper(c) && MultiFits(multi)
    ensures CodecFits(flat, first, c) <==>
            forall bytes: Bytes :: Walk(flat, multi, first, bytes) == FirstCharacter(c, bytes, 1)
    ensures |flat| <= GB4 - ROW ==> CodecFits(flat, first, c)
  {
    hide Walk, FirstCharacter, Interpret, Decode, Codes, RowsFit, AfterOne;
    forall b1: Byte
      ensures RowsFit(flat, flat[first + b1], AfterOne(c, b1)) <==>
              forall rest: Bytes :: Interpret(flat, multi, flat[first + b1], rest) == Decode(AfterOne(c, b1), rest)
      ensures |flat| <= GB4 - ROW ==> RowsFit(flat, flat[first + b1], AfterOne(c, b1))
    {
      AfterOneEncodable(c, b1);
      MeansIfRowsFit(flat, multi, flat[first + b1], AfterOne(c, b1));
      if |flat| <= GB4 - ROW {
        ShortListFits(flat, multi, flat[first + b1], AfterOne(c, b1));
      }
    }
    if CodecFits(flat, first, c) {
      forall bytes: Bytes ensures Walk(flat, multi, first, bytes) == FirstCharacter(c, bytes, 1) {
        WalkAnswers(flat, multi, first, c, bytes);
      }
    } else {
      var b1: Byte :| !RowsFit(flat, flat[first + b1], AfterOne(c, b1));
      var rest: Bytes :| Interpret(flat, multi, flat[first + b1], rest) != Decode(AfterOne(c, b1), rest);
      var bytes := [b1] + rest;
      assert bytes[0] == b1 && bytes[1..] == rest;
      WalkStep(flat, multi, first, c, bytes);
    }
  }

  /** Said by the decoder's answers. */
  lemma WalkReads(flat: seq<nat>, multi: seq<Text>, first: nat, c: Codec)
    requires CodesCodec(flat, multi, first, c) && Proper(c) && MultiFits(multi)
    ensures CodecFits(flat, first, c) <==> forall bytes: Bytes :: IsRead(c, bytes, Walk(flat, multi, first, bytes))
  {
    hide IsRead, Walk, FirstCharacter, CodesCodec, CodecFits, Proper;
    WalkIsDecoder(flat, multi, first, c);
    forall bytes: Bytes
      ensures Walk(flat, multi, first, bytes) == FirstCharacter(c, bytes, 1)
              <==> IsRead(c, bytes, Walk(flat, multi, first, bytes))
    {
      FirstIs(c, bytes, Walk(flat, multi, first, bytes));
    }
  }

  lemma WalkAnswers(flat: seq<nat>, multi: seq<Text>, first: nat, c: Codec, bytes: Bytes)
    requires CodesCodec(flat, multi, first, c)
    requires forall b1: Byte, rest: Bytes ::
               Interpret(flat, multi, flat[first + b1], rest) == Decode(AfterOne(c, b1), rest)
    ensures Walk(flat, multi, first, bytes) == FirstCharacter(c, bytes, 1)
  {
    hide Interpret, Decode, Codes, AfterOne;
    if bytes != [] {
      WalkStep(flat, multi, first, c, bytes);
    }
  }

  /** A node gives each text it has. */
  lemma {:induction false} TextGiven(node: Node, t: Text) returns (rest: Bytes)
    requires Encodable(node) && HasText(node, t)
    ensures |t| != 1 && Decode(node, rest) == Reads(t)
    decreases node
  {
    rest := [];
    if node.Row? {
      var k: nat :| k < |node.entries| && HasText(node.entries[k], t);
      var more := TextGiven(node.entries[k], t);
      rest := [k] + more;
      assert rest[1..] == more;
    }
  }

  /** It has each text it gives. */
  lemma {:induction false} GivenHas(node: Node, t: Text, rest: Bytes)
    requires |t| != 1 && Decode(node, rest) == Reads(t)
    ensures HasText(node, t)
    decreases node
  {
    if node.Row? {
      GivenHas(node.entries[rest[0]], t, rest[1..]);
    }
  }

  /** The texts of a codec the script takes are those its decoder gives. */
  lemma CodecTexts(c: Codec, t: Text)
    requires Proper(c) && forall b1: Byte :: !TooLong(c, b1)
    ensures AnyHasText(TreesOf(c, 256), t) <==> |t| != 1 && exists bytes: Bytes :: IsRead(c, bytes, Reads(t))
  {
    hide IsRead, AfterOne, Decode, HasText, Encodable, TooLong;
    if AnyHasText(TreesOf(c, 256), t) {
      var b1: Byte :| HasText(TreesOf(c, 256)[b1], t);
      AfterOneEncodable(c, b1);
      var rest := TextGiven(AfterOne(c, b1), t);
      var bytes := [b1] + rest;
      assert bytes[1..] == rest;
      TreeIsDecoder(c, bytes);
      FirstIs(c, bytes, Reads(t));
    }
    if bytes: Bytes :| |t| != 1 && IsRead(c, bytes, Reads(t)) {
      FirstIs(c, bytes, Reads(t));
      assert bytes != [];
      TreeIsDecoder(c, bytes);
      GivenHas(AfterOne(c, bytes[0]), t, bytes[1..]);
      assert HasText(TreesOf(c, 256)[bytes[0]], t);
    }
  }

  /** The decoder waits after some three bytes, the two exceptions of second bytes apart. */
  ghost predicate WaitsAfterThree(c: Codec) {
    exists b1: Byte, b2: Byte, b3: Byte {:trigger [b1, b2, b3]} ::
      && c.outcome([b1]).More? && c.outcome([b1, b2]).More? && c.outcome([b1, b2, b3]).More?
      && !(c.gb18030 && 0x30 <= b2 <= 0x39) && !(c.eucKr && b1 == 0xA4 && b2 == 0xD4)
  }

  lemma TooLongIs(c: Codec)
    ensures WaitsAfterThree(c) <==> exists b1: Byte :: TooLong(c, b1)
  {
    if b1: Byte, b2: Byte, b3: Byte {:trigger [b1, b2, b3]} :|
         && c.outcome([b1]).More? && c.outcome([b1, b2]).More? && c.outcome([b1, b2, b3]).More?
         && !(c.gb18030 && 0x30 <= b2 <= 0x39) && !(c.eucKr && b1 == 0xA4 && b2 == 0xD4)
    {
      assert [b1, b2, b3][..3] == [b1, b2, b3];
      assert TooLong(c, b1);
    }
  }

  /** Every text the codecs' decoders give, and each of several characters. */
  lemma TextsAre(codecs: seq<Codec>, multi: seq<Text>)
    requires TextsOf(codecs, multi) && forall c :: c in codecs ==> Proper(c) && !WaitsAfterThree(c)
    ensures forall t :: t in multi <==> |t| != 1 && exists c, bytes: Bytes :: c in codecs && IsRead(c, bytes, Reads(t))
  {
    hide IsRead, AnyHasText, TreesOf, TooLong, WaitsAfterThree, Proper;
    forall c, t | c in codecs
      ensures AnyHasText(TreesOf(c, 256), t) <==> |t| != 1 && exists bytes: Bytes :: IsRead(c, bytes, Reads(t))
    {
      TooLongIs(c);
      CodecTexts(c, t);
    }
  }

  /** `multi` is the texts of several characters that the codecs' decoders give. */
  ghost predicate TextsOf(codecs: seq<Codec>, multi: seq<Text>) {
    forall t :: t in multi <==> exists c :: c in codecs && AnyHasText(TreesOf(c, 256), t)
  }

  lemma TextsOfNone()
    ensures TextsOf([], [])
  {
  }

  lemma TextsOfNext(codecs: seq<Codec>, c: Codec, multi: seq<Text>, multi': seq<Text>)
    requires TextsOf(codecs, multi) && AddsTexts(multi, multi', TreesOf(c, 256))
    ensures TextsOf(codecs + [c], multi')
  {
    hide AnyHasText, TreesOf;
  }

  /** cjk_tables: every codec's tables in one list (None: a codec was refused). With the texts of several characters within
      their gap, walking the list from a codec's first-byte table gives what the codec's decoder gives, for any bytes, if
      and only if every row the walk can come to is within its own. */
  method CjkTables(codecs: seq<Codec>) returns (first: Option<seq<nat>>, flat: seq<nat>, multi: seq<Text>)
    requires forall c :: c in codecs ==> Proper(c)
    ensures first.None? <==> exists c :: c in codecs && WaitsAfterThree(c)
    ensures first.Some? ==> NoRepeats(multi)
    ensures first.Some? ==> forall t ::
              t in multi <==> |t| != 1 && exists c, bytes: Bytes :: c in codecs && IsRead(c, bytes, Reads(t))
    ensures first.Some? ==> |first.value| == |codecs|
    ensures first.Some? && MultiFits(multi) ==>
              forall k :: 0 <= k < |codecs| ==> CodesCodec(flat, multi, first.value[k], codecs[k])
    ensures first.Some? && MultiFits(multi) ==>
              forall k :: 0 <= k < |codecs| ==>
                (CodecFits(flat, first.value[k], codecs[k]) <==>
                 forall bytes: Bytes :: IsRead(codecs[k], bytes, Walk(flat, multi, first.value[k], bytes)))
    ensures first.Some? && MultiFits(multi) && |flat| <= GB4 - ROW ==>
              forall k :: 0 <= k < |codecs| ==> CodecFits(flat, first.value[k], codecs[k])
  {
    hide TextsOf, WaitsAfterThree, TooLong, IsRead, Walk, CodecFits, CodesCodec;
    var tables := new Tables();
    var at: seq<nat> := [];
    TextsOfNone();
    while |at| < |codecs|
      invariant |at| <= |codecs| && tables.Valid() && TextsOf(codecs[..|at|], tables.multi)
      invariant forall k :: 0 <= k < |at| ==> !WaitsAfterThree(codecs[k])
      invariant MultiFits(tables.multi) ==>
                  forall k :: 0 <= k < |at| ==> CodesCodec(tables.flat, tables.multi, at[k], codecs[k])
    {
      ghost var flat0, multi0 := tables.flat, tables.multi;
      var c := codecs[|at|];
      var f := tables.AddCodec(c);
      TooLongIs(c);
      if f.None? {
        return None, tables.flat, tables.multi;
      }
      if MultiFits(tables.multi) {
        forall k | 0 <= k < |at| ensures CodesCodec(tables.flat, tables.multi, at[k], codecs[k]) {
          CodesCodecLater(flat0, multi0, tables.flat, tables.multi, at[k], codecs[k]);
        }
      }
      TextsOfNext(codecs[..|at|], c, multi0, tables.multi);
      assert codecs[..|at|] + [c] == codecs[..|at| + 1];
      at := at + [f.value];
    }
    assert codecs[..|at|] == codecs;
    first, flat, multi := Some(at), tables.flat, tables.multi;
    TextsAre(codecs, multi);
    if MultiFits(multi) {
      forall k | 0 <= k < |codecs|
        ensures CodecFits(flat, at[k], codecs[k]) <==>
                forall bytes: Bytes :: IsRead(codecs[k], bytes, Walk(flat, multi, at[k], bytes))
        ensures |flat| <= GB4 - ROW ==> CodecFits(flat, at[k], codecs[k])
      {
        WalkReads(flat, multi, at[k], codecs[k]);
        WalkIsDecoder(flat, multi, at[k], codecs[k]);
      }
    }
  }
}
