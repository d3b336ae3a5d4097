/**
 The line-and-bytes format `git cat-file --batch` prints, as js/src/hook.js reads it: for each object
 asked for a header line, of words apart by ASCII whitespace, and if there is such an object its bytes and a newline.
 */
module GitBatch {
  import opened Common
  import opened Numerals

  const NEWLINE: Byte := 10
  const SPACE: Byte := 32

  predicate IsSpace(b: Byte) {
    b == SPACE || 9 <= b <= 13
  }

  /** How many bytes of `line` come before its first whitespace. */
  function WordLength(line: Bytes): (n: nat)
    ensures n <= |line|
    ensures forall j :: 0 <= j < n ==> !IsSpace(line[j])
    ensures n < |line| ==> IsSpace(line[n])
  {
    if line == [] || IsSpace(line[0]) then 0 else 1 + WordLength(line[1..])
  }

  /** The words of a header. */
  function Fields(line: Bytes): seq<Bytes>
    decreases |line|
  {
    if line == [] then []
    else if IsSpace(line[0]) then Fields(line[1..])
    else var n := WordLength(line); [line[..n]] + Fields(line[n..])
  }

  predicate IsWord(w: Bytes) {
    w != [] && forall j :: 0 <= j < |w| ==> !IsSpace(w[j])
  }

  lemma {:induction false} FieldsOfWord(w: Bytes, rest: Bytes)
    requires IsWord(w)
    requires rest == [] || IsSpace(rest[0])
    ensures Fields(w + rest) == [w] + Fields(rest)
  {
    var line := w + rest;
    var n := WordLength(line);
    assert forall k :: 0 <= k < |w| ==> line[k] == w[k];
    assert |w| < |line| ==> line[|w|] == rest[0];
    assert n == |w|;
    assert line[..n] == w && line[n..] == rest;
  }

  function Spaced(rest: Bytes): Bytes {
    [SPACE] + rest
  }

  lemma FieldsOfSpaced(rest: Bytes)
    ensures Fields(Spaced(rest)) == Fields(rest)
  {
    assert Spaced(rest)[1..] == rest;
  }

  /** A number in decimal, as bytes. */
  function Decimal(n: nat): (w: Bytes)
    ensures IsWord(w)
  {
    var ds := Digits(n, 10);
    seq(|ds|, k requires 0 <= k < |ds| => 48 + ds[k])
  }

  /** The number these bytes write in decimal, as Number reads them (None: anything else, or too large to be safe). */
  function DecimalOf(w: Bytes, limit: nat): Option<nat> {
    if w != [] && forall k :: 0 <= k < |w| ==> 48 <= w[k] <= 57 then
      var n := Value(seq(|w|, k requires 0 <= k < |w| => w[k] - 48), 10);
      if n <= limit then Some(n) else None
    else
      None
  }

  lemma DecimalReadsBack(n: nat, limit: nat)
    ensures DecimalOf(Decimal(n), limit) == if n <= limit then Some(n) else None
  {
    var w, ds := Decimal(n), Digits(n, 10);
    assert forall k :: 0 <= k < |w| ==> w[k] == 48 + ds[k];
    assert seq(|w|, k requires 0 <= k < |w| => w[k] - 48) == ds;
    ValueOfDigits(n, 10);
  }

  const BLOB: Bytes := [98, 108, 111, 98]
  const MISSING: Bytes := [109, 105, 115, 115, 105, 110, 103]
  const AMBIGUOUS: Bytes := [97, 109, 98, 105, 103, 117, 111, 117, 115]

  /** What git has for a name asked of it. */
  datatype Object =
    | Blob(oid: Bytes, content: Bytes)
    | OtherKind(oid: Bytes, kind: Bytes, content: Bytes)   // a commit, a tree, a tag
    | NoObject(name: Bytes, note: Bytes)                   // no object of that name, or several: a line only
  {
    predicate Proper() {
      match this
      case Blob(oid, content) => IsWord(oid)
      case OtherKind(oid, kind, content) => IsWord(oid) && IsWord(kind) && kind != BLOB
      case NoObject(name, note) => IsWord(name) && note in [MISSING, AMBIGUOUS]
    }

    function Header(): Bytes {
      match this
      case Blob(oid, content) => oid + Spaced(BLOB + Spaced(Decimal(|content|)))
      case OtherKind(oid, kind, content) => oid + Spaced(kind + Spaced(Decimal(|content|)))
      case NoObject(name, note) => name + Spaced(note)
    }

    function Printed(): Bytes {
      if NoObject? then Header() + [NEWLINE] else Header() + [NEWLINE] + content + [NEWLINE]
    }
  }

  function PrintedAll(objects: seq<Object>): Bytes {
    if objects == [] then [] else objects[0].Printed() + PrintedAll(objects[1..])
  }

  lemma NextWord(w: Bytes, rest: Bytes)
    requires IsWord(w) && NEWLINE !in rest
    ensures Fields(w + Spaced(rest)) == [w] + Fields(rest)
    ensures NEWLINE !in w + Spaced(rest)
  {
    FieldsOfWord(w, Spaced(rest));
    FieldsOfSpaced(rest);
  }

  lemma LastWord(w: Bytes)
    requires IsWord(w)
    ensures Fields(w) == [w] && NEWLINE !in w
  {
    FieldsOfWord(w, []);
    assert w + [] == w;
  }

  lemma ObjectFields(oid: Bytes, kind: Bytes, size: Bytes)
    requires IsWord(oid) && IsWord(kind) && IsWord(size)
    ensures Fields(oid + Spaced(kind + Spaced(size))) == [oid, kind, size]
    ensures NEWLINE !in oid + Spaced(kind + Spaced(size))
  {
    LastWord(size);
    NextWord(kind, size);
    NextWord(oid, kind + Spaced(size));
  }

  /** The fields js/src/hook.js reads in a header git prints. */
  lemma HeaderFields(o: Object)
    requires o.Proper()
    ensures !o.NoObject? ==> Fields(o.Header()) == [o.oid, if o.Blob? then BLOB else o.kind, Decimal(|o.content|)]
    ensures o.NoObject? ==> |Fields(o.Header())| == 2
    ensures NEWLINE !in o.Header()
  {
    match o {
      case NoObject(name, note) =>
        LastWord(note);
        NextWord(name, note);
      case Blob(oid, content) => ObjectFields(oid, BLOB, Decimal(|content|));
      case OtherKind(oid, kind, content) => ObjectFields(oid, kind, Decimal(|content|));
    }
  }
}
