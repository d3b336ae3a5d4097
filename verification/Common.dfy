/** Types and small facts every other module uses. */
module Common {

  datatype Option<+T> = None | Some(value: T)

  type Byte = b: int | 0 <= b < 256

  type Bytes = seq<Byte>

  predicate NoRepeats<T(==)>(xs: seq<T>) {
    forall i, j :: 0 <= i < j < |xs| ==> xs[i] != xs[j]
  }

  function Sum(xs: seq<nat>): nat {
    if xs == [] then 0 else xs[0] + Sum(xs[1..])
  }

  lemma {:induction false} SumPush(xs: seq<nat>, x: nat)
    ensures Sum(xs + [x]) == Sum(xs) + x
  {
    if xs == [] {
      assert [] + [x] == [x];
    } else {
      assert (xs + [x])[1..] == xs[1..] + [x];
      SumPush(xs[1..], x);
    }
  }

  /** The pieces of `parts`, one after the other. */
  function Flatten<T>(parts: seq<seq<T>>): seq<T> {
    if parts == [] then [] else parts[0] + Flatten(parts[1..])
  }

  lemma {:induction false} FlattenAppend<T>(parts: seq<seq<T>>, more: seq<seq<T>>)
    ensures Flatten(parts + more) == Flatten(parts) + Flatten(more)
  {
    if parts == [] {
      assert parts + more == more;
    } else {
      assert (parts + more)[1..] == parts[1..] + more;
      FlattenAppend(parts[1..], more);
    }
  }

  lemma FlattenPush<T>(parts: seq<seq<T>>, last: seq<T>)
    ensures Flatten(parts + [last]) == Flatten(parts) + last
  {
    FlattenAppend(parts, [last]);
    assert Flatten([last]) == last + Flatten<T>([]);
  }
}

/** Numbers written in a base, most significant digit first. */
module Numerals {
  import opened Common

  lemma DivMod(n: nat, base: nat)
    requires 2 <= base <= n
    ensures n / base < n && n == n / base * base + n % base && n % base < base
  {
  }

  function Digits(n: nat, base: nat): (ds: seq<nat>)
    requires 2 <= base
    ensures |ds| > 0 && forall k :: 0 <= k < |ds| ==> ds[k] < base
  {
    if n < base then [n] else DivMod(n, base); Digits(n / base, base) + [n % base]
  }

  function Value(ds: seq<nat>, base: nat): nat {
    if ds == [] then 0 else Value(ds[..|ds| - 1], base) * base + ds[|ds| - 1]
  }

  lemma ValuePush(ds: seq<nat>, d: nat, base: nat)
    ensures Value(ds + [d], base) == Value(ds, base) * base + d
  {
    assert (ds + [d])[..|ds|] == ds;
  }

  lemma DigitsStep(n: nat, base: nat) returns (q: nat, d: nat)
    requires 2 <= base <= n
    ensures Digits(n, base) == Digits(q, base) + [d] && n == q * base + d && q < n
  {
    DivMod(n, base);
    q, d := n / base, n % base;
  }

  lemma {:induction false} ValueOfDigits(n: nat, base: nat)
    requires 2 <= base
    ensures Value(Digits(n, base), base) == n
  {
    if n < base {
      assert [n] == [] + [n];
      ValuePush([], n, base);
    } else {
      var q, d := DigitsStep(n, base);
      ValueOfDigits(q, base);
      ValuePush(Digits(q, base), d, base);
    }
  }

  function DigitChar(d: nat): char
    requires d < 36
  {
    if d < 10 then '0' + d as char else 'a' + (d - 10) as char
  }

  /** `n` in lower-case digits, as Python's format and JavaScript's toString write it. */
  function Show(n: nat, base: nat): (s: string)
    requires 2 <= base <= 36
    ensures |s| > 0
  {
    var ds := Digits(n, base);
    seq(|ds|, k requires 0 <= k < |ds| => DigitChar(ds[k]))
  }

  function DigitOf(c: char): Option<nat> {
    if '0' <= c <= '9' then Some((c - '0') as nat)
    else if 'a' <= c <= 'z' then Some((c - 'a') as nat + 10)
    else None
  }

  predicate IsDigit(c: char, base: nat) {
    DigitOf(c).Some? && DigitOf(c).value < base
  }

  /** The number `s` writes, None when it writes none. */
  function ReadNumber(s: string, base: nat): Option<nat> {
    if s != [] && forall k :: 0 <= k < |s| ==> IsDigit(s[k], base) then
      Some(Value(seq(|s|, k requires 0 <= k < |s| => if IsDigit(s[k], base) then DigitOf(s[k]).value else 0), base))
    else
      None
  }

  lemma ShowDigits(n: nat, base: nat)
    requires 2 <= base <= 36
    ensures forall k :: 0 <= k < |Show(n, base)| ==> IsDigit(Show(n, base)[k], base)
  {
    forall k | 0 <= k < |Show(n, base)|
      ensures IsDigit(Show(n, base)[k], base)
    {
      assert Show(n, base)[k] == DigitChar(Digits(n, base)[k]);
    }
  }

  /** What was shown reads back. */
  lemma ReadShow(n: nat, base: nat)
    requires 2 <= base <= 36
    ensures ReadNumber(Show(n, base), base) == Some(n)
  {
    ShowDigits(n, base);
    var s, ds := Show(n, base), Digits(n, base);
    var back := seq(|s|, k requires 0 <= k < |s| => if IsDigit(s[k], base) then DigitOf(s[k]).value else 0);
    assert back == ds;
    ValueOfDigits(n, base);
  }
}

/** Lists written as text, their items apart by one character. */
module Texts {

  function Join(parts: seq<string>, sep: char): string {
    if parts == [] then ""
    else if |parts| == 1 then parts[0]
    else parts[0] + [sep] + Join(parts[1..], sep)
  }

  /** The pieces of `s` between its `sep`s: always one at least. */
  function Split(s: string, sep: char): (parts: seq<string>)
    ensures parts != []
  {
    if s == "" then [""]
    else if s[0] == sep then [""] + Split(s[1..], sep)
    else var more := Split(s[1..], sep); [[s[0]] + more[0]] + more[1..]
  }

  lemma {:induction false} SplitLast(p: string, sep: char)
    requires sep !in p
    ensures Split(p, sep) == [p]
  {
    if p != "" {
      SplitLast(p[1..], sep);
      assert [p[0]] + p[1..] == p;
    }
  }

  lemma {:induction false} SplitFirst(p: string, rest: string, sep: char)
    requires sep !in p
    ensures Split(p + [sep] + rest, sep) == [p] + Split(rest, sep)
  {
    var s := p + [sep] + rest;
    if p == "" {
      assert s[1..] == rest;
    } else {
      SplitFirst(p[1..], rest, sep);
      assert s[1..] == p[1..] + [sep] + rest;
      assert [p[0]] + p[1..] == p;
    }
  }

  /** A list joined splits back, unless it is empty (which reads as one empty item). */
  lemma {:induction false} SplitJoin(parts: seq<string>, sep: char)
    requires forall p :: p in parts ==> sep !in p
    ensures Split(Join(parts, sep), sep) == if parts == [] then [""] else parts
  {
    if |parts| == 1 {
      SplitLast(parts[0], sep);
    } else if parts != [] {
      SplitJoin(parts[1..], sep);
      SplitFirst(parts[0], Join(parts[1..], sep), sep);
    }
  }

  lemma SplitCons(c: char, s: string, sep: char)
    ensures var more := Split(s, sep);
            Split([c] + s, sep) == if c == sep then [""] + more else [[c] + more[0]] + more[1..]
  {
    assert ([c] + s)[1..] == s;
  }

  /** A separator splits what is before it from what is after. */
  lemma {:induction false} SplitAt(a: string, b: string, sep: char)
    ensures Split(a + [sep] + b, sep) == Split(a, sep) + Split(b, sep)
    decreases |a|
  {
    hide Split;
    if a == "" {
      SplitLast("", sep);
      SplitCons(sep, b, sep);
      assert a + [sep] + b == [sep] + b;
    } else {
      var c, a' := a[0], a[1..];
      SplitAt(a', b, sep);
      assert a + [sep] + b == [c] + (a' + [sep] + b);
      SplitCons(c, a' + [sep] + b, sep);
      assert a == [c] + a';
      SplitCons(c, a', sep);
      Heads(Split(a', sep), Split(b, sep), c);
      assert [""] + (Split(a', sep) + Split(b, sep)) == [""] + Split(a', sep) + Split(b, sep);
    }
  }

  /** Two lists joined, joined. */
  lemma {:induction false} JoinBoth(a: seq<string>, b: seq<string>, sep: char)
    requires a != [] && b != []
    ensures Join(a + b, sep) == Join(a, sep) + [sep] + Join(b, sep)
  {
    if |a| == 1 {
      assert (a + b)[1..] == b;
    } else {
      assert (a + b)[1..] == a[1..] + b;
      JoinBoth(a[1..], b, sep);
    }
  }

  lemma Heads(a: seq<string>, b: seq<string>, c: char)
    requires a != []
    ensures [[c] + (a + b)[0]] + (a + b)[1..] == [[c] + a[0]] + a[1..] + b
  {
    assert (a + b)[1..] == a[1..] + b;
  }

  lemma {:induction false} SplitPieces(s: string, sep: char)
    ensures forall p :: p in Split(s, sep) ==> sep !in p
    ensures Join(Split(s, sep), sep) == s
  {
    if s != "" {
      SplitPieces(s[1..], sep);
      var more := Split(s[1..], sep);
      if s[0] == sep {
        assert Join([""] + more, sep) == "" + [sep] + Join(more, sep);
      } else {
        var parts := [[s[0]] + more[0]] + more[1..];
        assert parts[1..] == more[1..];
        if |more| == 1 {
          assert Join(parts, sep) == parts[0];
        } else {
          assert Join(parts, sep) == [s[0]] + (more[0] + [sep] + Join(more[1..], sep));
        }
      }
    }
  }

  /** `s[i..j]` stands between two separators, or an end of `s`, with none in it. */
  predicate IsPiece(s: string, sep: char, i: int, j: int) {
    && 0 <= i <= j <= |s| && sep !in s[i..j]
    && (i == 0 || s[i - 1] == sep) && (j == |s| || s[j] == sep)
  }

  /** Where the k-th piece is. */
  lemma {:induction false} PieceAt(s: string, sep: char, k: nat) returns (i: nat, j: nat)
    requires k < |Split(s, sep)|
    ensures IsPiece(s, sep, i, j) && Split(s, sep)[k] == s[i..j] && (k == 0 <==> i == 0)
  {
    if s == "" {
      i, j := 0, 0;
    } else if s[0] == sep {
      if k == 0 {
        i, j := 0, 0;
      } else {
        i, j := PieceAt(s[1..], sep, k - 1);
        assert s[1..][i..j] == s[i + 1..j + 1];
        i, j := i + 1, j + 1;
      }
    } else {
      i, j := PieceAt(s[1..], sep, k);
      assert s[1..][i..j] == s[i + 1..j + 1];
      assert i == 0 ==> s[..j + 1] == [s[0]] + s[1..j + 1];
      assert i > 0 ==> s[i] == s[1..][i - 1];
      i, j := if i == 0 then 0 else i + 1, j + 1;
    }
  }

  /** The pieces are what stands between separators. */
  lemma SplitIsPieces(s: string, sep: char, p: string)
    ensures p in Split(s, sep) <==> exists i: int, j: int :: IsPiece(s, sep, i, j) && s[i..j] == p
  {
    hide Split;
    if p in Split(s, sep) {
      var k: nat :| k < |Split(s, sep)| && Split(s, sep)[k] == p;
      var i, j := PieceAt(s, sep, k);
    }
    if i: int, j: int :| IsPiece(s, sep, i, j) && s[i..j] == p {
      PieceIn(s, sep, i, j);
    }
  }

  lemma PieceIn(s: string, sep: char, i: int, j: int)
    requires IsPiece(s, sep, i, j)
    ensures s[i..j] in Split(s, sep)
  {
    hide Split;
    var p, rest := s[i..j], s[i..];
    if j == |s| {
      assert rest == p;
      SplitLast(p, sep);
    } else {
      assert rest == p + [sep] + s[j + 1..];
      SplitFirst(p, s[j + 1..], sep);
    }
    if i > 0 {
      assert s == s[..i - 1] + [sep] + rest;
      SplitAt(s[..i - 1], rest, sep);
    } else {
      assert rest == s;
    }
  }

  // ---- Order, by code points ----------------------------------------------------------

  predicate Before(a: string, b: string) {
    if a == "" then b != ""
    else b != "" && (a[0] < b[0] || (a[0] == b[0] && Before(a[1..], b[1..])))
  }

  /** One string is a beginning of the other or, where they first differ, has the lesser character. */
  ghost predicate Precedes(a: string, b: string) {
    || (a < b)
    || exists k :: 0 <= k < |a| && k < |b| && a[k] < b[k] && forall j :: 0 <= j < k ==> a[j] == b[j]
  }

  lemma {:induction false} BeforeIs(a: string, b: string)
    ensures Before(a, b) <==> Precedes(a, b)
  {
    if a != "" && b != "" && a[0] == b[0] {
      var a', b' := a[1..], b[1..];
      BeforeIs(a', b');
      if Precedes(a', b') && !(a' < b') {
        var k :| 0 <= k < |a'| && k < |b'| && a'[k] < b'[k] && forall j :: 0 <= j < k ==> a'[j] == b'[j];
        assert a[k + 1] < b[k + 1] && forall j :: 0 <= j < k + 1 ==> a[j] == b[j] by {
          assert forall j :: 0 < j < k + 1 ==> a[j] == a'[j - 1] && b[j] == b'[j - 1];
        }
      }
      if Precedes(a, b) && !(a < b) {
        var k :| 0 <= k < |a| && k < |b| && a[k] < b[k] && forall j :: 0 <= j < k ==> a[j] == b[j];
        assert a'[k - 1] < b'[k - 1] && forall j :: 0 <= j < k - 1 ==> a'[j] == b'[j];
      }
    }
  }

  lemma {:induction false} BeforeTotal(a: string, b: string)
    ensures a != b ==> Before(a, b) || Before(b, a)
  {
    if a != "" && b != "" && a[0] == b[0] {
      BeforeTotal(a[1..], b[1..]);
      assert a == [a[0]] + a[1..] && b == [b[0]] + b[1..];
    }
  }

  lemma {:induction false} BeforeTransitive(a: string, b: string, c: string)
    requires Before(a, b) && Before(b, c)
    ensures Before(a, c)
  {
    if a != "" && a[0] == b[0] == c[0] {
      BeforeTransitive(a[1..], b[1..], c[1..]);
    }
  }

  lemma {:induction false} BeforeIrreflexive(a: string)
    ensures !Before(a, a)
  {
    if a != "" {
      BeforeIrreflexive(a[1..]);
    }
  }

  ghost predicate Ascending(xs: seq<string>) {
    forall i, j :: 0 <= i < j < |xs| ==> Before(xs[i], xs[j])
  }

  /** The strings of a set, in order. */
  method Sorted(xs: set<string>) returns (ys: seq<string>)
    ensures forall i, j :: 0 <= i < j < |ys| ==> Precedes(ys[i], ys[j])
    ensures Ascending(ys) && forall x :: x in ys <==> x in xs
  {
    ys := [];
    var left := xs;
    while left != {}
      invariant Ascending(ys) && left <= xs
      invariant forall x :: x in xs <==> x in left || x in ys
      invariant forall x, y :: x in ys && y in left ==> Before(x, y)
      decreases left
    {
      var least := Least(left);
      forall x, y | x in ys + [least] && y in left - {least}
        ensures Before(x, y)
      {
      }
      left := left - {least};
      ys := ys + [least];
    }
    forall i, j | 0 <= i < j < |ys| ensures Precedes(ys[i], ys[j]) {
      BeforeIs(ys[i], ys[j]);
    }
  }

  method Least(xs: set<string>) returns (least: string)
    requires xs != {}
    ensures least in xs && forall x :: x in xs && x != least ==> Before(least, x)
  {
    least :| least in xs;
    var left := xs - {least};
    while left != {}
      invariant least in xs && left <= xs
      invariant forall x :: x in xs && x !in left && x != least ==> Before(least, x)
      decreases left
    {
      var x :| x in left;
      left := left - {x};
      BeforeTotal(x, least);
      if Before(x, least) {
        forall y | y in xs && y !in left && y != x
          ensures Before(x, y)
        {
          if y != least {
            BeforeTransitive(x, least, y);
          }
        }
        least := x;
      }
    }
  }
}
