/**
 A writer of export tries, for what scripts/check_native_library.py reads: every tree of names can be written as a trie that
 it accepts and reads the names of. The root is at offset 0; the other nodes follow far enough on that all their offsets
 take the same number of bytes.
 */
module TrieWriter {
  import opened Common
  import opened ExportTrie

  /** A tree of names: what is said of the name that ends here (nothing when none does), and its edges. */
  type Shape = TreeOf<()>

  /** The format counts edges in a byte and ends their texts with a zero. */
  predicate Writable(s: Shape)
    decreases s
  {
    && |s.edges| < 256
    && forall i :: 0 <= i < |s.edges| ==> 0 !in s.edges[i].0 && Writable(s.edges[i].1)
  }

  // ---- Sizes, with offsets of `len` bytes -------------------------------------------------------

  function EdgesSize(len: nat, edges: seq<(Bytes, Shape)>): nat {
    if edges == [] then 0 else |edges[0].0| + 1 + len + EdgesSize(len, edges[1..])
  }

  function OwnSize(len: nat, s: Shape): nat {
    |Uleb(|s.info|)| + |s.info| + 1 + EdgesSize(len, s.edges)
  }

  function Size(len: nat, s: Shape): nat
    decreases s, |s.edges| + 1
  {
    OwnSize(len, s) + SizeFrom(len, s, 0)
  }

  /** The size of the trees the edges from the k-th on lead to. */
  function SizeFrom(len: nat, s: Shape, k: nat): nat
    requires k <= |s.edges|
    decreases s, |s.edges| - k
  {
    if k == |s.edges| then 0 else Size(len, s.edges[k].1) + SizeFrom(len, s, k + 1)
  }

  lemma {:induction false} SizesFall(len: nat, s: Shape, i: nat, j: nat)
    requires i <= j <= |s.edges|
    ensures SizeFrom(len, s, j) <= SizeFrom(len, s, i)
    ensures i < j ==> SizeFrom(len, s, j) + Size(len, s.edges[i].1) <= SizeFrom(len, s, i)
    decreases j - i
  {
    hide Size;
    if i < j {
      SizesFall(len, s, i + 1, j);
    }
  }

  // ---- Places ----------------------------------------------------------------------------------

  /** The tree with its nodes placed: itself at `at`, those below one after the other from `next`. */
  function PlacedAt(len: nat, s: Shape, at: nat, next: nat): Tree
    decreases s, |s.edges| + 1
  {
    Labelled(at, s.info, PlacedFrom(len, s, 0, next))
  }

  function Placed(len: nat, s: Shape, at: nat): Tree
    decreases s, |s.edges| + 2
  {
    PlacedAt(len, s, at, at + OwnSize(len, s))
  }

  function PlacedFrom(len: nat, s: Shape, k: nat, at: nat): (r: seq<(Bytes, Tree)>)
    requires k <= |s.edges|
    ensures |r| == |s.edges| - k
    decreases s, |s.edges| - k
  {
    if k == |s.edges| then []
    else [(s.edges[k].0, Placed(len, s.edges[k].1, at))] + PlacedFrom(len, s, k + 1, at + Size(len, s.edges[k].1))
  }

  /** Where the tree the i-th edge leads to begins. */
  function StartOf(len: nat, s: Shape, next: nat, i: nat): nat
    requires i <= |s.edges|
  {
    SizesFall(len, s, 0, i);
    next + SizeFrom(len, s, 0) - SizeFrom(len, s, i)
  }

  lemma {:induction false} PlacedFromIs(len: nat, s: Shape, next: nat, k: nat, i: nat)
    requires k <= i < |s.edges|
    ensures PlacedFrom(len, s, k, StartOf(len, s, next, k))[i - k]
            == (s.edges[i].0, Placed(len, s.edges[i].1, StartOf(len, s, next, i)))
    decreases i - k
  {
    hide Size, Placed;
    if k < i {
      assert StartOf(len, s, next, k + 1) == StartOf(len, s, next, k) + Size(len, s.edges[k].1);
      PlacedFromIs(len, s, next, k + 1, i);
    }
  }

  /** The i-th edge of a placed tree. */
  lemma EdgeOf(len: nat, s: Shape, at: nat, next: nat, i: nat)
    requires i < |s.edges|
    ensures var t := PlacedAt(len, s, at, next);
            && |t.edges| == |s.edges|
            && t.edges[i] == (s.edges[i].0, Placed(len, s.edges[i].1, StartOf(len, s, next, i)))
    ensures StartOf(len, s, next, i + 1) == StartOf(len, s, next, i) + Size(len, s.edges[i].1)
    ensures next <= StartOf(len, s, next, i) && StartOf(len, s, next, i + 1) <= next + SizeFrom(len, s, 0)
  {
    hide Size, Placed;
    PlacedFromIs(len, s, next, 0, i);
    assert StartOf(len, s, next, 0) == next;
    SizesFall(len, s, 0, i);
    SizesFall(len, s, 0, i + 1);
  }

  /** The bytes of the trees the edges from the k-th on lead to. */
  function WrittenFrom(t: Tree, k: nat): Bytes
    requires k <= |t.edges|
    decreases t, |t.edges| - k
  {
    if k == |t.edges| then [] else Written(t.edges[k].1) + WrittenFrom(t, k + 1)
  }

  function Written(t: Tree): Bytes
    decreases t, |t.edges| + 1
  {
    (if |t.edges| < 256 then NodeBytes(t.info, EdgesOf(t.edges)) else []) + WrittenFrom(t, 0)
  }

  lemma {:induction false} UlebSize(n: nat, len: nat)
    requires len >= 1 && Power(len - 1) <= n < Power(len)
    ensures |Uleb(n)| == len
  {
    if len == 1 {
      assert Power(1) == 128 * Power(0) == 128;
    } else {
      var p, q := Power(len - 2), n / 128;
      assert Power(len - 1) == 128 * p && Power(len) == 128 * Power(len - 1);
      Quotient(n, p, Power(len - 1));
      UlebSize(q, len - 1);
    }
  }

  lemma Quotient(n: nat, low: nat, high: nat)
    requires 128 * low <= n < 128 * high
    ensures low <= n / 128 < high
  {
  }

  /** Edges whose offsets all take `len` bytes. */
  lemma {:induction false} EdgeBytesSize(len: nat, edges: seq<(Bytes, Shape)>, placed: seq<Edge>)
    requires |placed| == |edges| && forall i :: 0 <= i < |edges| ==> placed[i].text == edges[i].0
    requires forall i :: 0 <= i < |edges| ==> |Uleb(placed[i].child)| == len
    ensures |EdgeBytes(placed)| == EdgesSize(len, edges)
  {
    if edges != [] {
      EdgeBytesSize(len, edges[1..], placed[1..]);
    }
  }

  /** A tree whose offsets below it all take `len` bytes. */
  predicate InRange(len: nat, s: Shape, next: nat) {
    len >= 1 && Power(len - 1) <= next && next + SizeFrom(len, s, 0) <= Power(len)
  }

  lemma OwnBytesSize(len: nat, s: Shape, at: nat, next: nat)
    requires Writable(s) && InRange(len, s, next)
    ensures |PlacedAt(len, s, at, next).edges| == |s.edges| < 256
    ensures |NodeBytes(s.info, EdgesOf(PlacedAt(len, s, at, next).edges))| == OwnSize(len, s)
  {
    var t := PlacedAt(len, s, at, next);
    forall i | 0 <= i < |s.edges|
      ensures t.edges[i].0 == s.edges[i].0 && |Uleb(t.edges[i].1.at)| == len
    {
      EdgeOf(len, s, at, next, i);
      assert Size(len, s.edges[i].1) >= 1;
      UlebSize(t.edges[i].1.at, len);
    }
    hide Uleb, Power, PlacedAt, SizeFrom, EdgeBytes, EdgesSize;
    EdgeBytesSize(len, s.edges, EdgesOf(t.edges));
  }

  lemma StandsApart(s: Bytes, pos: nat, a: Bytes, b: Bytes)
    requires Stands(s, pos, a + b)
    ensures Stands(s, pos, a) && Stands(s, pos + |a|, b)
  {
    StandsThere(s, pos, a + b);
    assert s[pos..] == a + (b + s[pos + |a + b|..]);
    assert s[pos + |a|..] == s[pos..][|a|..] == b + s[pos + |a + b|..];
  }

  /** What stands in the trie as it is written is held by it. */
  lemma {:induction false} HoldsPlaced(len: nat, s: Shape, at: nat, trie: Bytes)
    requires Writable(s) && InRange(len, s, at + OwnSize(len, s)) && Power(len - 1) <= at
    requires Stands(trie, at, Written(Placed(len, s, at)))
    ensures |Written(Placed(len, s, at))| == Size(len, s) && Holds(trie, Placed(len, s, at))
    decreases s, |s.edges| + 2
  {
    var next := at + OwnSize(len, s);
    OwnBytesSize(len, s, at, next);
    var t := Placed(len, s, at);
    StandsApart(trie, at, NodeBytes(t.info, EdgesOf(t.edges)), WrittenFrom(t, 0));
    HoldsBelow(len, s, at, next, 0, trie);
    HoldsIf(len, s, at, next, trie);
  }

  /** The trees from the k-th edge on. */
  lemma {:induction false} HoldsBelow(len: nat, s: Shape, at: nat, next: nat, k: nat, trie: Bytes)
    requires Writable(s) && InRange(len, s, next) && k <= |s.edges| == |PlacedAt(len, s, at, next).edges|
    requires Stands(trie, StartOf(len, s, next, k), WrittenFrom(PlacedAt(len, s, at, next), k))
    ensures |WrittenFrom(PlacedAt(len, s, at, next), k)| == SizeFrom(len, s, k)
    ensures forall i :: k <= i < |s.edges| ==> Holds(trie, PlacedAt(len, s, at, next).edges[i].1)
    decreases s, |s.edges| - k
  {
    hide *;
    if k < |s.edges| {
      var t := PlacedAt(len, s, at, next);
      var start, child := StartOf(len, s, next, k), s.edges[k].1;
      BelowStep(len, s, at, next, k);
      InRangeBelow(len, s, next, k);
      WritableBelow(s, k);
      StandsApart(trie, start, Written(t.edges[k].1), WrittenFrom(t, k + 1));
      HoldsPlaced(len, child, start, trie);
      HoldsBelow(len, s, at, next, k + 1, trie);
    } else {
      NoneBelow(len, s, at, next);
    }
  }

  lemma WritableBelow(s: Shape, k: nat)
    requires Writable(s) && k < |s.edges|
    ensures Writable(s.edges[k].1)
  {
  }

  lemma NoneBelow(len: nat, s: Shape, at: nat, next: nat)
    requires |s.edges| == |PlacedAt(len, s, at, next).edges|
    ensures WrittenFrom(PlacedAt(len, s, at, next), |s.edges|) == [] && SizeFrom(len, s, |s.edges|) == 0
  {
    hide PlacedAt, Size;
  }

  lemma BelowStep(len: nat, s: Shape, at: nat, next: nat, k: nat)
    requires k < |s.edges| == |PlacedAt(len, s, at, next).edges|
    ensures var t := PlacedAt(len, s, at, next);
            && t.edges[k].1 == Placed(len, s.edges[k].1, StartOf(len, s, next, k))
            && WrittenFrom(t, k) == Written(t.edges[k].1) + WrittenFrom(t, k + 1)
            && |WrittenFrom(t, k)| == |Written(t.edges[k].1)| + |WrittenFrom(t, k + 1)|
    ensures SizeFrom(len, s, k) == Size(len, s.edges[k].1) + SizeFrom(len, s, k + 1)
    ensures StartOf(len, s, next, k + 1) == StartOf(len, s, next, k) + Size(len, s.edges[k].1)
  {
    EdgeOf(len, s, at, next, k);
    hide PlacedAt, Placed, Size, Written, StartOf;
  }

  lemma InRangeBelow(len: nat, s: Shape, next: nat, k: nat)
    requires InRange(len, s, next) && k < |s.edges|
    ensures var start := StartOf(len, s, next, k);
            Power(len - 1) <= start && InRange(len, s.edges[k].1, start + OwnSize(len, s.edges[k].1))
  {
    EdgeOf(len, s, 0, next, k);
    hide OwnSize, Power;
  }

  lemma HoldsIf(len: nat, s: Shape, at: nat, next: nat, trie: Bytes)
    requires Writable(s) && |PlacedAt(len, s, at, next).edges| == |s.edges|
    requires Stands(trie, at, NodeBytes(s.info, EdgesOf(PlacedAt(len, s, at, next).edges)))
    requires forall i :: 0 <= i < |s.edges| ==> Holds(trie, PlacedAt(len, s, at, next).edges[i].1)
    ensures Holds(trie, PlacedAt(len, s, at, next))
  {
    var t := PlacedAt(len, s, at, next);
    forall i | 0 <= i < |t.edges| ensures 0 !in t.edges[i].0 {
      EdgeOf(len, s, at, next, i);
    }
    hide Stands, NodeBytes;
  }

  // ---- No two nodes at one place ----------------------------------------------------------------

  /** Every node of the tree lies between these. */
  ghost predicate Within(t: Tree, low: nat, high: nat) {
    forall route :: Part(t, route).Some? ==> low <= Part(t, route).value.0.at < high
  }

  /** A way on from a tree is one from a tree below it. */
  lemma PartBelow(t: Tree, route: seq<nat>)
    requires route != [] && Part(t, route).Some?
    ensures route[0] < |t.edges| && Part(t.edges[route[0]].1, route[1..]).Some?
    ensures Part(t, route).value.0 == Part(t.edges[route[0]].1, route[1..]).value.0
  {
    FirstStep(t, route);
    PartOfChild(t, route[0], route[1..]);
    assert [route[0]] + route[1..] == route;
  }

  /** The trees below lie apart, each between two places. */
  ghost predicate BelowApart(t: Tree, lows: seq<nat>, highs: seq<nat>) {
    && |lows| == |highs| == |t.edges|
    && (forall i :: 0 <= i < |t.edges| ==> PlacedApart(t.edges[i].1) && Within(t.edges[i].1, lows[i], highs[i]))
    && (forall i, j :: 0 <= i < j < |t.edges| ==> highs[i] <= lows[j])
    && forall i :: 0 <= i < |t.edges| ==> t.at < lows[i]
  }

  lemma ApartBelow(t: Tree, lows: seq<nat>, highs: seq<nat>, a: seq<nat>, b: seq<nat>)
    requires BelowApart(t, lows, highs) && Part(t, a).Some? && Part(t, b).Some? && a != b && a != []
    ensures Part(t, a).value.0.at != Part(t, b).value.0.at
  {
    PartBelow(t, a);
    var i := a[0];
    assert Within(t.edges[i].1, lows[i], highs[i]) && PlacedApart(t.edges[i].1);
    if b == [] {
      assert Part(t, []) == Some((t, []));
    } else {
      PartBelow(t, b);
      var j := b[0];
      assert Within(t.edges[j].1, lows[j], highs[j]);
      hide Part;
      if i == j {
        assert [i] + a[1..] == a && [i] + b[1..] == b;
      } else if i < j {
        assert highs[i] <= lows[j];
      } else {
        assert highs[j] <= lows[i];
      }
    }
  }

  lemma ApartIfBelow(t: Tree, lows: seq<nat>, highs: seq<nat>)
    requires BelowApart(t, lows, highs)
    ensures PlacedApart(t)
  {
    forall a, b | Part(t, a).Some? && Part(t, b).Some? && a != b
      ensures Part(t, a).value.0.at != Part(t, b).value.0.at
    {
      hide Part, BelowApart;
      if a != [] {
        ApartBelow(t, lows, highs, a, b);
      } else {
        ApartBelow(t, lows, highs, b, a);
      }
    }
  }

  lemma WithinIfBelow(t: Tree, lows: seq<nat>, highs: seq<nat>, high: nat)
    requires BelowApart(t, lows, highs) && t.at < high && forall i :: 0 <= i < |highs| ==> highs[i] <= high
    ensures Within(t, t.at, high)
  {
    forall route | Part(t, route).Some? ensures t.at <= Part(t, route).value.0.at < high {
      if route == [] {
        assert Part(t, []) == Some((t, []));
      } else {
        PartBelow(t, route);
        var i := route[0];
        assert Within(t.edges[i].1, lows[i], highs[i]) && t.at < lows[i] && highs[i] <= high;
        hide Part;
      }
    }
  }

  lemma {:induction false} ApartWhenPlaced(len: nat, s: Shape, at: nat, next: nat)
    requires at < next
    ensures PlacedApart(PlacedAt(len, s, at, next)) && Within(PlacedAt(len, s, at, next), at, next + SizeFrom(len, s, 0))
    decreases s
  {
    var t := PlacedAt(len, s, at, next);
    var lows := seq(|s.edges|, i requires 0 <= i < |s.edges| => StartOf(len, s, next, i));
    var highs := seq(|s.edges|, i requires 0 <= i < |s.edges| => StartOf(len, s, next, i + 1));
    assert t.at == at && |t.edges| == |s.edges|;
    hide PlacedAt, PlacedApart, Within;
    forall i | 0 <= i < |s.edges|
      ensures PlacedApart(t.edges[i].1) && Within(t.edges[i].1, lows[i], highs[i])
      ensures at < lows[i] && highs[i] <= next + SizeFrom(len, s, 0)
    {
      ApartChild(len, s, at, next, i);
    }
    forall i, j | 0 <= i < j < |s.edges| ensures highs[i] <= lows[j] {
      SizesFall(len, s, i + 1, j);
    }
    hide StartOf, SizeFrom;
    ApartIfBelow(t, lows, highs);
    WithinIfBelow(t, lows, highs, next + SizeFrom(len, s, 0));
  }

  lemma {:induction false} ApartChild(len: nat, s: Shape, at: nat, next: nat, i: nat)
    requires at < next && i < |s.edges|
    ensures |PlacedAt(len, s, at, next).edges| == |s.edges|
    ensures var c := PlacedAt(len, s, at, next).edges[i].1;
            PlacedApart(c) && Within(c, StartOf(len, s, next, i), StartOf(len, s, next, i + 1))
    ensures at < StartOf(len, s, next, i) && StartOf(len, s, next, i + 1) <= next + SizeFrom(len, s, 0)
    decreases s, 0
  {
    hide PlacedApart, Within;
    EdgeOf(len, s, at, next, i);
    var start := StartOf(len, s, next, i);
    ApartWhenPlaced(len, s.edges[i].1, start, start + OwnSize(len, s.edges[i].1));
  }

  // ---- The words ---------------------------------------------------------------------------------

  lemma {:induction false} PlacedWords(len: nat, s: Shape, at: nat, next: nat, w: Bytes)
    ensures IsWord(PlacedAt(len, s, at, next), w) <==> IsWord(s, w)
    decreases s
  {
    var t := PlacedAt(len, s, at, next);
    forall i | 0 <= i < |s.edges|
      ensures t.edges[i].0 == s.edges[i].0
      ensures s.edges[i].0 <= w ==>
                (IsWord(t.edges[i].1, w[|s.edges[i].0|..]) <==> IsWord(s.edges[i].1, w[|s.edges[i].0|..]))
    {
      EdgeOf(len, s, at, next, i);
      var start := StartOf(len, s, next, i);
      if s.edges[i].0 <= w {
        PlacedWords(len, s.edges[i].1, start, start + OwnSize(len, s.edges[i].1), w[|s.edges[i].0|..]);
      }
    }
    hide StartOf, OwnSize;
  }

  // ---- Long enough offsets there are --------------------------------------------------------------

  lemma Scaled(a: nat, b: nat, x: nat, y: nat, len: nat)
    requires a <= x * len && b <= y * len
    ensures a + b <= (x + y) * len
  {
    assert (x + y) * len == x * len + y * len;
  }

  lemma AtLeast(a: nat, len: nat)
    requires len >= 1
    ensures a <= a * len
  {
  }

  lemma {:induction false} EdgesLinear(len: nat, edges: seq<(Bytes, Shape)>)
    requires len >= 1
    ensures EdgesSize(len, edges) <= EdgesSize(1, edges) * len
  {
    if edges != [] {
      EdgesLinear(len, edges[1..]);
      var n := |edges[0].0| + 1;
      AtLeast(n, len);
      Scaled(n, len, n, 1, len);
      Scaled(n + len, EdgesSize(len, edges[1..]), n + 1, EdgesSize(1, edges[1..]), len);
    }
  }

  lemma {:induction false} SizeLinear(len: nat, s: Shape)
    requires len >= 1
    ensures Size(len, s) <= Size(1, s) * len
    decreases s, |s.edges| + 1
  {
    var n := |Uleb(|s.info|)| + |s.info| + 1;
    EdgesLinear(len, s.edges);
    SizeFromLinear(len, s, 0);
    AtLeast(n, len);
    Scaled(n, EdgesSize(len, s.edges), n, EdgesSize(1, s.edges), len);
    Scaled(OwnSize(len, s), SizeFrom(len, s, 0), OwnSize(1, s), SizeFrom(1, s, 0), len);
  }

  lemma {:induction false} SizeFromLinear(len: nat, s: Shape, k: nat)
    requires len >= 1 && k <= |s.edges|
    ensures SizeFrom(len, s, k) <= SizeFrom(1, s, k) * len
    decreases s, |s.edges| - k
  {
    hide Size;
    if k < |s.edges| {
      SizeLinear(len, s.edges[k].1);
      SizeFromLinear(len, s, k + 1);
      Scaled(Size(len, s.edges[k].1), SizeFrom(len, s, k + 1), Size(1, s.edges[k].1), SizeFrom(1, s, k + 1), len);
    }
  }

  lemma {:induction false} PowerGrows(k: nat)
    ensures Power(k) >= (k + 1) * (k + 1)
  {
    if k > 0 {
      PowerGrows(k - 1);
      assert 128 * (k * k) >= (k + 1) * (k + 1);
    }
  }

  lemma Square(n: nat)
    ensures n * (n + 1) <= (n + 1) * (n + 1)
  {
  }

  lemma EnoughBytes(s: Shape) returns (len: nat)
    ensures len >= 1 && Size(len, s) <= Power(len - 1)
  {
    hide *;
    var n := Size(1, s);
    len := n + 1;
    SizeLinear(len, s);
    PowerGrows(n);
    Square(n);
  }

  // ---- The whole trie ----------------------------------------------------------------------------

  lemma StandsAt(before: Bytes, piece: Bytes, after: Bytes)
    ensures Stands(before + piece + after, |before|, piece)
  {
    var s := before + piece + after;
    assert s[|before|..] == piece + after;
  }

  /** The root, room up to the first offset of `len` bytes, and the trees below it. */
  function Trie(len: nat, s: Shape): Bytes
    requires len >= 1
  {
    var t := PlacedAt(len, s, 0, Power(len - 1));
    var own := if |t.edges| < 256 then NodeBytes(t.info, EdgesOf(t.edges)) else [];
    own + seq(if |own| < Power(len - 1) then Power(len - 1) - |own| else 0, _ => 0) + WrittenFrom(t, 0)
  }

  lemma TrieHolds(len: nat, s: Shape)
    requires Writable(s) && len >= 1 && Size(len, s) <= Power(len - 1)
    ensures Holds(Trie(len, s), PlacedAt(len, s, 0, Power(len - 1)))
  {
    var next, trie := Power(len - 1), Trie(len, s);
    var t := PlacedAt(len, s, 0, next);
    assert Power(len) == 128 * Power(len - 1);
    OwnBytesSize(len, s, 0, next);
    var own := NodeBytes(t.info, EdgesOf(t.edges));
    var room: Bytes := seq(next - |own|, _ => 0);
    assert trie == own + room + WrittenFrom(t, 0);
    assert StartOf(len, s, next, 0) == next;
    hide *;
    TrieStands(own, room, WrittenFrom(t, 0));
    HoldsBelow(len, s, 0, next, 0, trie);
    HoldsIf(len, s, 0, next, trie);
  }

  lemma TrieStands(own: Bytes, room: Bytes, below: Bytes)
    ensures Stands(own + room + below, 0, own) && Stands(own + room + below, |own| + |room|, below)
  {
    StandsAt([], own, room + below);
    assert [] + own + (room + below) == own + room + below;
    StandsAt(own + room, below, []);
    assert own + room + below + [] == own + room + below;
  }

  /** Every tree of names has a trie: one that is accepted, and whose names are the tree's. */
  lemma EveryTreeHasATrie(s: Shape) returns (trie: Bytes)
    requires Writable(s)
    ensures TreeShaped(trie) && forall w :: InTrie(trie, w) <==> IsWord(s, w)
  {
    var len := EnoughBytes(s);
    trie := Trie(len, s);
    WrittenWords(len, s);
  }

  lemma WrittenWords(len: nat, s: Shape)
    requires Writable(s) && len >= 1 && Size(len, s) <= Power(len - 1)
    ensures TreeShaped(Trie(len, s)) && forall w :: InTrie(Trie(len, s), w) <==> IsWord(s, w)
  {
    var t, trie := PlacedAt(len, s, 0, Power(len - 1)), Trie(len, s);
    assert t.at == 0;
    hide *;
    TrieHolds(len, s);
    ApartWhenPlaced(len, s, 0, Power(len - 1));
    WrittenReadsBack(trie, t);
    forall w ensures InTrie(trie, w) <==> IsWord(s, w) {
      PlacedWords(len, s, 0, Power(len - 1), w);
    }
  }

  /** What _trie_names returns of a tree written so: its names, spelt byte by byte. */
  method ReadWritten(trie: Bytes, ghost len: nat, ghost s: Shape) returns (names: set<string>)
    requires Writable(s) && len >= 1 && Size(len, s) <= Power(len - 1) && trie == Trie(len, s)
    ensures forall name :: name in names <==> exists w :: IsWord(s, w) && Spells(name, w)
  {
    WrittenWords(len, s);
    hide *;
    var r := TrieNames(trie);
    names := r.value;
  }
}
