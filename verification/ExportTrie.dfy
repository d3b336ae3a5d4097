/**
 scripts/check_native_library.py: what dyld's trie of exported names holds (`_trie_names`). Numbers are unsigned LEB128
 (`_uleb`; DWARF Version 5, section 7.6). A node is the size of what it says of the name that ends there (0 when none
 does), that, the number of its edges, and for each edge its label, a zero byte and the offset of the node it leads to.
 */
module ExportTrie {
  import opened Common

  // ---- Unsigned LEB128 --------------------------------------------------------------------------

  datatype Number = Number(value: nat, size: nat)

  /** The number at the start of `s`, and how many bytes it takes; none when `s` ends before it does. */
  function ReadUleb(s: Bytes): (r: Option<Number>)
    ensures r.Some? ==> 1 <= r.value.size <= |s|
  {
    if s == [] then None
    else if s[0] < 128 then Some(Number(s[0], 1))
    else
      match ReadUleb(s[1..])
      case None => None
      case Some(n) => Some(Number(s[0] - 128 + 128 * n.value, 1 + n.size))
  }

  function Uleb(n: nat): Bytes {
    if n < 128 then [n] else [128 + n % 128] + Uleb(n / 128)
  }

  lemma {:induction false} UlebReadsBack(n: nat, after: Bytes)
    ensures ReadUleb(Uleb(n) + after) == Some(Number(n, |Uleb(n)|))
  {
    var s := Uleb(n) + after;
    if n >= 128 {
      UlebReadsBack(n / 128, after);
      assert s[0] == 128 + n % 128;
      assert s[1..] == Uleb(n / 128) + after;
    }
  }

  function Power(k: nat): (r: nat)
    ensures r >= 1
  {
    if k == 0 then 1 else 128 * Power(k - 1)
  }

  /** What is read once `value` holds the bits below a power, of what the bytes after the first `k` say. */
  function Above(r: Option<Number>, value: nat, power: nat, k: nat): Option<Number> {
    match r
    case None => None
    case Some(n) => Some(Number(value + power * n.value, k + n.size))
  }

  /** _uleb. `value` holds fewer than 7 k bits when the next seven go in at bit 7 k, so to or them in is to add them. */
  method ReadNumber(data: Bytes, pos: nat) returns (r: Option<Number>)
    requires pos <= |data|
    ensures r == ReadUleb(data[pos..])
  {
    var value: nat, k: nat := 0, 0;
    AboveNone(ReadUleb(data[pos..]));
    while true
      invariant pos + k <= |data| && value < Power(k)
      invariant ReadUleb(data[pos..]) == Above(ReadUleb(data[pos + k..]), value, Power(k), k)
      decreases |data| - k
    {
      if pos + k >= |data| {
        return None;
      }
      var byte := data[pos + k];
      NextByte(data, pos + k);
      AboveStep(ReadUleb(data[pos + k + 1..]), value, k, byte);
      hide Above, Power, ReadUleb;
      value := value + byte % 128 * Power(k);
      k := k + 1;
      if byte < 128 {
        return Some(Number(value, k));
      }
    }
  }

  lemma AboveNone(r: Option<Number>)
    ensures Above(r, 0, Power(0), 0) == r
  {
  }

  /** What a byte and the number after it say. */
  function Then(byte: Byte, more: Option<Number>): Option<Number> {
    if byte < 128 then Some(Number(byte, 1))
    else
      match more
      case None => None
      case Some(n) => Some(Number(byte - 128 + 128 * n.value, 1 + n.size))
  }

  lemma NextByte(data: Bytes, pos: nat)
    requires pos < |data|
    ensures ReadUleb(data[pos..]) == Then(data[pos], ReadUleb(data[pos + 1..]))
  {
    assert data[pos..][1..] == data[pos + 1..];
  }

  lemma AboveStep(more: Option<Number>, value: nat, k: nat, byte: Byte)
    requires value < Power(k)
    ensures 0 <= byte % 128 * Power(k) && value + byte % 128 * Power(k) < Power(k + 1)
    ensures byte < 128 ==> Above(Then(byte, more), value, Power(k), k) == Some(Number(value + byte % 128 * Power(k), k + 1))
    ensures byte >= 128 ==> Above(Then(byte, more), value, Power(k), k)
                            == Above(more, value + byte % 128 * Power(k), Power(k + 1), k + 1)
  {
    MoreBits(value, k, byte, match more case None => 0 case Some(n) => n.value);
    hide Power;
  }

  lemma MoreBits(value: nat, k: nat, byte: Byte, more: nat)
    requires value < Power(k)
    ensures value + byte % 128 * Power(k) < Power(k + 1)
    ensures byte < 128 ==> value + Power(k) * byte == value + byte % 128 * Power(k)
    ensures byte >= 128 ==>
      value + Power(k) * (byte - 128 + 128 * more) == value + byte % 128 * Power(k) + Power(k + 1) * more
  {
    var p := Power(k);
    assert byte % 128 <= 127;
    assert byte % 128 * p <= 127 * p;
    if byte >= 128 {
      assert byte % 128 == byte - 128;
      assert p * (byte - 128 + 128 * more) == p * (byte - 128) + 128 * p * more;
    }
  }

  // ---- A node -----------------------------------------------------------------------------------

  datatype Edge = Edge(text: Bytes, child: nat)

  datatype Node = Node(terminal: bool, edges: seq<Edge>)

  /** bytes.find(b"\0"). */
  function FindZero(s: Bytes): (r: Option<nat>)
    ensures r.Some? ==> r.value < |s| && s[r.value] == 0 && forall i :: 0 <= i < r.value ==> s[i] != 0
    ensures r.None? ==> forall i :: 0 <= i < |s| ==> s[i] != 0
  {
    if s == [] then None
    else if s[0] == 0 then Some(0)
    else match FindZero(s[1..]) case None => None case Some(k) => Some(k + 1)
  }

  function ReadEdges(s: Bytes, count: nat): Option<seq<Edge>> {
    if count == 0 then Some([])
    else
      match FindZero(s)
      case None => None
      case Some(k) =>
        match ReadUleb(s[k + 1..])
        case None => None
        case Some(n) =>
          match ReadEdges(s[k + 1 + n.size..], count - 1)
          case None => None
          case Some(more) => Some([Edge(s[..k], n.value)] + more)
  }

  /** The node at an offset of the trie. */
  function ReadNode(trie: Bytes, node: nat): Option<Node> {
    if node >= |trie| then None
    else
      match ReadUleb(trie[node..])
      case None => None
      case Some(n) =>
        var pos := node + n.size + n.value;
        if pos >= |trie| then None
        else
          match ReadEdges(trie[pos + 1..], trie[pos])
          case None => None
          case Some(edges) => Some(Node(n.value != 0, edges))
  }

  // ---- The ways through a trie --------------------------------------------------------------------

  datatype Place = Place(node: nat, prefix: Bytes)

  /** Where the edges of these numbers lead from the root, one after the other, and the labels met on the way. */
  function Follow(trie: Bytes, route: seq<nat>): Option<Place> {
    if route == [] then Some(Place(0, []))
    else
      match Follow(trie, route[..|route| - 1])
      case None => None
      case Some(p) =>
        match ReadNode(trie, p.node)
        case None => None
        case Some(n) =>
          var i := route[|route| - 1];
          if i < |n.edges| then Some(Place(n.edges[i].child, p.prefix + n.edges[i].text)) else None
  }

  predicate Leads(trie: Bytes, route: seq<nat>) {
    Follow(trie, route).Some?
  }

  /** Every way through the trie ends at a node that can be read, and no two at the same. */
  ghost predicate TreeShaped(trie: Bytes) {
    && (forall r :: Leads(trie, r) ==> ReadNode(trie, Follow(trie, r).value.node).Some?)
    && (forall a, b :: Leads(trie, a) && Leads(trie, b) && a != b ==>
          Follow(trie, a).value.node != Follow(trie, b).value.node)
  }

  /** A name ends where the route leads. */
  predicate EndsAt(trie: Bytes, route: seq<nat>) {
    && Leads(trie, route)
    && ReadNode(trie, Follow(trie, route).value.node).Some?
    && ReadNode(trie, Follow(trie, route).value.node).value.terminal
  }

  predicate SpeltBy(trie: Bytes, route: seq<nat>, word: Bytes) {
    EndsAt(trie, route) && Follow(trie, route).value.prefix == word
  }

  /** A name of the trie: the labels from the root to a node where one ends. */
  ghost predicate InTrie(trie: Bytes, word: Bytes) {
    exists route :: SpeltBy(trie, route, word)
  }

  /** bytes.decode("ascii", "replace"). */
  function Decode(s: Bytes): string {
    seq(|s|, i requires 0 <= i < |s| => if s[i] < 128 then s[i] as char else '\U{FFFD}')
  }

  // ---- _trie_names --------------------------------------------------------------------------------

  function Children(edges: seq<Edge>, prefix: Bytes): seq<Place> {
    seq(|edges|, i requires 0 <= i < |edges| => Place(edges[i].child, prefix + edges[i].text))
  }

  function ChildRoutes(route: seq<nat>, n: nat): seq<seq<nat>> {
    seq(n, i => route + [i])
  }

  lemma ChildrenPush(edges: seq<Edge>, e: Edge, prefix: Bytes)
    ensures Children(edges + [e], prefix) == Children(edges, prefix) + [Place(e.child, prefix + e.text)]
  {
  }

  function After(done: seq<Edge>, r: Option<seq<Edge>>): Option<seq<Edge>> {
    match r
    case None => None
    case Some(more) => Some(done + more)
  }

  function NextEdges(e: Edge, r: Option<seq<Edge>>): Option<seq<Edge>> {
    match r
    case None => None
    case Some(more) => Some([e] + more)
  }

  lemma AfterNothing(r: Option<seq<Edge>>)
    ensures After([], r) == r
  {
    assert r.Some? ==> [] + r.value == r.value;
  }

  lemma AfterNext(done: seq<Edge>, e: Edge, r: Option<seq<Edge>>)
    ensures After(done, NextEdges(e, r)) == After(done + [e], r)
  {
    if r.Some? {
      assert done + ([e] + r.value) == done + [e] + r.value;
    }
  }

  /** The edge at an offset, and where it ends. */
  function EdgeAt(trie: Bytes, pos: nat): (r: Option<(Edge, nat)>)
    requires pos <= |trie|
    ensures r.Some? ==> pos < r.value.1 <= |trie|
  {
    match FindZero(trie[pos..])
    case None => None
    case Some(k) =>
      match ReadUleb(trie[pos + k + 1..])
      case None => None
      case Some(n) => Some((Edge(trie[pos..pos + k], n.value), pos + k + 1 + n.size))
  }

  lemma NextEdge(trie: Bytes, pos: nat, count: nat)
    requires pos <= |trie| && count > 0
    ensures EdgeAt(trie, pos) == None ==> ReadEdges(trie[pos..], count) == None
    ensures EdgeAt(trie, pos).Some? ==>
      ReadEdges(trie[pos..], count)
      == NextEdges(EdgeAt(trie, pos).value.0, ReadEdges(trie[EdgeAt(trie, pos).value.1..], count - 1))
  {
    hide FindZero, ReadUleb;
    if FindZero(trie[pos..]).Some? {
      var k := FindZero(trie[pos..]).value;
      assert trie[pos..][k + 1..] == trie[pos + k + 1..] && trie[pos..][..k] == trie[pos..pos + k];
      if ReadUleb(trie[pos + k + 1..]).Some? {
        var size := ReadUleb(trie[pos + k + 1..]).value.size;
        assert trie[pos..][k + 1 + size..] == trie[pos + k + 1 + size..];
      }
    }
  }

  method ReadEdge(trie: Bytes, pos: nat) returns (r: Option<(Edge, nat)>)
    requires pos <= |trie|
    ensures r == EdgeAt(trie, pos)
  {
    hide ReadUleb, FindZero;
    var zero := FindZero(trie[pos..]);
    if zero == None {
      return None;
    }
    var end := pos + zero.value;
    var child := ReadNumber(trie, end + 1);
    if child == None {
      return None;
    }
    r := Some((Edge(trie[pos..end], child.value.value), end + 1 + child.value.size));
  }

  function Pushed(stack: seq<Place>, prefix: Bytes, r: Option<seq<Edge>>): Option<seq<Place>> {
    match r
    case None => None
    case Some(edges) => Some(stack + Children(edges, prefix))
  }

  /** `left` edges are still to be pushed, those from `pos` on. */
  ghost predicate Pushing(trie: Bytes, at: nat, children: nat, prefix: Bytes, stack: seq<Place>, pos: nat, left: nat,
                          done: seq<Edge>, now: seq<Place>)
    requires at <= |trie|
  {
    && pos <= |trie| && now == stack + Children(done, prefix)
    && ReadEdges(trie[at..], children) == After(done, ReadEdges(trie[pos..], left))
  }

  lemma PushingStarts(trie: Bytes, at: nat, children: nat, prefix: Bytes, stack: seq<Place>)
    requires at <= |trie|
    ensures Pushing(trie, at, children, prefix, stack, at, children, [], stack)
  {
    AfterNothing(ReadEdges(trie[at..], children));
    hide ReadEdges;
    assert stack + Children([], prefix) == stack;
  }

  lemma PushingOn(trie: Bytes, at: nat, children: nat, prefix: Bytes, stack: seq<Place>, pos: nat, left: nat,
                  done: seq<Edge>, now: seq<Place>)
    requires at <= |trie| && left > 0 && Pushing(trie, at, children, prefix, stack, pos, left, done, now)
    ensures EdgeAt(trie, pos) == None ==> ReadEdges(trie[at..], children) == None
    ensures EdgeAt(trie, pos).Some? ==>
      var (e, next) := EdgeAt(trie, pos).value;
      Pushing(trie, at, children, prefix, stack, next, left - 1, done + [e], now + [Place(e.child, prefix + e.text)])
  {
    NextEdge(trie, pos, left);
    hide ReadEdges, Children, EdgeAt;
    if EdgeAt(trie, pos).Some? {
      var (e, next) := EdgeAt(trie, pos).value;
      ChildrenPush(done, e, prefix);
      AfterNext(done, e, ReadEdges(trie[next..], left - 1));
    }
  }

  lemma PushingEnds(trie: Bytes, at: nat, children: nat, prefix: Bytes, stack: seq<Place>, pos: nat, done: seq<Edge>,
                    now: seq<Place>)
    requires at <= |trie| && Pushing(trie, at, children, prefix, stack, pos, 0, done, now)
    ensures Pushed(stack, prefix, ReadEdges(trie[at..], children)) == Some(now)
  {
    assert ReadEdges(trie[pos..], 0) == Some([]) && done + [] == done;
    hide ReadEdges, Children;
  }

  /** The edges of a node, pushed on the stack; none when the trie ends first. */
  method PushChildren(trie: Bytes, at: nat, children: nat, prefix: Bytes, stack: seq<Place>) returns (r: Option<seq<Place>>)
    requires at <= |trie|
    ensures r == Pushed(stack, prefix, ReadEdges(trie[at..], children))
  {
    hide ReadEdges, EdgeAt, Pushing, Children;
    var pos: nat, left: nat, now := at, children, stack;
    ghost var done: seq<Edge> := [];
    PushingStarts(trie, at, children, prefix, stack);
    while left > 0
      invariant pos <= |trie| && Pushing(trie, at, children, prefix, stack, pos, left, done, now)
      decreases left
    {
      PushingOn(trie, at, children, prefix, stack, pos, left, done, now);
      var edge := ReadEdge(trie, pos);
      if edge == None {
        return None;
      }
      var (e, next) := edge.value;
      done := done + [e];
      now := now + [Place(e.child, prefix + e.text)];
      pos := next;
      left := left - 1;
    }
    PushingEnds(trie, at, children, prefix, stack, pos, done, now);
    r := Some(now);
  }

  /** The nodes seen so far (`routes`, by the way they were come to) and those waiting (`waiting`) are apart, and there
      is no other way on through the trie. */
  ghost predicate Walking(trie: Bytes, routes: map<nat, seq<nat>>, stack: seq<Place>, waiting: seq<seq<nat>>) {
    && |stack| == |waiting|
    && (forall k :: 0 <= k < |stack| ==> Follow(trie, waiting[k]) == Some(stack[k]))
    && (forall n :: n in routes ==> Leads(trie, routes[n]) && Follow(trie, routes[n]).value.node == n)
    && (forall n :: n in routes ==> ReadNode(trie, n).Some?)
    && Apart(routes.Values, waiting)
    && Covers(trie, routes.Values, waiting)
  }

  ghost predicate Apart(seen: set<seq<nat>>, waiting: seq<seq<nat>>) {
    && (forall k, r :: 0 <= k < |waiting| && r in seen ==> !(waiting[k] <= r))
    && (forall j, k :: 0 <= j < |waiting| && 0 <= k < |waiting| && j != k ==> !(waiting[j] <= waiting[k]))
  }

  ghost predicate Covers(trie: Bytes, seen: set<seq<nat>>, waiting: seq<seq<nat>>) {
    forall r :: Leads(trie, r) ==> r in seen || Awaits(waiting, r)
  }

  predicate Awaits(waiting: seq<seq<nat>>, r: seq<nat>) {
    exists k :: 0 <= k < |waiting| && waiting[k] <= r
  }

  lemma {:induction false} LeadsBack(trie: Bytes, r: seq<nat>, n: nat)
    requires Leads(trie, r) && n <= |r|
    ensures Leads(trie, r[..n])
    decreases |r|
  {
    if n < |r| {
      LeadsBack(trie, r[..|r| - 1], n);
      assert r[..|r| - 1][..n] == r[..n];
    } else {
      assert r[..n] == r;
    }
  }

  lemma FollowOn(trie: Bytes, r: seq<nat>, i: nat)
    requires Leads(trie, r)
    ensures Follow(trie, r + [i]) ==
      match ReadNode(trie, Follow(trie, r).value.node)
      case None => None
      case Some(n) => if i < |n.edges| then Some(Children(n.edges, Follow(trie, r).value.prefix)[i]) else None
  {
    assert (r + [i])[..|r|] == r;
  }

  lemma Offshoot(a: seq<nat>, b: seq<nat>, i: nat)
    requires !(a <= b) && !(b <= a)
    ensures !(a <= b + [i]) && !(b + [i] <= a)
  {
    assert b <= b + [i];
    assert a <= b + [i] ==> a <= b || a == b + [i];
  }

  lemma Siblings(b: seq<nat>, i: nat, j: nat)
    ensures b + [i] <= b + [j] ==> i == j
    ensures !(b + [i] <= b)
  {
    assert (b + [i])[|b|] == i && (b + [j])[|b|] == j;
  }

  lemma Deeper(b: seq<nat>, i: nat, r: seq<nat>)
    ensures b + [i] <= r ==> b <= r
  {
    assert b <= b + [i];
  }

  /** Taking the last of what waits, and adding its children. */
  lemma ApartOn(seen: set<seq<nat>>, waiting: seq<seq<nat>>, last: seq<nat>, n: nat)
    requires Apart(seen, waiting + [last])
    ensures Apart(seen + {last}, waiting + ChildRoutes(last, n)) && last !in seen
  {
    var was, now := waiting + [last], waiting + ChildRoutes(last, n);
    var w := |waiting|;
    assert was[w] == last && forall k :: 0 <= k < w ==> was[k] == waiting[k] == now[k];
    assert forall k :: w <= k < |now| ==> now[k] == last + [k - w];
    forall k, r | 0 <= k < |now| && r in seen + {last} ensures !(now[k] <= r) {
      if k >= w {
        Deeper(last, k - w, r);
        Siblings(last, k - w, 0);
      } else {
        assert !(was[k] <= was[w]);
      }
    }
    forall j, k | 0 <= j < |now| && 0 <= k < |now| && j != k ensures !(now[j] <= now[k]) {
      if j >= w && k >= w {
        Siblings(last, j - w, k - w);
      } else if j >= w {
        assert !(was[k] <= was[w]) && !(was[w] <= was[k]);
        Offshoot(now[k], last, j - w);
      } else if k >= w {
        assert !(was[j] <= was[w]) && !(was[w] <= was[j]);
        Offshoot(now[j], last, k - w);
      } else {
        assert !(was[j] <= was[k]);
      }
    }
  }

  /** A way on from a node goes by one of its edges. */
  lemma NextOnWay(trie: Bytes, last: seq<nat>, r: seq<nat>)
    requires Leads(trie, last) && Leads(trie, r) && last <= r && r != last
    requires ReadNode(trie, Follow(trie, last).value.node).Some?
    ensures |r| > |last| && last + [r[|last|]] <= r
    ensures r[|last|] < |ReadNode(trie, Follow(trie, last).value.node).value.edges|
  {
    hide ReadNode;
    assert |r| == |last| ==> r == last;
    var i := r[|last|];
    assert r[..|last| + 1] == last + [i];
    LeadsBack(trie, r, |last| + 1);
    FollowOn(trie, last, i);
  }

  lemma CoversOn(trie: Bytes, seen: set<seq<nat>>, waiting: seq<seq<nat>>, last: seq<nat>, n: nat)
    requires Covers(trie, seen, waiting + [last]) && Leads(trie, last)
    requires ReadNode(trie, Follow(trie, last).value.node).Some?
    requires n == |ReadNode(trie, Follow(trie, last).value.node).value.edges|
    ensures Covers(trie, seen + {last}, waiting + ChildRoutes(last, n))
  {
    hide ReadNode, Follow;
    var was, now := waiting + [last], waiting + ChildRoutes(last, n);
    forall r | Leads(trie, r) && r !in seen + {last} ensures Awaits(now, r) {
      var k :| 0 <= k < |was| && was[k] <= r;
      if k < |waiting| {
        assert now[k] <= r;
      } else {
        NextOnWay(trie, last, r);
        hide Leads;
        assert now[|waiting| + r[|last|]] <= r;
      }
    }
  }

  lemma ValuesPush(routes: map<nat, seq<nat>>, node: nat, route: seq<nat>)
    requires node !in routes
    ensures routes[node := route].Values == routes.Values + {route}
  {
    var more := routes[node := route];
    assert forall n :: n in routes ==> n in more && more[n] == routes[n];
    assert node in more;
  }

  lemma WalkingStarts(trie: Bytes)
    ensures Walking(trie, map[], [Place(0, [])], [[]])
  {
    forall r | Leads(trie, r) ensures Awaits([[]], r) {
      assert [[]][0] <= r;
    }
  }

  /** A node is taken from the stack, and its children put there. */
  lemma WalkingOn(trie: Bytes, routes: map<nat, seq<nat>>, stack: seq<Place>, waiting: seq<seq<nat>>, p: Place,
                  last: seq<nat>, n: Node)
    requires Walking(trie, routes, stack + [p], waiting + [last]) && p.node !in routes && ReadNode(trie, p.node) == Some(n)
    ensures Walking(trie, routes[p.node := last], stack + Children(n.edges, p.prefix),
                    waiting + ChildRoutes(last, |n.edges|))
  {
    hide ReadNode, Follow, Apart, Covers;
    var stack2, waiting2 := stack + Children(n.edges, p.prefix), waiting + ChildRoutes(last, |n.edges|);
    assert (stack + [p])[|stack|] == p && (waiting + [last])[|waiting|] == last;
    ApartOn(routes.Values, waiting, last, |n.edges|);
    CoversOn(trie, routes.Values, waiting, last, |n.edges|);
    ValuesPush(routes, p.node, last);
    forall k | 0 <= k < |stack2| ensures Follow(trie, waiting2[k]) == Some(stack2[k]) {
      if k < |stack| {
        assert waiting2[k] == (waiting + [last])[k] && stack2[k] == (stack + [p])[k];
      } else {
        FollowOn(trie, last, k - |stack|);
      }
    }
  }

  /** A node that was seen, or whose bytes are no node: the trie is not a tree. */
  lemma WalkingFails(trie: Bytes, routes: map<nat, seq<nat>>, stack: seq<Place>, waiting: seq<seq<nat>>, p: Place,
                     last: seq<nat>)
    requires Walking(trie, routes, stack + [p], waiting + [last])
    requires p.node in routes || ReadNode(trie, p.node) == None
    ensures !TreeShaped(trie)
  {
    hide ReadNode, Follow;
    assert (stack + [p])[|stack|] == p && (waiting + [last])[|waiting|] == last;
    ApartOn(routes.Values, waiting, last, 0);
    assert Leads(trie, last);
    if p.node in routes {
      assert routes[p.node] in routes.Values;
      assert Leads(trie, routes[p.node]);
    }
  }

  /** The names met so far. */
  ghost predicate Met(trie: Bytes, routes: map<nat, seq<nat>>, words: set<Bytes>) {
    && (forall n :: n in routes && EndsAt(trie, routes[n]) ==> Follow(trie, routes[n]).value.prefix in words)
    && (forall w :: w in words ==> InTrie(trie, w))
  }

  lemma MetOn(trie: Bytes, routes: map<nat, seq<nat>>, words: set<Bytes>, p: Place, last: seq<nat>, n: Node)
    requires Met(trie, routes, words) && p.node !in routes && Follow(trie, last) == Some(p)
    requires ReadNode(trie, p.node) == Some(n)
    ensures Met(trie, routes[p.node := last], if n.terminal then words + {p.prefix} else words)
  {
    hide ReadNode, Follow;
    assert n.terminal ==> SpeltBy(trie, last, p.prefix);
  }

  /** Nothing waits: the trie is a tree, and its names are those met. */
  lemma WalkingEnds(trie: Bytes, routes: map<nat, seq<nat>>, words: set<Bytes>)
    requires Walking(trie, routes, [], []) && Met(trie, routes, words)
    ensures TreeShaped(trie) && forall w :: w in words <==> InTrie(trie, w)
  {
    hide ReadNode, Follow;
    forall r | Leads(trie, r) ensures exists n :: n in routes && routes[n] == r && Follow(trie, r).value.node == n {
      assert !Awaits([], r);
      assert r in routes.Values;
    }
    forall w | InTrie(trie, w) ensures w in words {
      var r :| SpeltBy(trie, r, w);
      assert Leads(trie, r);
    }
  }

  function Decoded(words: set<Bytes>): set<string> {
    set w | w in words :: Decode(w)
  }

  lemma DecodedPush(words: set<Bytes>, w: Bytes)
    ensures Decoded(words + {w}) == Decoded(words) + {Decode(w)}
  {
    hide Decode;
  }

  lemma {:induction false} FewNodes(seen: set<nat>, size: nat)
    requires forall n :: n in seen ==> n < size
    ensures |seen| <= size
  {
    if size == 0 {
      assert seen == {};
    } else {
      FewNodes(seen - {size - 1}, size - 1);
    }
  }

  ghost predicate NameOf(trie: Bytes, name: string) {
    exists w :: InTrie(trie, w) && Decode(w) == name
  }

  /** Each byte of ASCII is its character, any other the replacement character. */
  predicate Spells(name: string, w: Bytes) {
    |name| == |w| && forall i :: 0 <= i < |w| ==> name[i] == if w[i] < 128 then w[i] as char else '\U{FFFD}'
  }

  lemma NamesSpell(trie: Bytes, name: string)
    ensures NameOf(trie, name) <==> exists w :: InTrie(trie, w) && Spells(name, w)
  {
    hide InTrie;
    forall w ensures Decode(w) == name <==> Spells(name, w) {
    }
  }

  lemma PastTheEnd(trie: Bytes, node: nat)
    ensures node >= |trie| ==> ReadNode(trie, node) == None
  {
  }

  /** What holds of the loop's variables. */
  ghost predicate State(trie: Bytes, routes: map<nat, seq<nat>>, waiting: seq<seq<nat>>, words: set<Bytes>,
                        names: set<string>, stack: seq<Place>, seen: set<nat>) {
    && Walking(trie, routes, stack, waiting) && Met(trie, routes, words)
    && names == Decoded(words) && seen == routes.Keys && |seen| <= |trie|
    && forall n :: n in seen ==> n < |trie|
  }

  lemma StateStarts(trie: Bytes)
    ensures State(trie, map[], [[]], {}, {}, [Place(0, [])], {})
  {
    WalkingStarts(trie);
  }

  lemma LastOf<T>(s: seq<T>)
    requires s != []
    ensures s == s[..|s| - 1] + [s[|s| - 1]]
  {
  }

  lemma StateFails(trie: Bytes, routes: map<nat, seq<nat>>, waiting: seq<seq<nat>>, words: set<Bytes>,
                   names: set<string>, stack: seq<Place>, seen: set<nat>)
    requires State(trie, routes, waiting, words, names, stack, seen) && stack != []
    requires stack[|stack| - 1].node in seen || ReadNode(trie, stack[|stack| - 1].node) == None
    ensures !TreeShaped(trie)
  {
    hide ReadNode, Met, TreeShaped;
    assert |waiting| == |stack|;
    hide Walking;
    LastOf(stack);
    LastOf(waiting);
    WalkingFails(trie, routes, stack[..|stack| - 1], waiting[..|waiting| - 1], stack[|stack| - 1], waiting[|waiting| - 1]);
  }

  lemma StateOn(trie: Bytes, routes: map<nat, seq<nat>>, waiting: seq<seq<nat>>, words: set<Bytes>, names: set<string>,
                stack: seq<Place>, seen: set<nat>, n: Node, p: Place, last: seq<nat>)
    requires State(trie, routes, waiting + [last], words, names, stack + [p], seen)
    requires p.node !in seen && p.node < |trie| && ReadNode(trie, p.node) == Some(n)
    ensures State(trie, routes[p.node := last], waiting + ChildRoutes(last, |n.edges|),
                  if n.terminal then words + {p.prefix} else words, if n.terminal then names + {Decode(p.prefix)} else names,
                  stack + Children(n.edges, p.prefix), seen + {p.node})
  {
    hide ReadNode, Met, Walking, Decoded, Follow, Children, ChildRoutes, Decode;
    WalkingTop(trie, routes, stack, waiting, p, last);
    WalkingOn(trie, routes, stack, waiting, p, last, n);
    MetOn(trie, routes, words, p, last, n);
    DecodedPush(words, p.prefix);
    assert routes[p.node := last].Keys == seen + {p.node};
    FewNodes(seen + {p.node}, |trie|);
  }

  lemma StateEnds(trie: Bytes, routes: map<nat, seq<nat>>, waiting: seq<seq<nat>>, words: set<Bytes>, names: set<string>,
                  seen: set<nat>)
    requires State(trie, routes, waiting, words, names, [], seen)
    ensures TreeShaped(trie) && forall name :: name in names <==> NameOf(trie, name)
  {
    assert waiting == [];
    WalkingEnds(trie, routes, words);
    hide TreeShaped, InTrie, Walking, Met;
  }

  lemma StateWaits(trie: Bytes, routes: map<nat, seq<nat>>, waiting: seq<seq<nat>>, words: set<Bytes>, names: set<string>,
                   stack: seq<Place>, seen: set<nat>)
    requires State(trie, routes, waiting, words, names, stack, seen)
    ensures |waiting| == |stack| && |seen| <= |trie|
  {
  }

  /** _trie_names: it comes to an end on any bytes; it returns if every node the root leads to can be read and is come to
      in one way only, and then the names are those of the trie. */
  method TrieNames(trie: Bytes) returns (r: Option<set<string>>)
    ensures r.Some? <==> TreeShaped(trie)
    ensures r.Some? ==> forall name :: name in r.value <==> exists w :: InTrie(trie, w) && Spells(name, w)
  {
    forall name ensures NameOf(trie, name) <==> exists w :: InTrie(trie, w) && Spells(name, w) {
      NamesSpell(trie, name);
    }
    hide State, TreeShaped, NameOf, ReadNode, InTrie, Spells;
    var names: set<string>, stack: seq<Place>, seen: set<nat> := {}, [Place(0, [])], {};
    ghost var routes: map<nat, seq<nat>>, waiting: seq<seq<nat>>, words: set<Bytes> := map[], [[]], {};
    StateStarts(trie);
    while stack != []
      invariant State(trie, routes, waiting, words, names, stack, seen)
      decreases |trie| - |seen|
    {
      StateWaits(trie, routes, waiting, words, names, stack, seen);
      var p := stack[|stack| - 1];
      ghost var last := waiting[|waiting| - 1];
      if p.node in seen || p.node >= |trie| {
        PastTheEnd(trie, p.node);
        StateFails(trie, routes, waiting, words, names, stack, seen);
        return None;
      }
      var names2, stack2 := Visit(trie, p, names, stack[..|stack| - 1]);
      ghost var n := ReadNode(trie, p.node);
      if stack2 == None {
        StateFails(trie, routes, waiting, words, names, stack, seen);
        return None;
      }
      LastOf(stack);
      LastOf(waiting);
      StateOn(trie, routes, waiting[..|waiting| - 1], words, names, stack[..|stack| - 1], seen, n.value, p, last);
      names, stack := names2, stack2.value;
      routes := routes[p.node := last];
      waiting := waiting[..|waiting| - 1] + ChildRoutes(last, |n.value.edges|);
      words := if n.value.terminal then words + {p.prefix} else words;
      seen := seen + {p.node};
      StateWaits(trie, routes, waiting, words, names, stack, seen);
    }
    StateEnds(trie, routes, waiting, words, names, seen);
    r := Some(names);
  }

  lemma WalkingTop(trie: Bytes, routes: map<nat, seq<nat>>, stack: seq<Place>, waiting: seq<seq<nat>>, p: Place,
                   last: seq<nat>)
    requires Walking(trie, routes, stack + [p], waiting + [last])
    ensures |waiting| == |stack| && Follow(trie, last) == Some(p)
  {
    hide Follow, Apart, Covers, ReadNode;
    assert (stack + [p])[|stack|] == p && (waiting + [last])[|stack|] == last;
  }

  /** One node of the loop of _trie_names. */
  method Visit(trie: Bytes, p: Place, names: set<string>, stack: seq<Place>)
    returns (names2: set<string>, stack2: Option<seq<Place>>)
    requires p.node < |trie|
    ensures stack2.Some? <==> ReadNode(trie, p.node).Some?
    ensures stack2.Some? ==> var n := ReadNode(trie, p.node).value;
              && names2 == (if n.terminal then names + {Decode(p.prefix)} else names)
              && stack2 == Some(stack + Children(n.edges, p.prefix))
  {
    hide ReadUleb, ReadEdges, Decode, Children;
    names2, stack2 := names, None;
    var terminal := ReadNumber(trie, p.node);
    if terminal == None {
      return;
    }
    if terminal.value.value != 0 {
      names2 := names + {Decode(p.prefix)};
    }
    var pos := p.node + terminal.value.size + terminal.value.value;
    if pos >= |trie| {
      return;
    }
    stack2 := PushChildren(trie, pos + 1, trie[pos], p.prefix, stack);
  }

  // ---- A tree of names written as a trie ---------------------------------------------------------

  /** A tree of names. Each node: where it is written, what is said of the name that ends at it (nothing when none does), and
      its edges. */
  datatype TreeOf<A> = Labelled(at: A, info: Bytes, edges: seq<(Bytes, TreeOf<A>)>)

  type Tree = TreeOf<nat>

  function EdgeBytes(edges: seq<Edge>): Bytes {
    if edges == [] then [] else edges[0].text + [0] + Uleb(edges[0].child) + EdgeBytes(edges[1..])
  }

  function EdgesOf(edges: seq<(Bytes, Tree)>): seq<Edge> {
    seq(|edges|, i requires 0 <= i < |edges| => Edge(edges[i].0, edges[i].1.at))
  }

  /** A node as the format has it. */
  function NodeBytes(info: Bytes, edges: seq<Edge>): Bytes
    requires |edges| < 256
  {
    Uleb(|info|) + info + [|edges|] + EdgeBytes(edges)
  }

  /** `piece` stands in `s` at `pos`. */
  predicate Stands(s: Bytes, pos: nat, piece: Bytes) {
    pos <= |s| && piece <= s[pos..]
  }

  /** The trie holds the tree: each node is written where the tree says. */
  predicate Holds(trie: Bytes, t: Tree) {
    && |t.edges| < 256
    && (forall i :: 0 <= i < |t.edges| ==> 0 !in t.edges[i].0)
    && Stands(trie, t.at, NodeBytes(t.info, EdgesOf(t.edges)))
    && forall i :: 0 <= i < |t.edges| ==> Holds(trie, t.edges[i].1)
  }

  lemma {:induction false} ZeroEndsText(text: Bytes, after: Bytes)
    requires 0 !in text
    ensures FindZero(text + [0] + after) == Some(|text|)
  {
    var s := text + [0] + after;
    if text != [] {
      assert s[0] == text[0] && text[0] in text;
      assert s[1..] == text[1..] + [0] + after;
      ZeroEndsText(text[1..], after);
    }
  }

  lemma OneEdge(s: Bytes, k: nat, n: Number, more: seq<Edge>)
    requires FindZero(s) == Some(k) && ReadUleb(s[k + 1..]) == Some(n)
    requires ReadEdges(s[k + 1 + n.size..], |more|) == Some(more)
    ensures ReadEdges(s, |more| + 1) == Some([Edge(s[..k], n.value)] + more)
  {
    hide FindZero, ReadUleb;
  }

  lemma SplitEdge(text: Bytes, number: Bytes, more: Bytes)
    ensures (text + [0] + (number + more))[..|text|] == text
    ensures (text + [0] + (number + more))[|text| + 1..] == number + more
    ensures (text + [0] + (number + more))[|text| + 1 + |number|..] == more
  {
    var s := text + [0] + (number + more);
    assert s[|text| + 1..][|number|..] == s[|text| + 1 + |number|..];
  }

  lemma FirstEdge(edges: seq<Edge>, after: Bytes)
    requires edges != []
    ensures EdgeBytes(edges) + after
            == edges[0].text + [0] + (Uleb(edges[0].child) + (EdgeBytes(edges[1..]) + after))
  {
    hide Uleb;
  }

  lemma {:induction false} EdgesReadBack(edges: seq<Edge>, after: Bytes)
    requires forall i :: 0 <= i < |edges| ==> 0 !in edges[i].text
    ensures ReadEdges(EdgeBytes(edges) + after, |edges|) == Some(edges)
  {
    hide FindZero, ReadUleb, Uleb;
    if edges != [] {
      EdgesReadBack(edges[1..], after);
      FirstEdge(edges, after);
      hide EdgeBytes, ReadEdges;
      EdgeReadsBack(edges[0], edges[1..], EdgeBytes(edges[1..]) + after);
      assert [edges[0]] + edges[1..] == edges;
    }
  }

  lemma EdgeReadsBack(e: Edge, edges: seq<Edge>, more: Bytes)
    requires 0 !in e.text && ReadEdges(more, |edges|) == Some(edges)
    ensures ReadEdges(e.text + [0] + (Uleb(e.child) + more), |edges| + 1) == Some([e] + edges)
  {
    hide *;
    var number := Uleb(e.child);
    ZeroEndsText(e.text, number + more);
    UlebReadsBack(e.child, more);
    SplitEdge(e.text, number, more);
    OneEdge(e.text + [0] + (number + more), |e.text|, Number(e.child, |number|), edges);
  }

  lemma OneNode(trie: Bytes, at: nat, n: Number, count: Byte, rest: Bytes, edges: seq<Edge>)
    requires at < |trie| && ReadUleb(trie[at..]) == Some(n)
    requires at + n.size + n.value < |trie| && trie[at + n.size + n.value] == count == |edges|
    requires trie[at + n.size + n.value + 1..] == rest && ReadEdges(rest, |edges|) == Some(edges)
    ensures ReadNode(trie, at) == Some(Node(n.value != 0, edges))
  {
    hide ReadEdges, ReadUleb;
  }

  lemma StandsThere(s: Bytes, pos: nat, piece: Bytes)
    requires Stands(s, pos, piece)
    ensures pos + |piece| <= |s| && s[pos..] == piece + s[pos + |piece|..]
  {
  }

  lemma At<T>(s: seq<T>, pos: nat, k: nat)
    requires pos + k < |s|
    ensures s[pos..][k] == s[pos + k] && s[pos..][k + 1..] == s[pos + k + 1..]
  {
  }

  lemma SplitNode(size: Bytes, info: Bytes, count: Byte, rest: Bytes)
    ensures (size + (info + ([count] + rest)))[|size| + |info|] == count
    ensures (size + (info + ([count] + rest)))[|size| + |info| + 1..] == rest
  {
  }

  lemma JoinNode(size: Bytes, info: Bytes, count: Byte, edges: Bytes, after: Bytes)
    ensures size + info + [count] + edges + after == size + (info + ([count] + (edges + after)))
  {
  }

  lemma NodeReadsBack(trie: Bytes, at: nat, info: Bytes, edges: seq<Edge>)
    requires |edges| < 256 && (forall i :: 0 <= i < |edges| ==> 0 !in edges[i].text)
    requires Stands(trie, at, NodeBytes(info, edges))
    ensures ReadNode(trie, at) == Some(Node(info != [], edges))
  {
    var bytes := NodeBytes(info, edges);
    StandsThere(trie, at, bytes);
    var after := trie[at + |bytes|..];
    JoinNode(Uleb(|info|), info, |edges|, EdgeBytes(edges), after);
    hide *;
    EdgesReadBack(edges, after);
    NodeAt(trie, at, info, edges, EdgeBytes(edges) + after);
  }

  lemma NodeAt(trie: Bytes, at: nat, info: Bytes, edges: seq<Edge>, rest: Bytes)
    requires at <= |trie| && |edges| < 256 && trie[at..] == Uleb(|info|) + (info + ([|edges|] + rest))
    requires ReadEdges(rest, |edges|) == Some(edges)
    ensures ReadNode(trie, at) == Some(Node(info != [], edges))
  {
    hide *;
    var size := Uleb(|info|);
    SplitNode(size, info, |edges|, rest);
    UlebReadsBack(|info|, info + ([|edges|] + rest));
    At(trie, at, |size| + |info|);
    OneNode(trie, at, Number(|info|, |size|), |edges|, rest, edges);
  }

  /** The part of a tree a route leads to, and the labels on the way. */
  function Part(t: Tree, route: seq<nat>): Option<(Tree, Bytes)> {
    if route == [] then Some((t, []))
    else
      match Part(t, route[..|route| - 1])
      case None => None
      case Some((u, prefix)) =>
        var i := route[|route| - 1];
        if i < |u.edges| then Some((u.edges[i].1, prefix + u.edges[i].0)) else None
  }

  /** The ways through the trie are those through the tree it holds. */
  lemma {:induction false} FollowsTree(trie: Bytes, t: Tree, route: seq<nat>)
    requires Holds(trie, t) && t.at == 0
    ensures Leads(trie, route) <==> Part(t, route).Some?
    ensures Part(t, route).Some? ==>
      && Holds(trie, Part(t, route).value.0)
      && Follow(trie, route) == Some(Place(Part(t, route).value.0.at, Part(t, route).value.1))
      && ReadNode(trie, Part(t, route).value.0.at).Some?
      && (EndsAt(trie, route) <==> Part(t, route).value.0.info != [])
    decreases |route|
  {
    hide ReadNode, NodeBytes, Stands;
    if route != [] {
      FollowsTree(trie, t, route[..|route| - 1]);
      if Part(t, route[..|route| - 1]).Some? {
        var u := Part(t, route[..|route| - 1]).value.0;
        NodeReadsBack(trie, u.at, u.info, EdgesOf(u.edges));
      }
    }
    if Part(t, route).Some? {
      var u := Part(t, route).value.0;
      NodeReadsBack(trie, u.at, u.info, EdgesOf(u.edges));
    }
  }

  /** The names of a tree. */
  predicate IsWord<A>(t: TreeOf<A>, w: Bytes)
    decreases t
  {
    || (t.info != [] && w == [])
    || exists i :: 0 <= i < |t.edges| && t.edges[i].0 <= w && IsWord(t.edges[i].1, w[|t.edges[i].0|..])
  }

  predicate WordBy(t: Tree, route: seq<nat>, w: Bytes) {
    Part(t, route).Some? && Part(t, route).value.0.info != [] && Part(t, route).value.1 == w
  }

  function Below(text: Bytes, r: Option<(Tree, Bytes)>): Option<(Tree, Bytes)> {
    match r
    case None => None
    case Some((u, prefix)) => Some((u, text + prefix))
  }

  function Step(r: Option<(Tree, Bytes)>, i: nat): Option<(Tree, Bytes)> {
    match r
    case None => None
    case Some((u, prefix)) => if i < |u.edges| then Some((u.edges[i].1, prefix + u.edges[i].0)) else None
  }

  lemma StepBelow(text: Bytes, r: Option<(Tree, Bytes)>, i: nat)
    ensures Step(Below(text, r), i) == Below(text, Step(r, i))
  {
    if r.Some? && i < |r.value.0.edges| {
      assert text + r.value.1 + r.value.0.edges[i].0 == text + (r.value.1 + r.value.0.edges[i].0);
    }
  }

  lemma PartPush(t: Tree, route: seq<nat>, i: nat)
    ensures Part(t, route + [i]) == Step(Part(t, route), i)
  {
    assert (route + [i])[..|route|] == route;
  }

  /** A route from a child of the root, from the root. */
  lemma {:induction false} PartOfChild(t: Tree, i: nat, route: seq<nat>)
    requires i < |t.edges|
    ensures Part(t, [i] + route) == Below(t.edges[i].0, Part(t.edges[i].1, route))
    decreases |route|
  {
    if route == [] {
      PartPush(t, [], i);
      assert [i] + [] == [] + [i];
      assert t.edges[i].0 + [] == [] + t.edges[i].0;
    } else {
      var init, j := route[..|route| - 1], route[|route| - 1];
      assert route == init + [j] && [i] + route == ([i] + init) + [j];
      PartOfChild(t, i, init);
      PartPush(t, [i] + init, j);
      PartPush(t.edges[i].1, init, j);
      StepBelow(t.edges[i].0, Part(t.edges[i].1, init), j);
    }
  }

  lemma {:induction false} WordsByRoutes(t: Tree, w: Bytes)
    ensures IsWord(t, w) <==> exists route :: WordBy(t, route, w)
    decreases t
  {
    if IsWord(t, w) {
      if t.info != [] && w == [] {
        assert WordBy(t, [], w);
      } else {
        var i :| 0 <= i < |t.edges| && t.edges[i].0 <= w && IsWord(t.edges[i].1, w[|t.edges[i].0|..]);
        WordsByRoutes(t.edges[i].1, w[|t.edges[i].0|..]);
        var route :| WordBy(t.edges[i].1, route, w[|t.edges[i].0|..]);
        PartOfChild(t, i, route);
        assert WordBy(t, [i] + route, w);
      }
    }
    forall route | WordBy(t, route, w) ensures IsWord(t, w) {
      if route != [] {
        var i, more := route[0], route[1..];
        assert route == [i] + more;
        FirstStep(t, route);
        PartOfChild(t, i, more);
        var w2 := w[|t.edges[i].0|..];
        assert WordBy(t.edges[i].1, more, w2);
        WordsByRoutes(t.edges[i].1, w2);
      }
    }
  }

  lemma {:induction false} FirstStep(t: Tree, route: seq<nat>)
    requires route != [] && Part(t, route).Some?
    ensures route[0] < |t.edges|
    decreases |route|
  {
    if |route| > 1 {
      FirstStep(t, route[..|route| - 1]);
    }
  }

  /** No two nodes of the tree are written at the same offset. */
  ghost predicate PlacedApart(t: Tree) {
    forall a, b :: Part(t, a).Some? && Part(t, b).Some? && a != b ==> Part(t, a).value.0.at != Part(t, b).value.0.at
  }

  /** A tree written as a trie: it is accepted if its nodes are apart, and its names are those of the tree. */
  lemma WrittenReadsBack(trie: Bytes, t: Tree)
    requires Holds(trie, t) && t.at == 0
    ensures TreeShaped(trie) <==> PlacedApart(t)
    ensures forall w :: InTrie(trie, w) <==> IsWord(t, w)
  {
    forall r {
      FollowsTree(trie, t, r);
    }
    hide Follow, Part, ReadNode, Holds;
    forall w ensures InTrie(trie, w) <==> IsWord(t, w) {
      WordsByRoutes(t, w);
      assert forall r :: SpeltBy(trie, r, w) <==> WordBy(t, r, w);
    }
  }
}
