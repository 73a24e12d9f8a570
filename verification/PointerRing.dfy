/** The pointer-chase rings of the memory-latency benchmarks and the panel order
    of the prefetch benchmark: permutations built in place, linked into a ring,
    and chased. */
module PointerRing {
  import opened BitArithmetic

  const STRIDE: nat := 64   // kStride, kLine

  // ---------- Permutations ----------

  predicate Permutation(s: seq<nat>) {
    && (forall i :: 0 <= i < |s| ==> s[i] < |s|)
    && (forall i, j :: 0 <= i < j < |s| ==> s[i] != s[j])
  }

  function Identity(n: nat): (s: seq<nat>)
    ensures |s| == n && Permutation(s)
  {
    seq(n, i requires 0 <= i < n => i)
  }

  function Swapped<T>(s: seq<T>, i: nat, j: nat): (r: seq<T>)
    requires i < |s| && j < |s|
    ensures |r| == |s|
  {
    s[i := s[j]][j := s[i]]
  }

  lemma SwapPermutes(s: seq<nat>, i: nat, j: nat)
    requires Permutation(s) && i < |s| && j < |s|
    ensures Permutation(Swapped(s, i, j))
  {
    var r := Swapped(s, i, j);
    forall x | 0 <= x < |r| ensures r[x] < |r| {}
    forall x, y | 0 <= x < y < |r| ensures r[x] != r[y] {
      var x' := if x == i then j else if x == j then i else x;
      var y' := if y == i then j else if y == j then i else y;
      assert r[x] == s[x'] && r[y] == s[y'] && x' != y';
      assert x' < y' || y' < x';
    }
  }

  function Values(s: seq<nat>): (r: set<nat>)
    ensures forall x: nat :: x in r <==> x in s
  {
    set x: nat | x in s
  }

  /** The values of a sequence without repetition are as many as its places. */
  lemma {:induction false} DistinctCount(s: seq<nat>)
    requires forall i, j :: 0 <= i < j < |s| ==> s[i] != s[j]
    ensures |Values(s)| == |s|
  {
    if s == [] {
      assert Values(s) == {};
    } else {
      var t, last := s[..|s| - 1], s[|s| - 1];
      DistinctCount(t);
      assert last !in Values(t);
      assert Values(s) == Values(t) + {last};
    }
  }

  function Below(n: nat): (r: set<nat>)
    ensures |r| == n && forall x: nat :: x in r <==> x < n
  {
    if n == 0 then {} else Below(n - 1) + {n - 1}
  }

  lemma SubsetOfSameSize<T>(a: set<T>, b: set<T>)
    requires a <= b && |a| == |b|
    ensures a == b
  {
    if a != b {
      var x :| x in b && x !in a;
      SubsetSize(a, b - {x});
    }
  }

  lemma {:induction false} SubsetSize<T>(a: set<T>, b: set<T>)
    requires a <= b
    ensures |a| <= |b|
  {
    if a != {} {
      var x :| x in a;
      SubsetSize(a - {x}, b - {x});
    }
  }

  /** A permutation takes every value. */
  lemma PermutationOnto(s: seq<nat>, v: nat) returns (i: nat)
    requires Permutation(s) && v < |s|
    ensures i < |s| && s[i] == v
  {
    DistinctCount(s);
    SubsetOfSameSize(Values(s), Below(|s|));
    assert v in Below(|s|);
    i :| 0 <= i < |s| && s[i] == v;
  }

  // ---------- Shuffles ----------

  method Swap<T>(a: array<T>, i: nat, j: nat)
    requires i < a.Length && j < a.Length
    modifies a
    ensures a[..] == Swapped(old(a[..]), i, j)
  {
    a[i], a[j] := a[j], a[i];
  }

  /** One place for each swap: place `i` changes with one not above it. */
  predicate Choice(c: seq<nat>) {
    forall i :: 0 <= i < |c| ==> c[i] <= i
  }

  /** Places `i`, `i - 1`, down to 1, each swapped with its chosen place. */
  function ShuffleDown(s: seq<nat>, i: nat, c: seq<nat>): (r: seq<nat>)
    requires i < |s| == |c| && Choice(c)
    ensures |r| == |s|
    decreases i
  {
    if i == 0 then s else ShuffleDown(Swapped(s, i, c[i]), i - 1, c)
  }

  /** The order that the choices `c` make of the identity. */
  function Shuffled(c: seq<nat>): (r: seq<nat>)
    requires c != [] && Choice(c)
    ensures |r| == |c|
  {
    ShuffleDown(Identity(|c|), |c| - 1, c)
  }

  lemma {:induction false} ShuffleKeeps(s: seq<nat>, i: nat, c: seq<nat>, x: nat)
    requires i < x < |s| == |c| && Choice(c)
    ensures ShuffleDown(s, i, c)[x] == s[x]
    decreases i
  {
    if i > 0 { ShuffleKeeps(Swapped(s, i, c[i]), i - 1, c, x); }
  }

  lemma {:induction false} ShufflePermutes(s: seq<nat>, i: nat, c: seq<nat>)
    requires i < |s| == |c| && Choice(c) && Permutation(s)
    ensures Permutation(ShuffleDown(s, i, c))
    decreases i
  {
    if i > 0 {
      SwapPermutes(s, i, c[i]);
      ShufflePermutes(Swapped(s, i, c[i]), i - 1, c);
    }
  }

  /** The next swap. */
  lemma ShuffleStep(s: seq<nat>, i: nat, c: seq<nat>)
    requires 0 < i < |s| == |c| && Choice(c)
    ensures ShuffleDown(s, i, c) == ShuffleDown(Swapped(s, i, c[i]), i - 1, c)
  {}

  /** The place that is swapped first is settled: it holds what its choice held. */
  lemma FirstSettled(s: seq<nat>, i: nat, c: seq<nat>)
    requires 0 < i < |s| == |c| && Choice(c)
    ensures ShuffleDown(s, i, c)[i] == s[c[i]]
  {
    hide ShuffleDown;
    ShuffleStep(s, i, c);
    ShuffleKeeps(Swapped(s, i, c[i]), i - 1, c, i);
  }

  lemma {:induction false} SameChoices(s: seq<nat>, i: nat, c: seq<nat>, d: seq<nat>)
    requires i < |s| == |c| == |d| && Choice(c) && Choice(d) && Permutation(s)
    requires ShuffleDown(s, i, c) == ShuffleDown(s, i, d)
    ensures forall x :: 0 <= x <= i ==> c[x] == d[x]
    decreases i
  {
    if i > 0 {
      FirstSettled(s, i, c);
      FirstSettled(s, i, d);
      Distinct(s, c[i], d[i]);
      SwapPermutes(s, i, c[i]);
      SameChoices(Swapped(s, i, c[i]), i - 1, c, d);
    }
  }

  lemma Distinct(s: seq<nat>, i: nat, j: nat)
    requires Permutation(s) && i < |s| && j < |s| && s[i] == s[j]
    ensures i == j
  {}

  lemma {:induction false} OnlyBelow(s: seq<nat>, i: nat, c: seq<nat>, d: seq<nat>)
    requires i < |s| == |c| == |d| && Choice(c) && Choice(d) && forall x :: 0 <= x <= i ==> c[x] == d[x]
    ensures ShuffleDown(s, i, c) == ShuffleDown(s, i, d)
    decreases i
  {
    if i > 0 { OnlyBelow(Swapped(s, i, c[i]), i - 1, c, d); }
  }

  lemma NotAbove(s: seq<nat>, t: seq<nat>, i: nat, j: nat)
    requires i < |s| == |t| && j < |s| && Permutation(t) && s[i + 1..] == t[i + 1..] && s[j] == t[i]
    ensures j <= i
  {
    forall k | i < k < |s| ensures s[k] == t[k] { assert s[i + 1..][k - i - 1] == t[i + 1..][k - i - 1]; }
  }

  /** Once place `i` holds its value the tails from `i` on agree. */
  lemma TailGrows(s: seq<nat>, t: seq<nat>, i: nat, j: nat)
    requires i < |s| == |t| && j <= i && s[i + 1..] == t[i + 1..] && s[j] == t[i]
    ensures Swapped(s, i, j)[i..] == t[i..]
  {
    var next := Swapped(s, i, j);
    assert next[i..] == [t[i]] + s[i + 1..] && t[i..] == [t[i]] + t[i + 1..];
  }

  lemma {:induction false} ChoicesReach(s: seq<nat>, t: seq<nat>, i: nat) returns (c: seq<nat>)
    requires i < |s| == |t| && Permutation(s) && Permutation(t) && s[i + 1..] == t[i + 1..]
    ensures |c| == |s| && Choice(c) && ShuffleDown(s, i, c) == t
    decreases i
  {
    var j := PermutationOnto(s, t[i]);
    NotAbove(s, t, i, j);
    if i == 0 {
      c := seq(|s|, _ => 0);
      TailGrows(s, t, 0, 0);
      assert Swapped(s, 0, 0) == s && s[0..] == s && t[0..] == t;
    } else {
      hide Permutation, Swapped;
      var next := Swapped(s, i, j);
      SwapPermutes(s, i, j);
      TailGrows(s, t, i, j);
      var below := ChoicesReach(next, t, i - 1);
      c := below[i := j];
      ChoiceAdded(s, t, i, j, below);
    }
  }

  lemma ChoiceAdded(s: seq<nat>, t: seq<nat>, i: nat, j: nat, below: seq<nat>)
    requires 0 < i < |s| == |t| == |below| && j <= i && Choice(below)
    requires ShuffleDown(Swapped(s, i, j), i - 1, below) == t
    ensures Choice(below[i := j]) && ShuffleDown(s, i, below[i := j]) == t
  {
    OnlyBelow(Swapped(s, i, j), i - 1, below, below[i := j]);
  }

  /** Every permutation comes from one choice of places, and from no other: draws
      that are equally likely make all orders equally likely. */
  lemma ShuffleOneToOne(t: seq<nat>) returns (c: seq<nat>)
    requires t != [] && Permutation(t)
    ensures |c| == |t| && Choice(c) && Shuffled(c) == t
    ensures forall d: seq<nat> :: |d| == |t| && Choice(d) && Shuffled(d) == t ==> d == c
  {
    hide Permutation, ShuffleDown, Choice;
    var n := |t|;
    assert Identity(n)[n..] == t[n..];
    c := ChoicesReach(Identity(n), t, n - 1);
    forall d: seq<nat> | |d| == |t| && Choice(d) && Shuffled(d) == t ensures d == c { OneChoice(c, d); }
  }

  lemma OneChoice(c: seq<nat>, d: seq<nat>)
    requires c != [] && |c| == |d| && Choice(c) && Choice(d) && Shuffled(c) == Shuffled(d)
    ensures c == d
  {
    SameChoices(Identity(|c|), |c| - 1, c, d);
  }

  /** Four nodes and draws that are all zero: the order is rotated by one. */
  lemma ZeroDrawsRotate()
    ensures Shuffled([0, 0, 0, 0]) == [1, 2, 3, 0]
  {
    var c := [0, 0, 0, 0];
    assert Identity(4) == [0, 1, 2, 3];
    assert Swapped([0, 1, 2, 3], 3, 0) == [3, 1, 2, 0] && Swapped([3, 1, 2, 0], 2, 0) == [2, 1, 3, 0]
           && Swapped([2, 1, 3, 0], 1, 0) == [1, 2, 3, 0];
    assert ShuffleDown([1, 2, 3, 0], 0, c) == [1, 2, 3, 0];
    assert ShuffleDown([2, 1, 3, 0], 1, c) == [1, 2, 3, 0];
    assert ShuffleDown([3, 1, 2, 0], 2, c) == [1, 2, 3, 0];
    assert ShuffleDown([0, 1, 2, 3], 3, c) == [1, 2, 3, 0];
  }

  /** The in-place shuffle, for any stream of random draws: the order starts as
      the identity, and the swap of place `i` takes the draw modulo `i + 1`. */
  method ShuffledOrder(nodes: nat, draws: nat -> nat) returns (order: array<nat>, ghost c: seq<nat>)
    requires nodes > 0
    ensures fresh(order) && order.Length == nodes && Permutation(order[..])
    ensures |c| == nodes && Choice(c) && forall i :: 0 <= i < nodes ==> c[i] == draws(i) % (i + 1)
    ensures order[..] == Shuffled(c) && order[nodes - 1] == draws(nodes - 1) % nodes
  {
    hide Permutation, ShuffleDown, Swapped;
    c := seq(nodes, i requires 0 <= i < nodes => draws(i) % (i + 1));
    order := new nat[nodes](i => i);
    assert order[..] == Identity(nodes);
    var i := nodes - 1;
    while i > 0
      invariant i < nodes && ShuffleDown(order[..], i, c) == Shuffled(c)
    {
      var j := draws(i) % (i + 1);
      ShuffleStep(order[..], i, c);
      Swap(order, i, j);
      i := i - 1;
    }
    ShuffleEnds(order[..], c);
  }

  lemma ShuffleEnds(s: seq<nat>, c: seq<nat>)
    requires c != [] && |s| == |c| && Choice(c) && ShuffleDown(s, 0, c) == Shuffled(c)
    ensures s == Shuffled(c) && Permutation(s) && s[|s| - 1] == c[|s| - 1]
  {
    ShufflePermutes(Identity(|c|), |c| - 1, c);
    if |c| > 1 { FirstSettled(Identity(|c|), |c| - 1, c); }
  }

  // ---------- The ring ----------

  /** Node `order[i]` holds the absolute address of the next node of the order. */
  ghost predicate Linked(links: seq<nat>, base: nat, order: seq<nat>) {
    && |links| == |order| && Permutation(order)
    && forall i :: 0 <= i < |order| ==> links[order[i]] == Address(base, order[Next(|order|, i)])
  }

  function Address(base: nat, node: nat): nat { base + node * STRIDE }

  /** `(i + 1) % n`. */
  function Next(n: nat, i: nat): (r: nat)
    requires i < n
    ensures r < n
  {
    if i + 1 == n then 0 else i + 1
  }

  lemma NextIsModulo(n: nat, i: nat)
    requires i < n
    ensures Next(n, i) == (i + 1) % n
  {
    if i + 1 == n { ModUnique(n, n, 1, 0); } else { ModUnique(i + 1, n, 0, i + 1); }
  }

  /** The link loop: each node is written once, so no link is overwritten. */
  method BuildRing(links: array<nat>, base: nat, order: array<nat>)
    requires links.Length == order.Length && Permutation(order[..]) && links != order
    modifies links
    ensures Linked(links[..], base, order[..])
    ensures forall k: nat :: k < order.Length ==>
              LinkAt(links[..], base, order[..], k)
  {
    var n := order.Length;
    for i := 0 to n
      invariant forall k :: 0 <= k < i ==> links[order[k]] == Address(base, order[Next(n, k)])
    {
      ghost var s := order[..];
      assert forall k :: 0 <= k < i ==> s[k] != s[i];
      NextIsModulo(n, i);
      var from, to := order[i], order[(i + 1) % n];
      links[from] := base + to * STRIDE;
    }
    forall k: nat | k < n ensures LinkAt(links[..], base, order[..], k) { NextIsModulo(n, k); }
  }

  /** Node `order[k]`, 64 bytes a node, holds the address of node `order[k + 1]`,
      the last one that of `order[0]`. */
  ghost predicate LinkAt(links: seq<nat>, base: nat, order: seq<nat>, k: nat)
    requires k < |order|
  {
    order[k] < |links| && links[order[k]] == base + 64 * order[(k + 1) % |order|]
  }

  /** Loads the word at `p`, which is the address of a node. */
  method Load(links: array<nat>, base: nat, p: nat, ghost node: nat) returns (q: nat)
    requires node < links.Length && p == Address(base, node)
    ensures q == links[node]
  {
    q := links[(p - base) / STRIDE];
  }

  /** Iterations of the chase loop: it decrements before it tests, so a count of
      zero would go all the way round the 64-bit counter. */
  function Loads(steps: nat): (r: nat)
    requires steps < WORD
    ensures r >= 1
  {
    if steps == 0 then WORD else steps
  }

  /** `chase`: from the node at place `j` of the order, the node `Loads(steps)`
      places on, round the ring. */
  method Chase(links: array<nat>, base: nat, start: nat, steps: nat, ghost order: seq<nat>, ghost j: nat)
    returns (p: nat)
    requires Linked(links[..], base, order) && j < |order| && start == Address(base, order[j]) && steps < WORD
    ensures p == Address(base, order[(j + Loads(steps)) % |order|])
    ensures steps > 0 ==> p == base + 64 * order[(j + steps) % |order|]
  {
    ghost var n, taken: nat := |order|, 1;
    p := Load(links, base, start, order[j]);
    var count: nat := WrapSub(steps, 1);
    while count != 0
      invariant taken >= 1 && p == Address(base, order[PlaceAfter(n, j, taken)])
      invariant count < WORD && taken + count == Loads(steps)
      decreases count
    {
      p := Load(links, base, p, order[PlaceAfter(n, j, taken)]);
      taken := taken + 1;
      count := WrapSub(count, 1);
    }
    PlaceAfterIs(n, j, taken);
  }

  /** The place `taken` steps on from place `j`. */
  function PlaceAfter(n: nat, j: nat, taken: nat): (r: nat)
    requires j < n
    ensures r < n
  {
    if taken == 0 then j else Next(n, PlaceAfter(n, j, taken - 1))
  }

  lemma {:induction false} PlaceAfterIs(n: nat, j: nat, taken: nat)
    requires j < n
    ensures PlaceAfter(n, j, taken) == (j + taken) % n
  {
    if taken == 0 {
      ModUnique(j, n, 0, j);
    } else {
      PlaceAfterIs(n, j, taken - 1);
      NextResidue(n, j + taken - 1);
    }
  }

  lemma NextResidue(n: nat, x: nat)
    requires n > 0
    ensures Next(n, x % n) == (x + 1) % n
  {
    var q, r := x / n, x % n;
    assert x == n * q + r;
    if r + 1 < n {
      ModUnique(x + 1, n, q, r + 1);
    } else {
      assert n * (q + 1) == n * q + n;
      ModUnique(x + 1, n, q + 1, 0);
    }
  }

  // ---------- One cycle through all nodes ----------

  /** The node reached after `s` steps from place `j`. */
  function Reached(order: seq<nat>, j: nat, s: nat): nat
    requires j < |order|
  {
    order[(j + s) % |order|]
  }

  /** The chase meets a node again exactly when the step counts agree modulo the
      number of nodes: fewer than `nodes` steps never repeat a node. */
  lemma RepeatsOnlyAfterAll(order: seq<nat>, j: nat, s: nat, t: nat)
    requires Permutation(order) && j < |order|
    ensures Reached(order, j, s) == Reached(order, j, t) <==> s % |order| == t % |order|
  {
    var n := |order|;
    var x, y := (j + s) % n, (j + t) % n;
    assert x == y <==> s % n == t % n by { SameResidue(n, j, s, t); }
    if x < y { assert order[x] != order[y]; } else if y < x { assert order[y] != order[x]; }
  }

  lemma Residue(n: nat, j: nat, s: nat)
    requires j < n
    ensures (j + s) % n == if j + s % n < n then j + s % n else j + s % n - n
  {
    var q, r := s / n, s % n;
    assert s == n * q + r;
    if j + r < n { ModUnique(j + s, n, q, j + r); } else { ModUnique(j + s, n, q + 1, j + r - n); }
  }

  lemma SameResidue(n: nat, j: nat, s: nat, t: nat)
    requires j < n
    ensures (j + s) % n == (j + t) % n <==> s % n == t % n
  {
    Residue(n, j, s);
    Residue(n, j, t);
    assert 0 <= s % n < n && 0 <= t % n < n;
  }

  /** Every node is met within one round. */
  lemma VisitsEveryNode(order: seq<nat>, j: nat, node: nat) returns (s: nat)
    requires Permutation(order) && j < |order| && node < |order|
    ensures s < |order| && Reached(order, j, s) == node
  {
    var i := PermutationOnto(order, node);
    s := if j <= i then i - j else i + |order| - j;
    if j <= i { ModUnique(j + s, |order|, 0, i); } else { ModUnique(j + s, |order|, 1, i); }
  }

  // ---------- The panel order ----------

  /** The order holds, panel by panel, the byte offsets of the permutation. */
  ghost predicate Offsets(order: seq<nat>, panels: seq<nat>, bytes: nat) {
    |order| == |panels| && Permutation(panels) && forall i :: 0 <= i < |order| ==> order[i] == panels[i] * bytes
  }

  /** Shuffles the panel offsets, counting down from the whole order: the same
      shuffle, the swap of place `i` taking the draw numbered `i + 1`. */
  method ShuffledPanels(count: nat, bytes: nat, draws: nat -> nat)
    returns (order: array<nat>, ghost panels: seq<nat>, ghost c: seq<nat>)
    ensures fresh(order) && order.Length == count && Offsets(order[..], panels, bytes)
    ensures |c| == count && Choice(c) && forall i :: 0 <= i < count ==> c[i] == draws(i + 1) % (i + 1)
    ensures count > 0 ==> panels == Shuffled(c) && panels[count - 1] == draws(count) % count
  {
    hide Permutation, ShuffleDown, Swapped;
    c := seq(count, i requires 0 <= i < count => draws(i + 1) % (i + 1));
    order := new nat[count](i => i * bytes);
    panels := Identity(count);
    var i := count;
    while i > 1
      invariant i <= count && Offsets(order[..], panels, bytes) && order.Length == count
      invariant count > 0 ==> i > 0 && ShuffleDown(panels, i - 1, c) == Shuffled(c)
    {
      var j := draws(i) % i;
      ShuffleStep(panels, i - 1, c);
      SwapOffsets(order[..], panels, bytes, i - 1, j);
      Swap(order, i - 1, j);
      panels := Swapped(panels, i - 1, j);
      i := i - 1;
    }
    if count > 0 { ShuffleEnds(panels, c); }
  }

  lemma SwapOffsets(order: seq<nat>, panels: seq<nat>, bytes: nat, i: nat, j: nat)
    requires Offsets(order, panels, bytes) && i < |order| && j < |order|
    ensures Offsets(Swapped(order, i, j), Swapped(panels, i, j), bytes)
  {
    SwapPermutes(panels, i, j);
  }

  /** `std::find` from `from` on. */
  method Find(order: array<nat>, from: nat, wanted: nat, ghost place: nat) returns (found: nat)
    requires from <= place < order.Length && order[place] == wanted
    ensures from <= found < order.Length && order[found] == wanted
  {
    found := from;
    while order[found] != wanted
      invariant from <= found <= place
      decreases place - found
    {
      found := found + 1;
    }
  }

  const PREFIX: seq<nat> := [37, 4, 81]

  /** The first `position` places hold the requested panels. */
  ghost predicate PrefixFixed(panels: seq<nat>, position: nat) {
    position <= 3 && position <= |panels| && forall i :: 0 <= i < position ==> panels[i] == PREFIX[i]
  }

  function PlaceOf(s: seq<nat>, v: nat): (i: nat)
    requires v in s
    ensures i < |s| && s[i] == v
  {
    if s[0] == v then 0 else 1 + PlaceOf(s[1..], v)
  }

  /** Value `v` and the value at place `position` change places. */
  function BroughtTo(s: seq<nat>, position: nat, v: nat): (r: seq<nat>)
    requires position < |s| && v in s
    ensures |r| == |s| && forall x :: x in s ==> x in r
  {
    var place := PlaceOf(s, v);
    SwapKeepsValues(s, position, place);
    Swapped(s, position, place)
  }

  lemma SwapKeepsValues(s: seq<nat>, i: nat, j: nat)
    requires i < |s| && j < |s|
    ensures forall x :: x in s ==> x in Swapped(s, i, j)
  {
    forall x | x in s ensures x in Swapped(s, i, j) {
      var k :| 0 <= k < |s| && s[k] == x;
      assert Swapped(s, i, j)[if k == i then j else if k == j then i else k] == x;
    }
  }

  ghost predicate HasPrefix(panels: seq<nat>) {
    |panels| > 81 && forall i :: 0 <= i < 3 ==> PREFIX[i] in panels
  }

  ghost function PrefixSwaps(panels: seq<nat>, n: nat): (r: seq<nat>)
    requires HasPrefix(panels) && n <= 3
    ensures HasPrefix(r) && |r| == |panels|
  {
    if n == 0 then panels else BroughtTo(PrefixSwaps(panels, n - 1), n - 1, PREFIX[n - 1])
  }

  lemma PanelsHavePrefix(panels: seq<nat>)
    requires Permutation(panels) && |panels| > 81
    ensures HasPrefix(panels)
  {
    forall i | 0 <= i < 3 ensures PREFIX[i] in panels { var k := PermutationOnto(panels, PREFIX[i]); }
  }

  /** The prefix swaps: with more than 81 panels every wanted panel is found at or
      after its position, the order stays a permutation of the offsets, and the
      first three panels are 37, 4 and 81, each brought there by one swap. */
  method FixPrefix(order: array<nat>, bytes: nat, ghost panels: seq<nat>) returns (ghost fixed: seq<nat>)
    requires bytes > 0 && Offsets(order[..], panels, bytes)
    modifies order
    ensures Offsets(order[..], fixed, bytes)
    ensures order.Length <= 81 ==> fixed == panels
    ensures order.Length > 81 ==> PrefixFixed(fixed, 3)
    ensures order.Length > 81 ==>
              37 in panels && 4 in BroughtTo(panels, 0, 37) && 81 in BroughtTo(BroughtTo(panels, 0, 37), 1, 4)
              && fixed == BroughtTo(BroughtTo(BroughtTo(panels, 0, 37), 1, 4), 2, 81)
  {
    fixed := panels;
    if order.Length > 81 {
      hide Permutation, PrefixSwaps, BroughtTo, Swapped;
      PanelsHavePrefix(panels);
      for position := 0 to 3
        invariant Offsets(order[..], fixed, bytes) && PrefixFixed(fixed, position)
        invariant fixed == PrefixSwaps(panels, position)
      {
        var wanted := PREFIX[position] * bytes;
        ghost var place := PermutationOnto(fixed, PREFIX[position]);
        var found := Find(order, position, wanted, place);
        PrefixStep(order[..], panels, fixed, bytes, position, found);
        Swap(order, position, found);
        fixed := Swapped(fixed, position, found);
      }
      ThreeSwaps(panels);
    }
  }

  lemma PrefixStep(order: seq<nat>, panels: seq<nat>, fixed: seq<nat>, bytes: nat, position: nat, found: nat)
    requires bytes > 0 && HasPrefix(panels) && position < 3 && position <= found < |order|
    requires Offsets(order, fixed, bytes) && PrefixFixed(fixed, position) && fixed == PrefixSwaps(panels, position)
    requires order[found] == PREFIX[position] * bytes
    ensures var next := Swapped(fixed, position, found);
            && Offsets(Swapped(order, position, found), next, bytes)
            && PrefixFixed(next, position + 1) && next == PrefixSwaps(panels, position + 1)
  {
    SameOffset(fixed[found], PREFIX[position], bytes);
    Distinct(fixed, found, PlaceOf(fixed, PREFIX[position]));
    SwapOffsets(order, fixed, bytes, position, found);
  }

  lemma ThreeSwaps(panels: seq<nat>)
    requires HasPrefix(panels)
    ensures 37 in panels && 4 in BroughtTo(panels, 0, 37) && 81 in BroughtTo(BroughtTo(panels, 0, 37), 1, 4)
    ensures PrefixSwaps(panels, 3) == BroughtTo(BroughtTo(BroughtTo(panels, 0, 37), 1, 4), 2, 81)
  {
    assert PREFIX[0] == 37 && PREFIX[1] == 4 && PREFIX[2] == 81;
    assert PrefixSwaps(panels, 1) == BroughtTo(PrefixSwaps(panels, 0), 0, 37);
    assert PrefixSwaps(panels, 2) == BroughtTo(PrefixSwaps(panels, 1), 1, 4);
    assert PrefixSwaps(panels, 3) == BroughtTo(PrefixSwaps(panels, 2), 2, 81);
  }

  lemma SameOffset(x: nat, y: nat, bytes: nat)
    requires bytes > 0
    ensures x * bytes == y * bytes ==> x == y
  {
    if x < y { MulStep(bytes, x, y); } else if y < x { MulStep(bytes, y, x); }
  }
}
