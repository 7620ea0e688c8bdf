/** The order of the simulator's heap: by countdown, then by id. A heap is a list of station ids here. */
module HeapOrder {
  import opened Slots

  function Parent(i: int): (p: int)
    requires i > 0
    ensures 0 <= p < i && (i == 2 * p + 1 || i == 2 * p + 2)
  {
    (i - 1) / 2
  }

  /** Station a is not after station b. */
  predicate Before(st: seq<Station>, a: int, b: int)
    requires 0 <= a < |st| && 0 <= b < |st|
  {
    st[a].cd < st[b].cd || (st[a].cd == st[b].cd && a <= b)
  }

  ghost predicate Listed(st: seq<Station>, h: seq<int>) {
    forall i :: 0 <= i < |h| ==> 0 <= h[i] < |st|
  }

  ghost predicate Ordered(st: seq<Station>, h: seq<int>, i: int)
    requires Listed(st, h) && 0 < i < |h|
  {
    Before(st, h[Parent(i)], h[i])
  }

  /** In order, as far as children of the positions from k on are concerned. */
  ghost predicate HeapFrom(st: seq<Station>, h: seq<int>, k: int) {
    Listed(st, h) && forall i {:trigger Ordered(st, h, i)} :: 0 < i < |h| && Parent(i) >= k ==> Ordered(st, h, i)
  }

  ghost predicate IsHeap(st: seq<Station>, h: seq<int>) {
    HeapFrom(st, h, 0)
  }

  lemma {:induction false} RootIsFirst(st: seq<Station>, h: seq<int>, i: int)
    requires IsHeap(st, h) && 0 <= i < |h|
    ensures Before(st, h[0], h[i])
    decreases i
  {
    if i > 0 {
      RootIsFirst(st, h, Parent(i));
      assert Ordered(st, h, i);
    }
  }

  /** Whatever is not the root is not before both of the root's children. */
  lemma {:induction false} ChildIsSecond(st: seq<Station>, h: seq<int>, i: int)
    requires IsHeap(st, h) && 0 < i < |h|
    ensures Before(st, h[1], h[i]) || (|h| > 2 && Before(st, h[2], h[i]))
    decreases i
  {
    if i > 2 {
      ChildIsSecond(st, h, Parent(i));
      assert Ordered(st, h, i);
    }
  }

  ghost predicate Distinct(h: seq<int>) {
    forall i, j :: 0 <= i < j < |h| ==> h[i] != h[j]
  }

  /** A collision shows in the three places nearest the root: besides the root some station has counted down if and
      only if one of the root's children has. */
  lemma CollisionShowsAtChildren(st: seq<Station>, h: seq<int>)
    requires IsHeap(st, h) && |h| >= 3 && st[h[0]].cd == 0 && forall i :: 0 <= i < |h| ==> st[h[i]].cd >= 0
    ensures (exists i :: 0 < i < |h| && st[h[i]].cd == 0) <==> st[h[1]].cd == 0 || st[h[2]].cd == 0
  {
    if i :| 0 < i < |h| && st[h[i]].cd == 0 {
      ChildIsSecond(st, h, i);
    }
  }

  /** All counting down together leaves the heap a heap. */
  lemma CountDownKeepsHeap(st: seq<Station>, h: seq<int>, n: int)
    requires IsHeap(st, h)
    ensures IsHeap(CountDown(st, n), h)
  {
    forall i | 0 < i < |h| ensures Ordered(CountDown(st, n), h, i) {
      assert Ordered(st, h, i);
    }
  }

  /** A new countdown at the root leaves the heap in order below it. */
  lemma RootChangeKeepsRest(st: seq<Station>, h: seq<int>, s: Station)
    requires IsHeap(st, h) && Distinct(h) && h != []
    ensures HeapFrom(st[h[0] := s], h, 1)
  {
    forall i | 0 < i < |h| && Parent(i) >= 1 ensures Ordered(st[h[0] := s], h, i) {
      assert Ordered(st, h, i);
    }
  }

  /** A new countdown equal to the old one changes nothing. */
  lemma SameCountdownKeepsHeap(st: seq<Station>, h: seq<int>, k: int, s: Station)
    requires IsHeap(st, h) && 0 <= k < |st| && s.cd == st[k].cd
    ensures IsHeap(st[k := s], h)
  {
    var t := st[k := s];
    forall i | 0 < i < |h| ensures Ordered(t, h, i) {
      assert Ordered(st, h, i);
    }
  }

  /** So does any other station in the root's place. */
  lemma NewRootKeepsRest(st: seq<Station>, h: seq<int>, x: int)
    requires HeapFrom(st, h, 1) && h != [] && 0 <= x < |st|
    ensures HeapFrom(st, h[0 := x], 1)
  {
    forall i | 0 < i < |h| && Parent(i) >= 1 ensures Ordered(st, h[0 := x], i) {
      assert Ordered(st, h, i);
    }
  }

  lemma PrefixOfHeap(st: seq<Station>, h: seq<int>, n: int)
    requires IsHeap(st, h) && 0 <= n <= |h|
    ensures IsHeap(st, h[..n])
  {
    forall i | 0 < i < n ensures Ordered(st, h[..n], i) {
      assert Ordered(st, h, i);
    }
  }

  // ---------- Sifting ----------

  ghost predicate ChildrenAfter(st: seq<Station>, h: seq<int>, a: int, pos: int)
    requires Listed(st, h) && 0 <= a < |h| && pos >= 0
  {
    && (2 * pos + 1 < |h| ==> Before(st, h[a], h[2 * pos + 1]))
    && (2 * pos + 2 < |h| ==> Before(st, h[a], h[2 * pos + 2]))
  }

  /** In order from k on but for the station at pos, which may be after its children. */
  ghost predicate Sinking(st: seq<Station>, h: seq<int>, k: int, pos: int) {
    && Listed(st, h) && 0 <= k <= pos < |h|
    && (forall i {:trigger Ordered(st, h, i)} ::
          0 < i < |h| && Parent(i) >= k && Parent(i) != pos ==> Ordered(st, h, i))
    && (pos > k ==> Parent(pos) >= k && ChildrenAfter(st, h, Parent(pos), pos))
  }

  /** In order but for the station at pos, which may be before its parent. */
  ghost predicate Rising(st: seq<Station>, h: seq<int>, pos: int) {
    && Listed(st, h) && 0 <= pos < |h|
    && (forall i {:trigger Ordered(st, h, i)} :: 0 < i < |h| && i != pos ==> Ordered(st, h, i))
    && (pos > 0 ==> ChildrenAfter(st, h, Parent(pos), pos))
  }

  function Swapped<T>(h: seq<T>, i: int, j: int): (s: seq<T>)
    requires 0 <= i < |h| && 0 <= j < |h|
    ensures multiset(s) == multiset(h) && |s| == |h|
  {
    h[i := h[j]][j := h[i]]
  }

  lemma SinkStarts(st: seq<Station>, h: seq<int>, k: int)
    requires HeapFrom(st, h, k + 1) && 0 <= k < |h|
    ensures Sinking(st, h, k, k)
  {
  }

  lemma SinkStep(st: seq<Station>, h: seq<int>, k: int, pos: int, c: int)
    requires Sinking(st, h, k, pos) && (c == 2 * pos + 1 || c == 2 * pos + 2) && c < |h|
    requires ChildrenAfter(st, h, c, pos) && Before(st, h[c], h[pos])
    ensures Sinking(st, Swapped(h, pos, c), k, c)
  {
    var s := Swapped(h, pos, c);
    assert Parent(c) == pos;
    forall i | 0 < i < |s| && Parent(i) >= k && Parent(i) != c ensures Ordered(st, s, i) {
      if Parent(i) != pos { assert Ordered(st, h, i); }
    }
    if 2 * c + 1 < |h| { assert Parent(2 * c + 1) == c && Ordered(st, h, 2 * c + 1); }
    if 2 * c + 2 < |h| { assert Parent(2 * c + 2) == c && Ordered(st, h, 2 * c + 2); }
  }

  lemma SinkEnds(st: seq<Station>, h: seq<int>, k: int, pos: int)
    requires Sinking(st, h, k, pos) && ChildrenAfter(st, h, pos, pos)
    ensures HeapFrom(st, h, k)
  {
    forall i | 0 < i < |h| && Parent(i) >= k ensures Ordered(st, h, i) { }
  }

  lemma RiseStarts(st: seq<Station>, h: seq<int>, x: int)
    requires IsHeap(st, h) && 0 <= x < |st|
    ensures Rising(st, h + [x], |h|)
  {
    forall i | 0 < i < |h| ensures Ordered(st, h + [x], i) {
      assert Ordered(st, h, i);
    }
  }

  lemma RiseStep(st: seq<Station>, h: seq<int>, pos: int)
    requires Rising(st, h, pos) && pos > 0 && Before(st, h[pos], h[Parent(pos)])
    ensures Rising(st, Swapped(h, pos, Parent(pos)), Parent(pos))
  {
    var p := Parent(pos);
    var s := Swapped(h, pos, p);
    forall i | 0 < i < |s| && i != p ensures Ordered(st, s, i) {
      if i != pos { assert Ordered(st, h, i); }
    }
    if p > 0 {
      assert Ordered(st, h, p);
      if 2 * p + 1 < |h| && 2 * p + 1 != pos { assert Ordered(st, h, 2 * p + 1); }
      if 2 * p + 2 < |h| && 2 * p + 2 != pos { assert Ordered(st, h, 2 * p + 2); }
    }
  }

  lemma RiseEnds(st: seq<Station>, h: seq<int>, pos: int)
    requires Rising(st, h, pos) && (pos > 0 ==> Before(st, h[Parent(pos)], h[pos]))
    ensures IsHeap(st, h)
  {
    forall i | 0 < i < |h| ensures Ordered(st, h, i) { }
  }

  // ---------- Lists of the same things ----------

  lemma {:induction false} OnceInDistinct<T>(s: seq<T>, x: T)
    requires forall i, j :: 0 <= i < j < |s| ==> s[i] != s[j]
    ensures multiset(s)[x] <= 1
  {
    if s != [] {
      assert s == [s[0]] + s[1..];
      OnceInDistinct(s[1..], x);
      if s[0] == x { assert x !in s[1..]; }
    }
  }

  /** No two places of a list hold the same thing when the list is made of different things. */
  lemma StillDistinct<T>(h: seq<T>, s: seq<T>, i: int, j: int)
    requires multiset(h) <= multiset(s) && 0 <= i < j < |h|
    requires forall a, b :: 0 <= a < b < |s| ==> s[a] != s[b]
    ensures h[i] != h[j]
  {
    OnceInDistinct(s, h[i]);
    assert h == h[..i] + [h[i]] + h[i + 1..j] + [h[j]] + h[j + 1..];
  }
}
