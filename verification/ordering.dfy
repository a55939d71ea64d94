/**
 * The submesh ordering helpers of the M2 loader: exchange sorts over arrays of
 * submesh records, and the erase/insert relocation of decals and overlays.
 * The records carry only the fields the helpers read; the float keys of the
 * source are reals, compared with <, > and == only.
 */
module SubmeshOrder {
  import opened Common
  import opened Bytes

  /** CM2Mesh::submesh as the helpers see it; mode, block, shaderType and blendFlag are those of Textures[0]. */
  datatype Submesh = Submesh(distance: real, mode: int, block: int, shaderType: int, blendFlag: int)

  /** CM2Mesh::BufferInfo as the helpers see it: radius, depth proxy, depth extent and X/Y extents. */
  datatype BufferInfo = BufferInfo(radius: real, sortPoint: real, back: real, front: real, block: int,
                                   xpos: real, xneg: real, ypos: real, yneg: real)

  /** Centre of mass and radius of a skin submesh (ModelViewSubmesh), as the decal test reads them. */
  datatype Bounds = Bounds(x: real, y: real, z: real, radius: real)

  // ---------------------------------------------------------------------------
  // Exchange sorts. Each outer index i is compared with every later j and the
  // two records are swapped when they are out of order; `j` is a u16 in the
  // source, so arrays longer than 0xFFFF elements never terminate, and
  // `size() - 1` is unsigned, so an empty array never terminates either.
  // ---------------------------------------------------------------------------

  /** Exchanges two records of an array, as the helpers do through a temporary. */
  method Swap<T>(a: array<T>, i: nat, j: nat)
    requires i < a.Length && j < a.Length
    modifies a
    ensures a[i] == old(a[j]) && a[j] == old(a[i])
    ensures forall k :: 0 <= k < a.Length && k != i && k != j ==> a[k] == old(a[k])
    ensures multiset(a[..]) == multiset(old(a[..]))
  {
    a[i], a[j] := a[j], a[i];
  }

  /** sortDistance: the submeshes end up in non-increasing Distance (farthest first). */
  method SortDistance(a: array<Submesh>)
    requires 1 <= a.Length <= 0xFFFF
    modifies a
    ensures forall p, q :: 0 <= p < q < a.Length ==> a[p].distance >= a[q].distance
    ensures multiset(a[..]) == multiset(old(a[..]))
  {
    var i := 0;
    while i < a.Length - 1
      invariant 0 <= i <= a.Length - 1
      invariant forall p, q :: 0 <= p < i && p < q < a.Length ==> a[p].distance >= a[q].distance
      invariant multiset(a[..]) == multiset(old(a[..]))
    {
      var j := i + 1;
      while j < a.Length
        invariant i + 1 <= j <= a.Length
        invariant forall p, q :: 0 <= p < i && p < q < a.Length ==> a[p].distance >= a[q].distance
        invariant forall q :: i < q < j ==> a[i].distance >= a[q].distance
        invariant multiset(a[..]) == multiset(old(a[..]))
      {
        if a[i].distance < a[j].distance {
          Swap(a, i, j);
        }
        j := j + 1;
      }
      i := i + 1;
    }
  }

  /** sortSizeBracketByMode: the submeshes end up in non-decreasing Textures[0].Mode. */
  method SortSizeBracketByMode(a: array<Submesh>)
    requires 1 <= a.Length <= 0xFFFF
    modifies a
    ensures forall p, q :: 0 <= p < q < a.Length ==> a[p].mode <= a[q].mode
    ensures multiset(a[..]) == multiset(old(a[..]))
  {
    var i := 0;
    while i < a.Length - 1
      invariant 0 <= i <= a.Length - 1
      invariant forall p, q :: 0 <= p < i && p < q < a.Length ==> a[p].mode <= a[q].mode
      invariant multiset(a[..]) == multiset(old(a[..]))
    {
      var j := i + 1;
      while j < a.Length
        invariant i + 1 <= j <= a.Length
        invariant forall p, q :: 0 <= p < i && p < q < a.Length ==> a[p].mode <= a[q].mode
        invariant forall q :: i < q < j ==> a[i].mode <= a[q].mode
        invariant multiset(a[..]) == multiset(old(a[..]))
      {
        if a[i].mode > a[j].mode {
          Swap(a, i, j);
        }
        j := j + 1;
      }
      i := i + 1;
    }
  }

  /**
   * sortModeByBlock: only records of equal Mode are ever exchanged, so the Mode
   * found at every index is unchanged, and afterwards every two records of the
   * same Mode are in non-decreasing Block order.
   */
  method SortModeByBlock(a: array<Submesh>)
    requires 1 <= a.Length <= 0xFFFF
    modifies a
    ensures forall k :: 0 <= k < a.Length ==> a[k].mode == old(a[k].mode)
    ensures forall p, q :: 0 <= p < q < a.Length && a[p].mode == a[q].mode ==> a[p].block <= a[q].block
    ensures multiset(a[..]) == multiset(old(a[..]))
  {
    var i := 0;
    while i <= a.Length - 1
      invariant 0 <= i <= a.Length
      invariant forall k :: 0 <= k < a.Length ==> a[k].mode == old(a[k].mode)
      invariant forall p, q :: 0 <= p < i && p < q < a.Length && a[p].mode == a[q].mode ==> a[p].block <= a[q].block
      invariant multiset(a[..]) == multiset(old(a[..]))
    {
      ModeByBlockRow(a, i);
      i := i + 1;
    }
  }

  /** Row i of sortModeByBlock: a[i] is compared with every later record, exchanged only within its Mode. */
  method ModeByBlockRow(a: array<Submesh>, i: nat)
    requires i < a.Length
    requires forall p, q :: 0 <= p < i && p < q < a.Length && a[p].mode == a[q].mode ==> a[p].block <= a[q].block
    modifies a
    ensures forall k :: 0 <= k < a.Length ==> a[k].mode == old(a[k].mode)
    ensures forall p, q :: 0 <= p <= i && p < q < a.Length && a[p].mode == a[q].mode ==> a[p].block <= a[q].block
    ensures multiset(a[..]) == multiset(old(a[..]))
  {
    var j := i + 1;
    while j < a.Length
      invariant i + 1 <= j <= a.Length
      invariant forall k :: 0 <= k < a.Length ==> a[k].mode == old(a[k].mode)
      invariant forall p, q :: 0 <= p < i && p < q < a.Length && a[p].mode == a[q].mode ==> a[p].block <= a[q].block
      invariant forall q :: i < q < j && a[i].mode == a[q].mode ==> a[i].block <= a[q].block
      invariant multiset(a[..]) == multiset(old(a[..]))
    {
      if a[i].mode == a[j].mode && a[i].block > a[j].block {
        Swap(a, i, j);
      }
      j := j + 1;
    }
  }

  /** Two buffers "in exactly the same spot": equal Back and equal Front. */
  predicate SamePlace(x: BufferInfo, y: BufferInfo)
  {
    x.back == y.back && x.front == y.front
  }

  /** The condition under which sortPointHighLow exchanges the records at i (x) and j (y). */
  predicate HighLowExchanges(x: BufferInfo, y: BufferInfo)
  {
    (SamePlace(x, y) && x.block > y.block) || x.sortPoint < y.sortPoint
  }

  /** x may stay before y: x is at least as far, and within one spot x has the lower block. */
  predicate HighLowOrdered(x: BufferInfo, y: BufferInfo)
  {
    x.sortPoint >= y.sortPoint && (SamePlace(x, y) ==> x.block <= y.block)
  }

  /** Records that share a spot also share a SortPoint. */
  ghost predicate PlaceFixesSortPoint(s: seq<BufferInfo>)
  {
    forall p, q :: 0 <= p < |s| && 0 <= q < |s| && SamePlace(s[p], s[q]) ==> s[p].sortPoint == s[q].sortPoint
  }

  /** Exchanging two records keeps "records that share a spot share a SortPoint". */
  lemma PlaceFixesSortPointSwap(s: seq<BufferInfo>, i: nat, j: nat)
    requires i < |s| && j < |s| && PlaceFixesSortPoint(s)
    ensures PlaceFixesSortPoint(s[i := s[j]][j := s[i]])
  {
    var t := s[i := s[j]][j := s[i]];
    forall p, q | 0 <= p < |t| && 0 <= q < |t| && SamePlace(t[p], t[q])
      ensures t[p].sortPoint == t[q].sortPoint
    {
      var p' := if p == i then j else if p == j then i else p;
      var q' := if q == i then j else if q == j then i else q;
      assert t[p] == s[p'] && t[q] == s[q'];
    }
  }

  /**
   * The step of the inner loop: with spots fixing SortPoints, a record that the
   * outer record x was ordered before stays ordered after whatever record ends
   * up in x's slot.
   */
  lemma HighLowStep(x: BufferInfo, y: BufferInfo, q: BufferInfo)
    requires SamePlace(x, y) ==> x.sortPoint == y.sortPoint
    requires SamePlace(y, q) ==> y.sortPoint == q.sortPoint
    requires SamePlace(x, q) ==> x.sortPoint == q.sortPoint
    requires HighLowOrdered(x, q)
    ensures HighLowExchanges(x, y) ==> HighLowOrdered(y, q) && HighLowOrdered(y, x)
    ensures !HighLowExchanges(x, y) ==> HighLowOrdered(x, y)
  {
  }

  /**
   * sortPointHighLow: always a permutation. When records that share a spot
   * share a SortPoint (in particular when no two records share a spot), the
   * result is non-increasing by SortPoint (farthest first) and, within one
   * spot, the record with the higher block comes later (nearer).
   */
  method SortPointHighLow(a: array<BufferInfo>)
    requires 1 <= a.Length
    modifies a
    ensures multiset(a[..]) == multiset(old(a[..]))
    ensures PlaceFixesSortPoint(old(a[..])) ==>
      forall p, q :: 0 <= p < q < a.Length ==> a[p].sortPoint >= a[q].sortPoint
    ensures PlaceFixesSortPoint(old(a[..])) ==>
      forall p, q :: 0 <= p < q < a.Length && SamePlace(a[p], a[q]) ==> a[p].block <= a[q].block
  {
    ghost var fixed := PlaceFixesSortPoint(a[..]);
    var i := 0;
    while i < a.Length - 1
      invariant 0 <= i <= a.Length - 1
      invariant multiset(a[..]) == multiset(old(a[..]))
      invariant fixed ==> PlaceFixesSortPoint(a[..])
      invariant fixed ==> forall p, q :: 0 <= p < i && p < q < a.Length ==> HighLowOrdered(a[p], a[q])
    {
      HighLowRow(a, i, fixed);
      i := i + 1;
    }
  }

  /**
   * Row i of sortPointHighLow: a[i] is compared with every later record. When
   * `fixed` (spots fix SortPoints), the rows before i stay ordered and row i
   * becomes ordered.
   */
  method HighLowRow(a: array<BufferInfo>, i: nat, ghost fixed: bool)
    requires i < a.Length
    requires fixed ==> PlaceFixesSortPoint(a[..])
    requires fixed ==> forall p, q :: 0 <= p < i && p < q < a.Length ==> HighLowOrdered(a[p], a[q])
    modifies a
    ensures multiset(a[..]) == multiset(old(a[..]))
    ensures fixed ==> PlaceFixesSortPoint(a[..])
    ensures fixed ==> forall p, q :: 0 <= p <= i && p < q < a.Length ==> HighLowOrdered(a[p], a[q])
  {
    var j := i + 1;
    while j < a.Length
      invariant i + 1 <= j <= a.Length
      invariant multiset(a[..]) == multiset(old(a[..]))
      invariant fixed ==> PlaceFixesSortPoint(a[..])
      invariant fixed ==> forall p, q :: 0 <= p < i && p < q < a.Length ==> HighLowOrdered(a[p], a[q])
      invariant fixed ==> forall q :: i < q < j ==> HighLowOrdered(a[i], a[q])
    {
      ghost var before := a[..];
      if a[i].back == a[j].back && a[i].front == a[j].front && a[i].block > a[j].block {
        Swap(a, i, j);
      } else if a[i].sortPoint < a[j].sortPoint {
        Swap(a, i, j);
      }
      if fixed {
        HighLowAfterStep(before, a[..], i, j);
      }
      j := j + 1;
    }
  }

  /** One comparison of sortPointHighLow keeps the invariants of its inner loop. */
  lemma HighLowAfterStep(before: seq<BufferInfo>, after: seq<BufferInfo>, i: nat, j: nat)
    requires i < j < |before| && PlaceFixesSortPoint(before)
    requires |after| == |before|
    requires forall k :: 0 <= k < |before| && k != i && k != j ==> after[k] == before[k]
    requires HighLowExchanges(before[i], before[j]) ==> after[i] == before[j] && after[j] == before[i]
    requires !HighLowExchanges(before[i], before[j]) ==> after[i] == before[i] && after[j] == before[j]
    requires forall q :: i < q < j ==> HighLowOrdered(before[i], before[q])
    ensures PlaceFixesSortPoint(after)
    ensures forall q :: i < q <= j ==> HighLowOrdered(after[i], after[q])
  {
    if HighLowExchanges(before[i], before[j]) {
      PlaceFixesSortPointSwap(before, i, j);
      assert after == before[i := before[j]][j := before[i]];
    } else {
      assert after == before;
    }
    forall q | i < q <= j
      ensures HighLowOrdered(after[i], after[q])
    {
      if q < j {
        HighLowStep(before[i], before[j], before[q]);
      } else {
        HighLowStep(before[i], before[j], before[i]);
      }
    }
  }

  // ---------------------------------------------------------------------------
  // sortRadius(b, B, s): the inner loop starts at b + 1 for every i, not at
  // i + 1. Row b leaves the smallest Radius of [b..B] at b; the later rows form
  // a full exchange pass over [b+1..B] with the comparison reversed, which
  // leaves that range in non-increasing order.
  // ---------------------------------------------------------------------------

  /**
   * sortRadius on AnimatedMesh->BufferMap (passed as `a`): permutes only the
   * indices b..B; afterwards index b holds the smallest Radius of the range and
   * b+1..B are in non-increasing Radius order. The skin index `s` is unused.
   */
  method SortRadius(a: array<BufferInfo>, b: int, B: int)
    requires 0 <= b && B < a.Length && B < 0xFFFF
    modifies a
    ensures multiset(a[..]) == multiset(old(a[..]))
    ensures forall k :: 0 <= k < a.Length && !(b <= k <= B) ==> a[k] == old(a[k])
    ensures forall k :: b < k <= B ==> a[b].radius <= a[k].radius
    ensures forall p, q :: b < p < q <= B ==> a[p].radius >= a[q].radius
  {
    var i := b;
    while i <= B
      invariant b <= i && (if b <= B then i <= B + 1 else i == b)
      invariant multiset(a[..]) == multiset(old(a[..]))
      invariant forall k :: 0 <= k < a.Length && !(b <= k <= B) ==> a[k] == old(a[k])
      invariant b <= B ==> RadiusRowsDone(a[..], b, B, i)
    {
      RadiusRowPass(a, b, B, i);
      i := i + 1;
    }
  }

  /** Row i of sortRadius: a[i] compared with every a[j], j in b+1..B, and swapped when larger. */
  method RadiusRowPass(a: array<BufferInfo>, b: int, B: int, i: int)
    requires 0 <= b <= i <= B < a.Length && RadiusRowsDone(a[..], b, B, i)
    modifies a
    ensures multiset(a[..]) == multiset(old(a[..]))
    ensures forall k :: 0 <= k < a.Length && !(b <= k <= B) ==> a[k] == old(a[k])
    ensures RadiusRowsDone(a[..], b, B, i + 1)
  {
    var j := b + 1;
    while j <= B
      invariant b + 1 <= j <= B + 1
      invariant multiset(a[..]) == multiset(old(a[..]))
      invariant forall k :: 0 <= k < a.Length && !(b <= k <= B) ==> a[k] == old(a[k])
      invariant RadiusRow(a[..], b, B, i, j)
    {
      ghost var before := a[..];
      if a[i].radius > a[j].radius {
        Swap(a, i, j);
      }
      RadiusRowStep(before, a[..], b, B, i, j);
      j := j + 1;
    }
    RadiusRowEnd(a[..], b, B, i);
  }

  /** The state of sortRadius after rows b..i-1. */
  ghost predicate RadiusRowsDone(s: seq<BufferInfo>, b: int, B: int, i: int)
    requires 0 <= b <= B < |s| && b <= i <= B + 1
  {
    && (i > b ==> forall k :: b < k <= B ==> s[b].radius <= s[k].radius)
    && (forall p, q :: b < p < q < i ==> s[p].radius >= s[q].radius)
  }

  /** A finished row i extends the rows done to i + 1. */
  lemma RadiusRowEnd(s: seq<BufferInfo>, b: int, B: int, i: int)
    requires 0 <= b <= i <= B < |s| && RadiusRow(s, b, B, i, B + 1)
    ensures RadiusRowsDone(s, b, B, i + 1)
  {
  }

  /**
   * The state of sortRadius inside row i after comparing i with b+1..j-1: the
   * smallest radius sits at b (once row b is done), b+1..i-1 are non-increasing
   * and all at least a[i], and a[i] is at most every radius in i+1..j-1.
   */
  ghost predicate RadiusRow(s: seq<BufferInfo>, b: int, B: int, i: int, j: int)
    requires 0 <= b <= i <= B < |s| && j <= B + 1
  {
    && RadiusRowsDone(s, b, B, i)
    && (forall k :: b < k < j && k < i ==> s[k].radius >= s[i].radius)
    && (forall k :: i < k < j ==> s[i].radius <= s[k].radius)
  }

  /** One comparison of row i of sortRadius keeps the row's invariant. */
  lemma RadiusRowStep(s: seq<BufferInfo>, t: seq<BufferInfo>, b: int, B: int, i: int, j: int)
    requires 0 <= b <= i <= B < |s| && b < j <= B
    requires RadiusRow(s, b, B, i, j)
    requires |t| == |s|
    requires forall k :: 0 <= k < |s| && k != i && k != j ==> t[k] == s[k]
    requires s[i].radius > s[j].radius ==> t[i] == s[j] && t[j] == s[i]
    requires !(s[i].radius > s[j].radius) ==> t[i] == s[i] && t[j] == s[j]
    ensures RadiusRow(t, b, B, i, j + 1)
  {
    if s[i].radius > s[j].radius {
      if j < i {
        // the value carried in slot i is inserted at j; the old a[j] is carried on
        assert forall k :: b < k < j ==> s[k].radius >= s[j].radius;
      }
    }
  }

  /**
   * Radii 1, 2, 3 at indices 0..2: sortRadius(0, 2) yields 1, 3, 2, which is
   * not in ascending order.
   */
  method SortRadiusExample() returns (radii: seq<real>)
    ensures radii == [1.0, 3.0, 2.0]
  {
    var x1 := BufferInfo(1.0, 0.0, 0.0, 0.0, 0, 0.0, 0.0, 0.0, 0.0);
    var x2 := x1.(radius := 2.0);
    var x3 := x1.(radius := 3.0);
    var a := new BufferInfo[3] [x1, x2, x3];
    assert a[..] == [x1, x2, x3];
    assert multiset(a[..]) == multiset{x1, x2, x3};
    SortRadius(a, 0, 2);
    assert a[..] == [a[0], a[1], a[2]];
    assert forall k :: 0 <= k < 3 ==> a[k] in multiset{x1, x2, x3};
    assert a[0] == x1;
    assert a[1] == x3;
    radii := [a[0].radius, a[1].radius, a[2].radius];
  }

  /** sortRadius with the inner loop starting at i + 1: ascending Radius over b..B. */
  method SortRadiusAscending(a: array<BufferInfo>, b: int, B: int)
    requires 0 <= b && B < a.Length && B < 0xFFFF
    modifies a
    ensures multiset(a[..]) == multiset(old(a[..]))
    ensures forall k :: 0 <= k < a.Length && !(b <= k <= B) ==> a[k] == old(a[k])
    ensures forall p, q :: b <= p < q <= B ==> a[p].radius <= a[q].radius
  {
    var i := b;
    while i <= B
      invariant b <= i && (if b <= B then i <= B + 1 else i == b)
      invariant multiset(a[..]) == multiset(old(a[..]))
      invariant forall k :: 0 <= k < a.Length && !(b <= k <= B) ==> a[k] == old(a[k])
      invariant forall p, q :: b <= p < i && p < q <= B ==> a[p].radius <= a[q].radius
    {
      AscendingRowPass(a, b, B, i);
      i := i + 1;
    }
  }

  /** Row i of the ascending variant: a[i] ends as the smallest radius of i..B. */
  method AscendingRowPass(a: array<BufferInfo>, b: int, B: int, i: int)
    requires 0 <= b <= i <= B < a.Length
    requires forall p, q :: b <= p < i && p < q <= B ==> a[p].radius <= a[q].radius
    modifies a
    ensures multiset(a[..]) == multiset(old(a[..]))
    ensures forall k :: 0 <= k < a.Length && !(b <= k <= B) ==> a[k] == old(a[k])
    ensures forall p, q :: b <= p <= i && p < q <= B ==> a[p].radius <= a[q].radius
  {
    var j := i + 1;
    while j <= B
      invariant i + 1 <= j <= B + 1
      invariant multiset(a[..]) == multiset(old(a[..]))
      invariant forall k :: 0 <= k < a.Length && !(b <= k <= B) ==> a[k] == old(a[k])
      invariant forall p, q :: b <= p < i && p < q <= B ==> a[p].radius <= a[q].radius
      invariant forall k :: i < k < j ==> a[i].radius <= a[k].radius
    {
      if a[i].radius > a[j].radius {
        Swap(a, i, j);
      }
      j := j + 1;
    }
  }

  // ---------------------------------------------------------------------------
  // The two list operations of the engine's dynamic array that the relocating
  // helpers use.
  // ---------------------------------------------------------------------------

  /** erase(i): the element at i is removed and the later ones move down by one. */
  function Erase<T>(s: seq<T>, i: nat): (r: seq<T>)
    requires i < |s|
    ensures |r| == |s| - 1
    ensures forall k :: 0 <= k < i ==> r[k] == s[k]
    ensures forall k :: i <= k < |r| ==> r[k] == s[k + 1]
  {
    s[..i] + s[i + 1..]
  }

  /** insert(x, p): x is placed at index p and the elements from p on move up by one. */
  function InsertAt<T>(s: seq<T>, x: T, p: nat): (r: seq<T>)
    requires p <= |s|
    ensures |r| == |s| + 1 && r[p] == x
    ensures forall k :: 0 <= k < p ==> r[k] == s[k]
    ensures forall k :: p < k < |r| ==> r[k] == s[k - 1]
  {
    s[..p] + [x] + s[p..]
  }

  /** erase(p) undoes insert(x, p). */
  lemma EraseUndoesInsert<T>(s: seq<T>, x: T, p: nat)
    requires p <= |s|
    ensures Erase(InsertAt(s, x, p), p) == s
  {
    var r := Erase(InsertAt(s, x, p), p);
    assert forall k :: 0 <= k < |s| ==> r[k] == s[k];
  }

  /** insert(x, p) adds x and keeps every other element. */
  lemma InsertAtPermutes<T>(s: seq<T>, x: T, p: nat)
    requires p <= |s|
    ensures multiset(InsertAt(s, x, p)) == multiset(s) + multiset{x}
  {
    assert InsertAt(s, x, p) == s[..p] + [x] + s[p..];
    assert s == s[..p] + s[p..];
  }

  /** Erasing an element and inserting it again keeps the same elements. */
  lemma EraseInsertPermutes<T>(s: seq<T>, i: nat, p: nat)
    requires i < |s| && p < |s|
    ensures multiset(InsertAt(Erase(s, i), s[i], p)) == multiset(s)
  {
    InsertAtPermutes(Erase(s, i), s[i], p);
    assert Erase(s, i) == s[..i] + s[i + 1..];
    assert s == s[..i] + [s[i]] + s[i + 1..];
  }

  // ---------------------------------------------------------------------------
  // dropDecalsToTheirBackdrops. Each decal (shaderType 2) is moved to just
  // after the nearest earlier submesh it lies on. The geometry is the skin's
  // submesh table, read at the CURRENT positions of the two submeshes.
  // ---------------------------------------------------------------------------

  /** v lies strictly inside (c - r, c + r). */
  predicate Within(v: real, c: real, r: real)
  {
    c - r < v < c + r
  }

  /**
   * The submesh at k is a backdrop for the decal at i: it is not an effect
   * (BlendFlag below 2), and the decal's centre of mass is within k's radius
   * in Y and in X or Z.
   */
  predicate Backdrop(s: seq<Submesh>, g: seq<Bounds>, i: nat, k: nat)
    requires i < |s| <= |g| && k < |s|
  {
    s[k].blendFlag < 2
    && Within(g[i].y, g[k].y, g[k].radius)
    && (Within(g[i].x, g[k].x, g[k].radius) || Within(g[i].z, g[k].z, g[k].radius))
  }

  /** The backward search from k for a backdrop of the decal at i; -1 when there is none. */
  function FindBackdrop(s: seq<Submesh>, g: seq<Bounds>, i: nat, k: int): (r: int)
    requires i < |s| <= |g| && k < i
    ensures r == -1 || 0 <= r <= k
    ensures r >= 0 ==> Backdrop(s, g, i, r)
    ensures forall m :: r < m <= k && 0 <= m ==> !Backdrop(s, g, i, m)
    decreases if k < 0 then 0 else k + 1
  {
    if k < 0 then -1
    else if Backdrop(s, g, i, k) then k
    else FindBackdrop(s, g, i, k - 1)
  }

  /** The decal at i taken out and put back at p (p <= i): erase(i), then insert at p. */
  function Relocate<T>(s: seq<T>, i: nat, p: nat): (r: seq<T>)
    requires p <= i < |s|
    ensures |r| == |s| && multiset(r) == multiset(s)
    ensures r[..p] == s[..p] && r[p] == s[i] && r[i + 1..] == s[i + 1..]
    ensures forall m :: p < m <= i ==> r[m] == s[m - 1]
  {
    EraseInsertPermutes(s, i, p);
    InsertAt(Erase(s, i), s[i], p)
  }

  /**
   * One pass of the outer loop at index i. The search index is an s16 holding
   * i - 1, so past index 0x8000 it wraps.
   */
  function DecalStep(s: seq<Submesh>, g: seq<Bounds>, i: nat): (r: seq<Submesh>)
    requires i < |s| <= |g|
    ensures |r| == |s| && multiset(r) == multiset(s)
    ensures r[i + 1..] == s[i + 1..]
  {
    if s[i].shaderType != 2 then s
    else
      var k := FindBackdrop(s, g, i, ToS16(i - 1));
      if k < 0 then s else Relocate(s, i, k + 1)
  }

  /** The first n passes of the outer loop. */
  function DropDecalsUpTo(s: seq<Submesh>, g: seq<Bounds>, n: nat): (r: seq<Submesh>)
    requires n <= |s| <= |g|
    ensures |r| == |s| && multiset(r) == multiset(s)
    ensures r[n..] == s[n..]
    decreases n
  {
    if n == 0 then s
    else
      var t := DropDecalsUpTo(s, g, n - 1);
      assert t[n - 1..] == s[n - 1..];
      DecalStep(t, g, n - 1)
  }

  /** dropDecalsToTheirBackdrops over the submesh list s and the skin geometry g. */
  method DropDecalsToTheirBackdrops(s0: seq<Submesh>, g: seq<Bounds>) returns (s: seq<Submesh>)
    requires |s0| <= |g|
    ensures s == DropDecalsUpTo(s0, g, |s0|)
    ensures |s| == |s0| && multiset(s) == multiset(s0)
  {
    s := s0;
    var i := 0;
    while i < |s|
      invariant 0 <= i <= |s| == |s0|
      invariant s == DropDecalsUpTo(s0, g, i)
    {
      if s[i].shaderType == 2 {
        s := DropDecal(s, g, i);
      }
      i := i + 1;
    }
  }

  /** The body of the outer loop for a decal at i: the backward search and the move. */
  method DropDecal(s0: seq<Submesh>, g: seq<Bounds>, i: nat) returns (s: seq<Submesh>)
    requires i < |s0| <= |g| && s0[i].shaderType == 2
    ensures s == DecalStep(s0, g, i)
  {
    s := s0;
    ghost var start := ToS16(i - 1);
    var index := ToS16(i - 1);
    while index >= 0
      invariant index < i
      invariant index >= 0 ==> s == s0 && FindBackdrop(s0, g, i, start) == FindBackdrop(s0, g, i, index)
      invariant index < 0 ==> s == DecalStep(s0, g, i)
      decreases index + 2
    {
      var move := false;
      if s[index].blendFlag < 2 {
        var radius := g[index].radius;
        if g[i].y > g[index].y - radius && g[i].y < g[index].y + radius {
          if g[i].x > g[index].x - radius && g[i].x < g[index].x + radius {
            move := true;
          }
          if g[i].z > g[index].z - radius && g[i].z < g[index].z + radius {
            move := true;
          }
        }
      }
      assert move == Backdrop(s0, g, i, index);
      if move {
        var temp := s[i];
        s := Erase(s, i);
        s := InsertAt(s, temp, index + 1);
        index := -1;
      }
      index := index - 1;
    }
  }

  /** A decal with a backdrop lands right after the nearest one, and nothing before it moves. */
  lemma DecalLandsAfterNearestBackdrop(s: seq<Submesh>, g: seq<Bounds>, i: nat, k: nat)
    requires i < |s| <= |g| && i <= 0x8000 && s[i].shaderType == 2
    requires k < i && Backdrop(s, g, i, k)
    requires forall m :: k < m < i ==> !Backdrop(s, g, i, m)
    ensures DecalStep(s, g, i)[k + 1] == s[i]
    ensures DecalStep(s, g, i)[..k + 1] == s[..k + 1]
  {
    var r := FindBackdrop(s, g, i, i - 1);
    assert r == k;
  }

  /** A decal with no backdrop before it stays where it is. */
  lemma DecalStaysWithoutBackdrop(s: seq<Submesh>, g: seq<Bounds>, i: nat)
    requires i < |s| <= |g| && i <= 0x8000
    requires forall m :: 0 <= m < i ==> !Backdrop(s, g, i, m)
    ensures DecalStep(s, g, i) == s
  {
  }

  // ---------------------------------------------------------------------------
  // InsertOverlays. Each overlay is inserted into the destination list just
  // after the nearest record (searching backwards from a start position) whose
  // X/Y extent contains it. The start position is found once, for the first
  // overlay, and kept for all the others. None stands for a read past either
  // end of a list, where the source has no defined behaviour.
  // ---------------------------------------------------------------------------

  /** The X/Y extent of host contains that of overlay o. */
  predicate Covers(o: BufferInfo, host: BufferInfo)
  {
    o.xpos <= host.xpos && o.xneg >= host.xneg && o.ypos <= host.ypos && o.yneg >= host.yneg
  }

  /**
   * The forward search from P >= 1: P - 1 for the first P whose record is
   * nearer than o (smaller SortPoint); None when the search runs off the end.
   */
  function FindStart(o: BufferInfo, dest: seq<BufferInfo>, P: nat): (r: Option<nat>)
    requires 1 <= P <= |dest|
    ensures r.Some? ==> P <= r.value + 1 < |dest| && o.sortPoint > dest[r.value + 1].sortPoint
    ensures forall m :: P <= m < |dest| && (r.None? || m <= r.value) ==> o.sortPoint <= dest[m].sortPoint
    decreases |dest| - P
  {
    if P == |dest| then None
    else if o.sortPoint > dest[P].sortPoint then Some(P - 1)
    else FindStart(o, dest, P + 1)
  }

  /** The start position for overlay o: the kept one, or a fresh search when it is still -1. */
  function StartFor(o: BufferInfo, dest: seq<BufferInfo>, position: int): (r: Option<nat>)
    requires -1 <= position < |dest|
    ensures r.Some? ==> r.value < |dest|
    ensures position >= 0 ==> r == Some(position)
  {
    if position >= 0 then Some(position)
    else if |dest| == 0 then None
    else FindStart(o, dest, 1)
  }

  /** The backward search from d for a record covering o; None when it runs past index 0. */
  function FindHost(o: BufferInfo, dest: seq<BufferInfo>, d: int): (r: Option<nat>)
    requires d < |dest|
    ensures r.Some? ==> r.value <= d && Covers(o, dest[r.value])
    ensures forall m :: 0 <= m <= d && (r.None? || r.value < m) ==> !Covers(o, dest[m])
    decreases if d < 0 then 0 else d + 1
  {
    if d < 0 then None
    else if Covers(o, dest[d]) then Some(d)
    else FindHost(o, dest, d - 1)
  }

  /**
   * One overlay o inserted: the start position (kept, or searched for), then
   * the covering record found backwards from it; o goes right after that
   * record. Returns the new list and the position kept for the next overlay.
   */
  function PlaceOne(o: BufferInfo, dest: seq<BufferInfo>, position: int): (r: Option<(seq<BufferInfo>, nat)>)
    requires -1 <= position < |dest|
    ensures r.Some? ==> |r.value.0| == |dest| + 1 && r.value.1 < |r.value.0|
  {
    match StartFor(o, dest, position)
    case None => None
    case Some(p) =>
      match FindHost(o, dest, p)
      case None => None
      case Some(h) => Some((InsertAt(dest, o, h + 1), p))
  }

  /** PlaceOne adds o and keeps every record it was given. */
  lemma PlaceOnePermutes(o: BufferInfo, dest: seq<BufferInfo>, position: int)
    requires -1 <= position < |dest| && PlaceOne(o, dest, position).Some?
    ensures multiset(PlaceOne(o, dest, position).value.0) == multiset(dest) + multiset{o}
  {
    var h := FindHost(o, dest, StartFor(o, dest, position).value).value;
    InsertAtPermutes(dest, o, h + 1);
  }

  /** Overlays O..n-1 inserted in turn, starting from the kept position `position`. */
  function OverlaysFrom(ov: seq<BufferInfo>, dest: seq<BufferInfo>, O: nat, n: nat, position: int): Option<seq<BufferInfo>>
    requires O <= n <= |ov| && -1 <= position < |dest|
    decreases n - O
  {
    if O == n then Some(dest)
    else
      match PlaceOne(ov[O], dest, position)
      case None => None
      case Some(next) => OverlaysFrom(ov, next.0, O + 1, n, next.1)
  }

  /** The overlays placed are exactly overlays O..n-1, added to the destination list. */
  lemma {:induction false} OverlaysFromPermutes(ov: seq<BufferInfo>, dest: seq<BufferInfo>, O: nat, n: nat, position: int)
    requires O <= n <= |ov| && -1 <= position < |dest|
    ensures var r := OverlaysFrom(ov, dest, O, n, position);
            r.Some? ==> |r.value| == |dest| + (n - O) && multiset(r.value) == multiset(dest) + multiset(ov[O..n])
    decreases n - O
  {
    if O == n {
      assert ov[O..n] == [];
    } else if PlaceOne(ov[O], dest, position).Some? {
      var next := PlaceOne(ov[O], dest, position).value;
      PlaceOnePermutes(ov[O], dest, position);
      OverlaysFromPermutes(ov, next.0, O + 1, n, next.1);
      assert ov[O..n] == [ov[O]] + ov[O + 1..n];
    }
  }

  /** One overlay placed: it sits right after a covering record, and the records before it stay put. */
  lemma OverlayLandsOnHost(ov: seq<BufferInfo>, dest: seq<BufferInfo>, O: nat, n: nat, position: int)
    requires O < n <= |ov| && -1 <= position < |dest|
    requires StartFor(ov[O], dest, position).Some?
    requires FindHost(ov[O], dest, StartFor(ov[O], dest, position).value).Some?
    ensures var h := FindHost(ov[O], dest, StartFor(ov[O], dest, position).value).value;
            var t := InsertAt(dest, ov[O], h + 1);
            Covers(ov[O], t[h]) && t[h + 1] == ov[O] && t[..h + 1] == dest[..h + 1]
  {
    var h := FindHost(ov[O], dest, StartFor(ov[O], dest, position).value).value;
    InsertedAfterHost(ov[O], dest, h);
  }

  lemma InsertedAfterHost(o: BufferInfo, dest: seq<BufferInfo>, h: nat)
    requires h < |dest| && Covers(o, dest[h])
    ensures var t := InsertAt(dest, o, h + 1);
            Covers(o, t[h]) && t[h + 1] == o && t[..h + 1] == dest[..h + 1]
  {
    var t := InsertAt(dest, o, h + 1);
    assert t[..h + 1] == dest[..h + 1];
  }

  /** InsertOverlays as written: the loop bound is size() - 1, an unsigned value. */
  function InsertOverlaysSpec(ov: seq<BufferInfo>, dest: seq<BufferInfo>): (r: Option<seq<BufferInfo>>)
    ensures |ov| == 0 ==> r.None?
    ensures r.Some? ==> multiset(r.value) == multiset(dest) + multiset(ov[..|ov| - 1])
  {
    if |ov| == 0 then None
    else
      OverlaysFromPermutes(ov, dest, 0, |ov| - 1, -1);
      assert ov[0..|ov| - 1] == ov[..|ov| - 1];
      OverlaysFrom(ov, dest, 0, |ov| - 1, -1)
  }

  /** The forward search of the overlay loop, run while the kept position is still -1. */
  method SearchStart(o: BufferInfo, dest: seq<BufferInfo>, start: int) returns (r: Option<nat>)
    requires -1 <= start < |dest|
    ensures r == StartFor(o, dest, start)
  {
    var position := start;
    var P := 0;
    while position == -1
      invariant 0 <= P <= |dest| && -1 <= position < |dest|
      invariant start >= 0 ==> position == start
      invariant start == -1 && position == -1 && P >= 1 ==> StartFor(o, dest, start) == FindStart(o, dest, P)
      invariant start == -1 && position >= 0 ==> StartFor(o, dest, start) == Some(position)
      decreases |dest| - P, position + 1
    {
      if P == |dest| {
        return None;
      }
      if o.sortPoint > dest[P].sortPoint {
        position := P - 1;
      }
      P := P + 1;
    }
    r := Some(position);
  }

  /** The backward search of the overlay loop from d for a record covering o. */
  method SearchHost(o: BufferInfo, dest: seq<BufferInfo>, position: nat) returns (r: Option<nat>)
    requires position < |dest|
    ensures r == FindHost(o, dest, position)
  {
    var d: int := position;
    while d >= 0
      invariant -1 <= d <= position
      invariant FindHost(o, dest, position) == FindHost(o, dest, d)
    {
      if Covers(o, dest[d]) {
        return Some(d);
      }
      d := d - 1;
    }
    r := None;
  }

  /**
   * The body of the overlay loop for one overlay o: the start position, the
   * covering record, and the insertion right after it.
   */
  method PlaceOverlay(o: BufferInfo, dest: seq<BufferInfo>, start: int) returns (r: Option<(seq<BufferInfo>, nat)>)
    requires -1 <= start < |dest|
    ensures r == PlaceOne(o, dest, start)
  {
    var position := SearchStart(o, dest, start);
    if position.None? {
      return None;
    }
    var host := SearchHost(o, dest, position.value);
    if host.None? {
      return None;
    }
    r := Some((InsertAt(dest, o, host.value + 1), position.value));
  }

  /** The overlay loop over the first n overlays, proved against OverlaysFrom. */
  method PlaceOverlays(ov: seq<BufferInfo>, dest0: seq<BufferInfo>, n: nat) returns (r: Option<seq<BufferInfo>>)
    requires n <= |ov|
    ensures r == OverlaysFrom(ov, dest0, 0, n, -1)
  {
    var dest := dest0;
    var position := -1;
    var O := 0;
    while O < n
      invariant 0 <= O <= n && -1 <= position < |dest|
      invariant OverlaysFrom(ov, dest, O, n, position) == OverlaysFrom(ov, dest0, 0, n, -1)
    {
      var next := PlaceOverlay(ov[O], dest, position);
      if next.None? {
        return None;
      }
      dest, position := next.value.0, next.value.1;
      O := O + 1;
    }
    r := Some(dest);
  }

  /** InsertOverlays: the overlays are inserted into the destination list. */
  method InsertOverlays(ov: seq<BufferInfo>, dest: seq<BufferInfo>) returns (r: Option<seq<BufferInfo>>)
    ensures r == InsertOverlaysSpec(ov, dest)
    ensures r.Some? ==> multiset(r.value) == multiset(dest) + multiset(ov[..|ov| - 1])
  {
    if |ov| == 0 {
      // size() - 1 wraps to the largest u32 and OverLay[0] is read
      return None;
    }
    r := PlaceOverlays(ov, dest, |ov| - 1);
  }

  /** A single overlay is never inserted: the loop runs zero times. */
  lemma LastOverlayDropped(o: BufferInfo, dest: seq<BufferInfo>)
    ensures InsertOverlaysSpec([o], dest) == Some(dest)
  {
  }

  /** InsertOverlays with the loop bound size(): every overlay is inserted. */
  function InsertAllOverlays(ov: seq<BufferInfo>, dest: seq<BufferInfo>): (r: Option<seq<BufferInfo>>)
    ensures r.Some? ==> |r.value| == |dest| + |ov|
    ensures r.Some? ==> multiset(r.value) == multiset(dest) + multiset(ov)
  {
    OverlaysFromPermutes(ov, dest, 0, |ov|, -1);
    assert ov[0..|ov|] == ov;
    OverlaysFrom(ov, dest, 0, |ov|, -1)
  }
}
