// Grid topology of the mass-spring cloth: vertex numbering, the triangle
// index list, the spring network and the default pin mask. Everything here
// is integer bookkeeping; the floating-point physics is not modelled.
//
// Throughout, `w` and `h` are the width and height segment counts. The grid
// has (w+1) columns and (h+1) rows of vertices, numbered row by row.

module ClothGrid {

  /** A grid cell (column x, row y). A vertex's rest position in the source,
      ((x/w - 0.5) * clothWidth, 0, (y/h - 0.5) * clothHeight), is a function
      of its cell alone, so the cell stands for the position. */
  datatype GridPoint = GridPoint(x: int, y: int)

  function VertexCount(w: nat, h: nat): nat {
    (w + 1) * (h + 1)
  }

  function VertexIndex(w: nat, x: int, y: int): int {
    y * (w + 1) + x
  }

  /** The cell that vertex number i belongs to. */
  function CellOf(w: nat, i: int): GridPoint {
    GridPoint(i % (w + 1), i / (w + 1))
  }

  predicate InGrid(w: nat, h: nat, p: GridPoint) {
    0 <= p.x <= w && 0 <= p.y <= h
  }

  /** Every cell of the grid gets an index in [0, N), and CellOf recovers it. */
  lemma IndexOfCell(w: nat, h: nat, x: int, y: int)
    requires 0 <= x <= w && 0 <= y <= h
    ensures 0 <= VertexIndex(w, x, y) < VertexCount(w, h)
    ensures CellOf(w, VertexIndex(w, x, y)) == GridPoint(x, y)
  {
    var i := VertexIndex(w, x, y);
    assert y * (w + 1) <= h * (w + 1) by { MulMono(y, h, w + 1); }
    assert h * (w + 1) + w < (w + 1) * (h + 1);
    DivModUnique(i, w + 1, y, x);
  }

  /** Every index in [0, N) is the index of exactly the cell CellOf names. */
  lemma CellOfIndex(w: nat, h: nat, i: int)
    requires 0 <= i < VertexCount(w, h)
    ensures InGrid(w, h, CellOf(w, i))
    ensures VertexIndex(w, CellOf(w, i).x, CellOf(w, i).y) == i
  {
    var q, r := i / (w + 1), i % (w + 1);
    assert i == q * (w + 1) + r;
    if q > h {
      MulMono(h + 1, q, w + 1);
      assert false;
    }
  }

  /** The numbering is a bijection between the grid's cells and [0, N). */
  lemma IndexBijection(w: nat, h: nat)
    ensures forall x, y :: 0 <= x <= w && 0 <= y <= h ==>
      0 <= VertexIndex(w, x, y) < VertexCount(w, h) && CellOf(w, VertexIndex(w, x, y)) == GridPoint(x, y)
    ensures forall i :: 0 <= i < VertexCount(w, h) ==>
      InGrid(w, h, CellOf(w, i)) && VertexIndex(w, CellOf(w, i).x, CellOf(w, i).y) == i
  {
    forall x, y | 0 <= x <= w && 0 <= y <= h
      ensures 0 <= VertexIndex(w, x, y) < VertexCount(w, h) && CellOf(w, VertexIndex(w, x, y)) == GridPoint(x, y)
    {
      IndexOfCell(w, h, x, y);
    }
    forall i | 0 <= i < VertexCount(w, h)
      ensures InGrid(w, h, CellOf(w, i)) && VertexIndex(w, CellOf(w, i).x, CellOf(w, i).y) == i
    {
      CellOfIndex(w, h, i);
    }
  }

  lemma MulMono(a: int, b: int, c: nat)
    requires a <= b
    ensures a * c <= b * c
  {
  }

  lemma DivModUnique(i: int, d: int, q: int, r: int)
    requires d > 0 && 0 <= r < d && i == q * d + r
    ensures i / d == q && i % d == r
  {
    var q', r' := i / d, i % d;
    assert q' * d + r' == q * d + r;
    if q' < q {
      MulMono(q' + 1, q, d);
      assert false;
    } else if q < q' {
      MulMono(q + 1, q', d);
      assert false;
    }
  }

  // ------------------------------------------------------------------
  // Triangles: each cell with top-left vertex i emits (i, i+w+1, i+1)
  // and (i+1, i+w+1, i+w+2), cells scanned row by row.
  // ------------------------------------------------------------------

  function CellTriangles(w: nat, i: int): seq<int> {
    [i, i + w + 1, i + 1, i + 1, i + w + 1, i + w + 2]
  }

  /** The triangles of the first n cells of row y. */
  function RowTriangles(w: nat, y: int, n: nat): seq<int> {
    if n == 0 then [] else RowTriangles(w, y, n - 1) + CellTriangles(w, VertexIndex(w, n - 1, y))
  }

  /** The triangles of the first m rows of cells. */
  function TriangleRows(w: nat, m: nat): seq<int> {
    if m == 0 then [] else TriangleRows(w, m - 1) + RowTriangles(w, m - 1, w)
  }

  function TriangleList(w: nat, h: nat): seq<int> {
    TriangleRows(w, h)
  }

  lemma {:induction false} RowTrianglesLength(w: nat, y: int, n: nat)
    ensures |RowTriangles(w, y, n)| == 6 * n
  {
    if n > 0 {
      RowTrianglesLength(w, y, n - 1);
    }
  }

  lemma {:induction false} TriangleRowsLength(w: nat, m: nat)
    ensures |TriangleRows(w, m)| == 6 * w * m
  {
    if m > 0 {
      var before := |TriangleRows(w, m - 1)|;
      assert before == 6 * w * (m - 1) by { TriangleRowsLength(w, m - 1); }
      assert |RowTriangles(w, m - 1, w)| == 6 * w by { RowTrianglesLength(w, m - 1, w); }
      assert |TriangleRows(w, m)| == before + 6 * w;
      MulSucc(m - 1, 6 * w);
      assert 6 * w * (m - 1) == (m - 1) * (6 * w) && 6 * w * m == m * (6 * w);
    }
  }

  /** Two triangles per cell: the list holds exactly 6*w*h indices. */
  lemma TriangleCount(w: nat, h: nat)
    ensures |TriangleList(w, h)| == 6 * w * h
  {
    TriangleRowsLength(w, h);
  }

  /** All six indices of a cell strictly inside the grid are vertex numbers,
      and each of its two triangles has three distinct corners. */
  lemma CellTrianglesValid(w: nat, h: nat, x: int, y: int)
    requires 0 <= x < w && 0 <= y < h
    ensures forall k :: 0 <= k < 6 ==> 0 <= CellTriangles(w, VertexIndex(w, x, y))[k] < VertexCount(w, h)
    ensures forall k :: 0 <= k < 6 ==> CellTriangles(w, VertexIndex(w, x, y))[k] != CellTriangles(w, VertexIndex(w, x, y))[3 * (k / 3) + (k + 1) % 3]
  {
    IndexOfCell(w, h, x + 1, y + 1);
    IndexOfCell(w, h, x, y);
    assert VertexIndex(w, x + 1, y + 1) == VertexIndex(w, x, y) + w + 2;
  }

  lemma {:induction false} RowTrianglesInRange(w: nat, h: nat, y: int, n: nat)
    requires 0 <= y < h && n <= w
    ensures forall k :: 0 <= k < |RowTriangles(w, y, n)| ==> 0 <= RowTriangles(w, y, n)[k] < VertexCount(w, h)
  {
    if n > 0 {
      RowTrianglesInRange(w, h, y, n - 1);
      CellTrianglesValid(w, h, n - 1, y);
    }
  }

  lemma {:induction false} TriangleRowsInRange(w: nat, h: nat, m: nat)
    requires m <= h
    ensures forall k :: 0 <= k < |TriangleRows(w, m)| ==> 0 <= TriangleRows(w, m)[k] < VertexCount(w, h)
  {
    if m > 0 {
      TriangleRowsInRange(w, h, m - 1);
      RowTrianglesInRange(w, h, m - 1, w);
    }
  }

  /** Every entry of the triangle list is a valid vertex index. */
  lemma TriangleIndicesInRange(w: nat, h: nat)
    ensures forall k :: 0 <= k < |TriangleList(w, h)| ==> 0 <= TriangleList(w, h)[k] < VertexCount(w, h)
  {
    TriangleRowsInRange(w, h, h);
  }

  /** Cell (x, y) owns the six entries starting at 6 * (y * w + x). */
  lemma TriangleLayout(w: nat, h: nat, x: int, y: int)
    requires 0 <= x < w && 0 <= y < h
    ensures 6 * (y * w + x) + 6 <= |TriangleList(w, h)|
    ensures TriangleList(w, h)[6 * (y * w + x) .. 6 * (y * w + x) + 6] == CellTriangles(w, VertexIndex(w, x, y))
  {
    var base := 6 * w * y;
    var list := TriangleList(w, h);
    var cell := CellTriangles(w, VertexIndex(w, x, y));
    assert base + 6 * w <= |list| && list[base .. base + 6 * w] == RowTriangles(w, y, w) by {
      RowInList(w, h, y);
    }
    var block := list[base .. base + 6 * w];
    assert block[6 * x .. 6 * x + 6] == cell by {
      CellInRow(w, y, x);
    }
    assert 6 * (y * w + x) == base + 6 * x by { LayoutOffset(w, x, y); }
    SliceOfSlice(list, base, base + 6 * w, 6 * x, 6 * x + 6);
  }

  lemma SliceOfSlice(s: seq<int>, a: int, b: int, c: int, d: int)
    requires 0 <= a <= b <= |s| && 0 <= c <= d <= b - a
    ensures s[a..b][c..d] == s[a + c .. a + d]
  {
    assert forall j :: 0 <= j < d - c ==> s[a..b][c..d][j] == s[a + c .. a + d][j];
  }

  lemma LayoutOffset(w: int, x: int, y: int)
    ensures 6 * (y * w + x) == 6 * w * y + 6 * x
  {
  }

  /** Within its row's block, cell x owns the six entries at 6 * x. */
  lemma CellInRow(w: nat, y: int, x: int)
    requires 0 <= x < w
    ensures |RowTriangles(w, y, w)| == 6 * w
    ensures RowTriangles(w, y, w)[6 * x .. 6 * x + 6] == CellTriangles(w, VertexIndex(w, x, y))
  {
    var upTo := RowTriangles(w, y, x + 1);
    assert |RowTriangles(w, y, x)| == 6 * x by { RowTrianglesLength(w, y, x); }
    assert |RowTriangles(w, y, w)| == 6 * w by { RowTrianglesLength(w, y, w); }
    assert upTo == RowTriangles(w, y, x) + CellTriangles(w, VertexIndex(w, x, y));
    assert upTo <= RowTriangles(w, y, w) by { RowTrianglesPrefix(w, y, x + 1, w); }
    BlockOfPrefix(RowTriangles(w, y, w), RowTriangles(w, y, x), CellTriangles(w, VertexIndex(w, x, y)));
  }

  /** Row y of cells owns the 6w entries starting at 6wy. */
  lemma RowInList(w: nat, h: nat, y: int)
    requires 0 <= y < h
    ensures 6 * w * y + 6 * w <= |TriangleList(w, h)|
    ensures TriangleList(w, h)[6 * w * y .. 6 * w * y + 6 * w] == RowTriangles(w, y, w)
  {
    var upTo := TriangleRows(w, y + 1);
    assert |TriangleRows(w, y)| == 6 * w * y by { TriangleRowsLength(w, y); }
    assert |RowTriangles(w, y, w)| == 6 * w by { RowTrianglesLength(w, y, w); }
    assert upTo == TriangleRows(w, y) + RowTriangles(w, y, w);
    assert upTo <= TriangleList(w, h) by { TriangleRowsPrefix(w, y + 1, h); }
    BlockOfPrefix(TriangleList(w, h), TriangleRows(w, y), RowTriangles(w, y, w));
  }

  /** If `before + block` is a prefix of `s`, then `block` sits in `s` right
      after `before`. */
  lemma BlockOfPrefix(s: seq<int>, before: seq<int>, block: seq<int>)
    requires before + block <= s
    ensures |before| + |block| <= |s|
    ensures s[|before| .. |before| + |block|] == block
  {
    assert forall j :: |before| <= j < |before| + |block| ==> s[j] == (before + block)[j];
  }

  lemma {:induction false} RowTrianglesPrefix(w: nat, y: int, n: nat, n': nat)
    requires n <= n'
    ensures RowTriangles(w, y, n) <= RowTriangles(w, y, n')
  {
    if n < n' {
      RowTrianglesPrefix(w, y, n, n' - 1);
    }
  }

  lemma {:induction false} TriangleRowsPrefix(w: nat, m: nat, m': nat)
    requires m <= m'
    ensures TriangleRows(w, m) <= TriangleRows(w, m')
  {
    if m < m' {
      TriangleRowsPrefix(w, m, m' - 1);
    }
  }

  // ------------------------------------------------------------------
  // Springs. The list is cleared, then the vertices are scanned row by
  // row and vertex (x, y) with index i adds, in this order: structural
  // i->i+1 and i->i+w+1, shear i->i+w+2 and i+1->i+w+1, bend i->i+2 and
  // i->i+2(w+1), each only where the far end exists. Stiffness and damping
  // depend on the kind alone (structural: springStiffness, springDamping;
  // shear: half the stiffness; bend: bendStiffness, half the damping), so
  // the kind stands for them.
  // ------------------------------------------------------------------

  datatype SpringKind = Structural | Shear | Bend

  datatype Spring = Spring(a: int, b: int, kind: SpringKind)

  /** The list after `springs.Add(sp)` when c holds. */
  function AddIf(springs: seq<Spring>, c: bool, sp: Spring): seq<Spring> {
    if c then springs + [sp] else springs
  }

  /** The k-th spring vertex (x, y) may add, k in [0, 6), in the order the
      scan adds them. */
  function CandidateSpring(w: nat, x: int, y: int, k: nat): Spring {
    var i := VertexIndex(w, x, y);
    if k == 0 then Spring(i, i + 1, Structural)
    else if k == 1 then Spring(i, i + w + 1, Structural)
    else if k == 2 then Spring(i, i + w + 2, Shear)
    else if k == 3 then Spring(i + 1, i + w + 1, Shear)
    else if k == 4 then Spring(i, i + 2, Bend)
    else Spring(i, i + (w + 1) * 2, Bend)
  }

  /** Whether the k-th candidate's far end exists, so that it is added. */
  predicate CandidateAdded(w: nat, h: nat, x: int, y: int, k: nat) {
    if k == 0 then x < w
    else if k == 1 then y < h
    else if k <= 3 then x < w && y < h
    else if k == 4 then x < w - 1
    else y < h - 1
  }

  /** The list after vertex (x, y) has taken its first k steps. */
  function VertexSteps(springs: seq<Spring>, w: nat, h: nat, x: int, y: int, k: nat): seq<Spring> {
    if k == 0 then springs
    else AddIf(VertexSteps(springs, w, h, x, y, k - 1), CandidateAdded(w, h, x, y, k - 1), CandidateSpring(w, x, y, k - 1))
  }

  /** The list after vertex (x, y) has added its springs. */
  function AddVertexSprings(springs: seq<Spring>, w: nat, h: nat, x: int, y: int): seq<Spring> {
    VertexSteps(springs, w, h, x, y, 6)
  }

  /** The list after the first n vertices of row y have added theirs. */
  function ScanRow(springs: seq<Spring>, w: nat, h: nat, y: int, n: nat): seq<Spring> {
    if n == 0 then springs else AddVertexSprings(ScanRow(springs, w, h, y, n - 1), w, h, n - 1, y)
  }

  /** The list after the first m rows, starting from the cleared list. */
  function ScanRows(w: nat, h: nat, m: nat): seq<Spring> {
    if m == 0 then [] else ScanRow(ScanRows(w, h, m - 1), w, h, m - 1, w + 1)
  }

  /** The whole spring network, in the order it is built. */
  function SpringNetwork(w: nat, h: nat): seq<Spring> {
    ScanRows(w, h, h + 1)
  }

  /** The cell offset from a spring's first end to its second that its kind
      allows: a direct neighbour, a diagonal neighbour, or two steps along a
      row or column. */
  predicate KindOffset(kind: SpringKind, dx: int, dy: int) {
    match kind
    case Structural => (dx, dy) == (1, 0) || (dx, dy) == (0, 1)
    case Shear => (dx, dy) == (1, 1) || (dx, dy) == (-1, 1)
    case Bend => (dx, dy) == (2, 0) || (dx, dy) == (0, 2)
  }

  /** Both ends are distinct vertex numbers, and the two cells they name are
      neighbours of the kind the spring claims. */
  predicate SpringFits(w: nat, h: nat, s: Spring) {
    && 0 <= s.a < VertexCount(w, h)
    && 0 <= s.b < VertexCount(w, h)
    && s.a != s.b
    && InGrid(w, h, CellOf(w, s.a))
    && InGrid(w, h, CellOf(w, s.b))
    && KindOffset(s.kind, CellOf(w, s.b).x - CellOf(w, s.a).x, CellOf(w, s.b).y - CellOf(w, s.a).y)
  }

  predicate AllFit(w: nat, h: nat, springs: seq<Spring>) {
    forall s :: s in springs ==> SpringFits(w, h, s)
  }

  lemma FitsBetween(w: nat, h: nat, x: int, y: int, dx: int, dy: int, sp: Spring)
    requires 0 <= x <= w && 0 <= y <= h && 0 <= x + dx <= w && 0 <= y + dy <= h
    requires sp.a == VertexIndex(w, x, y) && sp.b == VertexIndex(w, x + dx, y + dy)
    requires KindOffset(sp.kind, dx, dy)
    ensures SpringFits(w, h, sp)
  {
    IndexOfCell(w, h, x, y);
    IndexOfCell(w, h, x + dx, y + dy);
  }

  lemma AddIfFits(w: nat, h: nat, springs: seq<Spring>, c: bool, sp: Spring)
    requires AllFit(w, h, springs) && (c ==> SpringFits(w, h, sp))
    ensures AllFit(w, h, AddIf(springs, c, sp))
  {
  }

  lemma CandidateFits(w: nat, h: nat, x: int, y: int, k: nat)
    requires 0 <= x <= w && 0 <= y <= h && CandidateAdded(w, h, x, y, k)
    ensures SpringFits(w, h, CandidateSpring(w, x, y, k))
  {
    var sp := CandidateSpring(w, x, y, k);
    MulSucc(y, w + 1);
    MulSucc(y + 1, w + 1);
    if k == 0 {
      FitsBetween(w, h, x, y, 1, 0, sp);
    } else if k == 1 {
      FitsBetween(w, h, x, y, 0, 1, sp);
    } else if k == 2 {
      FitsBetween(w, h, x, y, 1, 1, sp);
    } else if k == 3 {
      FitsBetween(w, h, x + 1, y, -1, 1, sp);
    } else if k == 4 {
      FitsBetween(w, h, x, y, 2, 0, sp);
    } else {
      FitsBetween(w, h, x, y, 0, 2, sp);
    }
  }

  lemma {:induction false} VertexStepsFit(springs: seq<Spring>, w: nat, h: nat, x: int, y: int, k: nat)
    requires 0 <= x <= w && 0 <= y <= h && AllFit(w, h, springs)
    ensures AllFit(w, h, VertexSteps(springs, w, h, x, y, k))
  {
    if k > 0 {
      VertexStepsFit(springs, w, h, x, y, k - 1);
      if CandidateAdded(w, h, x, y, k - 1) {
        CandidateFits(w, h, x, y, k - 1);
      }
      AddIfFits(w, h, VertexSteps(springs, w, h, x, y, k - 1), CandidateAdded(w, h, x, y, k - 1), CandidateSpring(w, x, y, k - 1));
    }
  }

  /** The far ends the spring scan reaches from vertex (x, y) are vertex
      numbers whenever the scan adds a spring to them. */
  lemma NeighbourIndices(w: nat, h: nat, x: int, y: int)
    requires 0 <= x <= w && 0 <= y <= h
    ensures var i := VertexIndex(w, x, y);
      && 0 <= i < VertexCount(w, h)
      && (x < w ==> i + 1 < VertexCount(w, h))
      && (y < h ==> i + w + 1 < VertexCount(w, h))
      && (x < w && y < h ==> i + w + 2 < VertexCount(w, h))
      && (x < w - 1 ==> i + 2 < VertexCount(w, h))
      && (y < h - 1 ==> i + (w + 1) * 2 < VertexCount(w, h))
  {
    IndexOfCell(w, h, x, y);
    MulSucc(y, w + 1);
    MulSucc(y + 1, w + 1);
    if y < h {
      IndexOfCell(w, h, x, y + 1);
    }
    if y < h - 1 {
      IndexOfCell(w, h, x, y + 2);
    }
  }

  lemma {:induction false} ScanRowFits(springs: seq<Spring>, w: nat, h: nat, y: int, n: nat)
    requires 0 <= y <= h && n <= w + 1 && AllFit(w, h, springs)
    ensures AllFit(w, h, ScanRow(springs, w, h, y, n))
  {
    if n > 0 {
      ScanRowFits(springs, w, h, y, n - 1);
      VertexStepsFit(ScanRow(springs, w, h, y, n - 1), w, h, n - 1, y, 6);
    }
  }

  lemma {:induction false} ScanRowsFit(w: nat, h: nat, m: nat)
    requires m <= h + 1
    ensures AllFit(w, h, ScanRows(w, h, m))
  {
    if m > 0 {
      ScanRowsFit(w, h, m - 1);
      ScanRowFits(ScanRows(w, h, m - 1), w, h, m - 1, w + 1);
    }
  }

  /** Every spring joins two distinct valid vertices that are grid
      neighbours of the spring's kind. */
  lemma SpringsFit(w: nat, h: nat)
    ensures forall s :: s in SpringNetwork(w, h) ==> SpringFits(w, h, s)
  {
    ScanRowsFit(w, h, h + 1);
  }

  // Counting springs by kind.

  function CountKind(springs: seq<Spring>, kind: SpringKind): nat {
    if springs == [] then 0
    else CountKind(springs[..|springs| - 1], kind) + (if springs[|springs| - 1].kind == kind then 1 else 0)
  }

  function Min(a: int, b: int): int {
    if a <= b then a else b
  }

  function Max0(a: int): nat {
    if a <= 0 then 0 else a
  }

  /** Every spring has exactly one kind, so the three counts add up. */
  lemma {:induction false} CountKindsPartition(s: seq<Spring>)
    ensures |s| == CountKind(s, Structural) + CountKind(s, Shear) + CountKind(s, Bend)
  {
    if s != [] {
      CountKindsPartition(s[..|s| - 1]);
    }
  }

  lemma CountAddIf(springs: seq<Spring>, c: bool, sp: Spring, kind: SpringKind)
    ensures CountKind(AddIf(springs, c, sp), kind) == CountKind(springs, kind) + (if c && sp.kind == kind then 1 else 0)
  {
    if c {
      assert (springs + [sp])[..|springs|] == springs;
    }
  }

  lemma VertexSpringCounts(springs: seq<Spring>, w: nat, h: nat, x: int, y: int, kind: SpringKind)
    ensures CountKind(AddVertexSprings(springs, w, h, x, y), kind) == CountKind(springs, kind)
      + (if kind == Structural then (if x < w then 1 else 0) + (if y < h then 1 else 0) else 0)
      + (if kind == Shear && x < w && y < h then 2 else 0)
      + (if kind == Bend then (if x < w - 1 then 1 else 0) + (if y < h - 1 then 1 else 0) else 0)
  {
    var s0 := springs;
    var s1 := VertexSteps(springs, w, h, x, y, 1);
    var s2 := VertexSteps(springs, w, h, x, y, 2);
    var s3 := VertexSteps(springs, w, h, x, y, 3);
    var s4 := VertexSteps(springs, w, h, x, y, 4);
    var s5 := VertexSteps(springs, w, h, x, y, 5);
    assert VertexSteps(springs, w, h, x, y, 0) == s0;
    assert s1 == AddIf(s0, CandidateAdded(w, h, x, y, 0), CandidateSpring(w, x, y, 0));
    assert s2 == AddIf(s1, CandidateAdded(w, h, x, y, 1), CandidateSpring(w, x, y, 1));
    assert s3 == AddIf(s2, CandidateAdded(w, h, x, y, 2), CandidateSpring(w, x, y, 2));
    assert s4 == AddIf(s3, CandidateAdded(w, h, x, y, 3), CandidateSpring(w, x, y, 3));
    assert s5 == AddIf(s4, CandidateAdded(w, h, x, y, 4), CandidateSpring(w, x, y, 4));
    CountAddIf(s0, CandidateAdded(w, h, x, y, 0), CandidateSpring(w, x, y, 0), kind);
    CountAddIf(s1, CandidateAdded(w, h, x, y, 1), CandidateSpring(w, x, y, 1), kind);
    CountAddIf(s2, CandidateAdded(w, h, x, y, 2), CandidateSpring(w, x, y, 2), kind);
    CountAddIf(s3, CandidateAdded(w, h, x, y, 3), CandidateSpring(w, x, y, 3), kind);
    CountAddIf(s4, CandidateAdded(w, h, x, y, 4), CandidateSpring(w, x, y, 4), kind);
    CountAddIf(s5, CandidateAdded(w, h, x, y, 5), CandidateSpring(w, x, y, 5), kind);
    assert AddVertexSprings(springs, w, h, x, y) == AddIf(s5, CandidateAdded(w, h, x, y, 5), CandidateSpring(w, x, y, 5));
  }

  /** The springs of one kind the first n vertices of row y add. */
  function RowKindCount(w: nat, h: nat, y: int, n: nat, kind: SpringKind): int {
    match kind
    case Structural => Min(n, w) + (if y < h then n else 0)
    case Shear => if y < h then 2 * Min(n, w) else 0
    case Bend => Min(n, Max0(w - 1)) + (if y < h - 1 then n else 0)
  }

  lemma {:induction false} ScanRowCounts(springs: seq<Spring>, w: nat, h: nat, y: int, n: nat, kind: SpringKind)
    requires n <= w + 1
    ensures CountKind(ScanRow(springs, w, h, y, n), kind) == CountKind(springs, kind) + RowKindCount(w, h, y, n, kind)
  {
    if n > 0 {
      var prev := ScanRow(springs, w, h, y, n - 1);
      var before := CountKind(prev, kind);
      assert before == CountKind(springs, kind) + RowKindCount(w, h, y, n - 1, kind) by {
        ScanRowCounts(springs, w, h, y, n - 1, kind);
      }
      VertexSpringCounts(prev, w, h, n - 1, y, kind);
    }
  }

  lemma MulSucc(a: int, c: int)
    ensures (a + 1) * c == a * c + c
  {
  }

  lemma {:induction false} StructuralCount(w: nat, h: nat, m: nat)
    requires m <= h + 1
    ensures CountKind(ScanRows(w, h, m), Structural) == m * w + Min(m, h) * (w + 1)
  {
    if m > 0 {
      var before := ScanRows(w, h, m - 1);
      var prev := CountKind(before, Structural);
      assert prev == (m - 1) * w + Min(m - 1, h) * (w + 1) by { StructuralCount(w, h, m - 1); }
      assert CountKind(ScanRows(w, h, m), Structural) == prev + Min(w + 1, w) + (if m - 1 < h then w + 1 else 0) by {
        ScanRowCounts(before, w, h, m - 1, w + 1, Structural);
      }
      StructuralArith(w, h, m);
    }
  }

  lemma StructuralArith(w: nat, h: nat, m: nat)
    requires 0 < m <= h + 1
    ensures (m - 1) * w + Min(m - 1, h) * (w + 1) + Min(w + 1, w) + (if m - 1 < h then w + 1 else 0)
      == m * w + Min(m, h) * (w + 1)
  {
    MulSucc(m - 1, w);
    MulSucc(m - 1, w + 1);
  }

  lemma {:induction false} ShearCount(w: nat, h: nat, m: nat)
    requires m <= h + 1
    ensures CountKind(ScanRows(w, h, m), Shear) == 2 * w * Min(m, h)
  {
    if m > 0 {
      var before := ScanRows(w, h, m - 1);
      var prev := CountKind(before, Shear);
      assert prev == 2 * w * Min(m - 1, h) by { ShearCount(w, h, m - 1); }
      assert CountKind(ScanRows(w, h, m), Shear) == prev + (if m - 1 < h then 2 * Min(w + 1, w) else 0) by {
        ScanRowCounts(before, w, h, m - 1, w + 1, Shear);
      }
      ShearArith(w, h, m);
    }
  }

  lemma ShearArith(w: nat, h: nat, m: nat)
    requires 0 < m <= h + 1
    ensures 2 * w * Min(m - 1, h) + (if m - 1 < h then 2 * Min(w + 1, w) else 0) == 2 * w * Min(m, h)
  {
    if m - 1 < h {
      MulSucc(m - 1, 2 * w);
      assert 2 * w * (m - 1) == (m - 1) * (2 * w);
      assert 2 * w * m == m * (2 * w);
    }
  }

  lemma {:induction false} BendCount(w: nat, h: nat, m: nat)
    requires m <= h + 1
    ensures CountKind(ScanRows(w, h, m), Bend) == m * Max0(w - 1) + Min(m, Max0(h - 1)) * (w + 1)
  {
    if m > 0 {
      var before := ScanRows(w, h, m - 1);
      var prev := CountKind(before, Bend);
      assert prev == (m - 1) * Max0(w - 1) + Min(m - 1, Max0(h - 1)) * (w + 1) by { BendCount(w, h, m - 1); }
      assert CountKind(ScanRows(w, h, m), Bend) == prev + Min(w + 1, Max0(w - 1)) + (if m - 1 < h - 1 then w + 1 else 0) by {
        ScanRowCounts(before, w, h, m - 1, w + 1, Bend);
      }
      BendArith(w, h, m);
    }
  }

  lemma BendArith(w: nat, h: nat, m: nat)
    requires 0 < m <= h + 1
    ensures (m - 1) * Max0(w - 1) + Min(m - 1, Max0(h - 1)) * (w + 1)
      + Min(w + 1, Max0(w - 1)) + (if m - 1 < h - 1 then w + 1 else 0)
      == m * Max0(w - 1) + Min(m, Max0(h - 1)) * (w + 1)
  {
    MulSucc(m - 1, Max0(w - 1));
    MulSucc(m - 1, w + 1);
  }

  /** The closed-form counts: w(h+1)+h(w+1) structural, 2wh shear and
      max(w-1,0)(h+1)+max(h-1,0)(w+1) bend springs, and nothing else. The
      list is cleared first, so every rebuild gives the same counts. */
  lemma SpringCounts(w: nat, h: nat)
    ensures CountKind(SpringNetwork(w, h), Structural) == w * (h + 1) + h * (w + 1)
    ensures CountKind(SpringNetwork(w, h), Shear) == 2 * w * h
    ensures CountKind(SpringNetwork(w, h), Bend) == Max0(w - 1) * (h + 1) + Max0(h - 1) * (w + 1)
    ensures |SpringNetwork(w, h)| == w * (h + 1) + h * (w + 1) + 2 * w * h + Max0(w - 1) * (h + 1) + Max0(h - 1) * (w + 1)
  {
    StructuralCount(w, h, h + 1);
    ShearCount(w, h, h + 1);
    BendCount(w, h, h + 1);
    assert Min(h + 1, h) == h;
    assert Min(h + 1, Max0(h - 1)) == Max0(h - 1);
    assert (h + 1) * w == w * (h + 1);
    assert (h + 1) * Max0(w - 1) == Max0(w - 1) * (h + 1);
    CountKindsPartition(SpringNetwork(w, h));
  }

  // ------------------------------------------------------------------
  // Pin mask.
  // ------------------------------------------------------------------

  /** The mask installed when the inspector's mask is missing or has the
      wrong length: vertices 0..w pinned, all others free. */
  function DefaultPinMask(w: nat, h: nat): seq<bool> {
    seq(VertexCount(w, h), i => i <= w)
  }

  /** The default mask pins exactly the vertices of row 0, the top edge. */
  lemma DefaultPinsTopRow(w: nat, h: nat)
    ensures |DefaultPinMask(w, h)| == VertexCount(w, h)
    ensures forall i :: 0 <= i < VertexCount(w, h) ==> (DefaultPinMask(w, h)[i] <==> CellOf(w, i).y == 0)
  {
    forall i | 0 <= i < VertexCount(w, h)
      ensures DefaultPinMask(w, h)[i] <==> CellOf(w, i).y == 0
    {
      CellOfIndex(w, h, i);
      if CellOf(w, i).y > 0 {
        MulMono(1, CellOf(w, i).y, w + 1);
      }
    }
  }

  /** PinVertex: an in-range index gets the new flag, anything else is
      ignored. */
  function PinUpdate(mask: seq<bool>, index: int, pin: bool): seq<bool> {
    if 0 <= index < |mask| then mask[index := pin] else mask
  }

  lemma PinUpdateEffect(mask: seq<bool>, index: int, pin: bool)
    ensures |PinUpdate(mask, index, pin)| == |mask|
    ensures 0 <= index < |mask| ==> PinUpdate(mask, index, pin)[index] == pin
    ensures forall j :: 0 <= j < |mask| && j != index ==> PinUpdate(mask, index, pin)[j] == mask[j]
  {
  }

  /** Pinning and then restoring the old flag gives back the old mask. */
  lemma PinUpdateUndo(mask: seq<bool>, index: int, pin: bool)
    requires 0 <= index < |mask|
    ensures PinUpdate(PinUpdate(mask, index, pin), index, mask[index]) == mask
  {
  }
}
