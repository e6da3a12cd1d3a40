/**
 `get_bounding_box_extents` and `get_bounding_box_area`: the first and last
 row, and the first and last column, holding a letter, and the area of the
 rectangle they span.
 */
module BoundingBox {
  import opened Grid

  /** `any(line)`: some cell of the line is a non-empty string. */
  predicate AnyFilled(line: seq<string>) {
    exists j :: 0 <= j < |line| && line[j] != ""
  }

  /**
   `e` is what the extent loop holds after `lines[..k]`: `None` while no
   line had a letter, else the first and the last such line.
   */
  predicate Describes(lines: seq<seq<string>>, k: nat, e: Option<(nat, nat)>)
    requires k <= |lines|
  {
    match e
    case None => forall i :: 0 <= i < k ==> !AnyFilled(lines[i])
    case Some(ext) =>
      && ext.0 <= ext.1 < k
      && AnyFilled(lines[ext.0]) && AnyFilled(lines[ext.1])
      && (forall i :: 0 <= i < ext.0 ==> !AnyFilled(lines[i]))
      && (forall i :: ext.1 < i < k ==> !AnyFilled(lines[i]))
  }

  /**
   The loop `for i, line in enumerate(lines): if any(line): ...`: the first
   line seen with a letter fixes the minimum, every one moves the maximum.
   */
  function ScanExtent(lines: seq<seq<string>>, i: nat, acc: Option<(nat, nat)>): (e: Option<(nat, nat)>)
    requires i <= |lines| && Describes(lines, i, acc)
    ensures Describes(lines, |lines|, e)
    decreases |lines| - i
  {
    if i == |lines| then acc
    else if AnyFilled(lines[i]) then
      ScanExtent(lines, i + 1, Some((if acc.None? then i else acc.value.0, i)))
    else
      ScanExtent(lines, i + 1, acc)
  }

  /** The extent of the lines that hold a letter, `(None, None)` written as `None`. */
  function Extent(lines: seq<seq<string>>): (e: Option<(nat, nat)>)
    ensures Describes(lines, |lines|, e)
  {
    ScanExtent(lines, 0, None)
  }

  /** `get_bounding_box_extents`: the row extent and the column extent. */
  function BoundingBoxExtents(g: WordGrid): (Option<(nat, nat)>, Option<(nat, nat)>)
    requires g.Wf()
  {
    (Extent(GetRows(g)), Extent(GetColumns(g)))
  }

  /**
   `get_bounding_box_area`. With no letter on the board the extents are
   `None` and the subtraction raises a `TypeError`, modelled as `NoLetters`.
   */
  function BoundingBoxArea(g: WordGrid): Result<nat>
    requires g.Wf()
  {
    var (rows, cols) := BoundingBoxExtents(g);
    if rows.None? || cols.None? then Err(NoLetters)
    else Ok(SideProduct(rows.value, cols.value))
  }

  /** `(max_row - min_row + 1) * (max_column - min_column + 1)`. */
  function SideProduct(rows: (nat, nat), cols: (nat, nat)): nat
    requires rows.0 <= rows.1 && cols.0 <= cols.1
  {
    var h: nat := rows.1 - rows.0 + 1;
    var w: nat := cols.1 - cols.0 + 1;
    h * w
  }

  // ---------------------------------------------------------------------
  // The box described through the filled cells themselves.

  /** Every filled cell lies in rows `r0..r1` and columns `c0..c1`. */
  ghost predicate Encloses(g: WordGrid, r0: int, r1: int, c0: int, c1: int) {
    forall r, c :: g.Filled((r, c)) ==> r0 <= r <= r1 && c0 <= c <= c1
  }

  /** Each of the four edges of the box holds a filled cell. */
  ghost predicate Touches(g: WordGrid, r0: int, r1: int, c0: int, c1: int) {
    && (exists c :: g.Filled((r0, c)))
    && (exists c :: g.Filled((r1, c)))
    && (exists r :: g.Filled((r, c0)))
    && (exists r :: g.Filled((r, c1)))
  }

  /** A row holds a letter exactly when some cell of it is filled. */
  lemma RowAny(g: WordGrid, r: nat)
    requires g.Wf() && r < g.n
    ensures AnyFilled(GetRows(g)[r]) <==> exists c :: g.Filled((r, c))
  {
    if AnyFilled(GetRows(g)[r]) {
      var c :| 0 <= c < |g.cells[r]| && g.cells[r][c] != "";
      assert g.Filled((r, c));
    }
  }

  /** A column holds a letter exactly when some cell of it is filled. */
  lemma ColumnAny(g: WordGrid, c: nat)
    requires g.Wf() && c < |GetColumns(g)|
    ensures AnyFilled(GetColumns(g)[c]) <==> exists r :: g.Filled((r, c))
  {
    var col := GetColumns(g)[c];
    if AnyFilled(col) {
      var r :| 0 <= r < |col| && col[r] != "";
      assert g.Filled((r, c));
    }
    if exists r :: g.Filled((r, c)) {
      var r :| g.Filled((r, c));
      assert col[r] != "";
    }
  }

  /** The extents are `None` together, exactly when no cell is filled. */
  lemma NoExtentIffEmpty(g: WordGrid)
    requires g.Wf()
    ensures var (rows, cols) := BoundingBoxExtents(g);
      && (rows.None? <==> FilledSet(g) == {})
      && (cols.None? <==> FilledSet(g) == {})
  {
    var (rows, cols) := BoundingBoxExtents(g);
    if FilledSet(g) != {} {
      var x :| x in FilledSet(g);
      FilledSetIsFilled(g, x);
      RowAny(g, x.0);
      ColumnAny(g, x.1);
    }
    if rows.Some? {
      RowAny(g, rows.value.0);
      var c :| g.Filled((rows.value.0, c));
      FilledSetIsFilled(g, (rows.value.0, c));
    }
    if cols.Some? {
      ColumnAny(g, cols.value.0);
      var r :| g.Filled((r, cols.value.0));
      FilledSetIsFilled(g, (r, cols.value.0));
    }
  }

  /**
   The extents are `None` together, exactly when no cell is filled; and
   otherwise they are the box that encloses every filled cell and touches a
   filled cell on each of its four edges.
   */
  lemma BoundingBoxSpec(g: WordGrid)
    requires g.Wf()
    ensures var (rows, cols) := BoundingBoxExtents(g);
      && (rows.None? <==> FilledSet(g) == {})
      && (cols.None? <==> FilledSet(g) == {})
      && (rows.Some? && cols.Some? ==>
            && Encloses(g, rows.value.0, rows.value.1, cols.value.0, cols.value.1)
            && Touches(g, rows.value.0, rows.value.1, cols.value.0, cols.value.1))
  {
    NoExtentIffEmpty(g);
    var (rows, cols) := BoundingBoxExtents(g);
    if rows.Some? && cols.Some? {
      var (r0, r1) := rows.value;
      var (c0, c1) := cols.value;
      forall r, c | g.Filled((r, c))
        ensures r0 <= r <= r1 && c0 <= c <= c1
      {
        RowAny(g, r);
        ColumnAny(g, c);
      }
      RowAny(g, r0);
      RowAny(g, r1);
      ColumnAny(g, c0);
      ColumnAny(g, c1);
    }
  }

  /** There is only one box that encloses the filled cells and touches all four edges. */
  lemma TightBoxUnique(g: WordGrid, r0: int, r1: int, c0: int, c1: int, s0: int, s1: int, d0: int, d1: int)
    requires Encloses(g, r0, r1, c0, c1) && Touches(g, r0, r1, c0, c1)
    requires Encloses(g, s0, s1, d0, d1) && Touches(g, s0, s1, d0, d1)
    ensures r0 == s0 && r1 == s1 && c0 == d0 && c1 == d1
  {
    var a :| g.Filled((r0, a));
    var b :| g.Filled((s0, b));
    var a' :| g.Filled((r1, a'));
    var b' :| g.Filled((s1, b'));
    var e :| g.Filled((e, c0));
    var f :| g.Filled((f, d0));
    var e' :| g.Filled((e', c1));
    var f' :| g.Filled((f', d1));
  }

  /**
   The area is an error exactly when no cell is filled; otherwise it is
   between 1 and `n * m`.
   */
  lemma BoundingBoxAreaSpec(g: WordGrid)
    requires g.Wf()
    ensures BoundingBoxArea(g).Err? <==> FilledSet(g) == {}
    ensures BoundingBoxArea(g).Err? ==> BoundingBoxArea(g).error == NoLetters
    ensures BoundingBoxArea(g).Ok? ==> 1 <= BoundingBoxArea(g).value <= g.n * g.m
  {
    NoExtentIffEmpty(g);
    var (rows, cols) := BoundingBoxExtents(g);
    if rows.Some? && cols.Some? {
      var (r0, r1) := rows.value;
      var (c0, c1) := cols.value;
      assert r1 < g.n;
      assert |GetColumns(g)| <= g.m;
      ProductBounds(r1 - r0 + 1, g.n, c1 - c0 + 1, g.m);
    }
  }

  /** A successful area is the area of the one box that encloses the filled cells and touches all four edges. */
  lemma AreaOfTightBox(g: WordGrid)
    requires g.Wf()
    ensures BoundingBoxArea(g).Ok? ==>
      forall r0, r1, c0, c1 :: Encloses(g, r0, r1, c0, c1) && Touches(g, r0, r1, c0, c1) ==>
        BoundingBoxArea(g).value == (r1 - r0 + 1) * (c1 - c0 + 1)
  {
    BoundingBoxSpec(g);
    var (rows, cols) := BoundingBoxExtents(g);
    if rows.Some? && cols.Some? {
      var (r0, r1) := rows.value;
      var (c0, c1) := cols.value;
      forall s0, s1, d0, d1 | Encloses(g, s0, s1, d0, d1) && Touches(g, s0, s1, d0, d1)
        ensures BoundingBoxArea(g).value == (s1 - s0 + 1) * (d1 - d0 + 1)
      {
        TightBoxUnique(g, r0, r1, c0, c1, s0, s1, d0, d1);
      }
    }
  }

  lemma ProductBounds(a: int, n: int, b: int, m: int)
    requires 1 <= a <= n && 1 <= b <= m
    ensures 1 <= a * b <= n * m
  {
    assert a * b <= n * b;
    assert n * b <= n * m;
  }
}
