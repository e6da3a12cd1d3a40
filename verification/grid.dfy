/**
 The `WordGrid` data model: an `n x m` grid of string cells, the error
 outcomes of its operations, and the three constructors
 (`from_list_of_lists`, `from_list_of_strings`, `from_positions`)
 together with row and column views.
 */
module Grid {
  import opened Text

  /** The failures the Python code raises, one constructor per cause. */
  datatype GridError =
    | EmptyPositions     // `max()` of an empty position list
    | IndexOutOfRange    // a list or string subscript past its end (IndexError)
    | ZeroStep           // `range(start, stop, 0)` (ValueError)
    | NoLetters          // bounding box of a grid without letters (TypeError on None)
    | NoGameToday        // the day's entry is missing from the schedule (KeyError)

  datatype Option<T> = None | Some(value: T) {
    function GetOr(default: T): T {
      if Some? then value else default
    }
  }

  datatype Result<T> = Ok(value: T) | Err(error: GridError)

  /** A `(row, column)` coordinate, as the Python tuples `(x, y)`. */
  type Coord = (int, int)

  /** The grid object: the declared sizes and the cell rows. */
  datatype WordGrid = WordGrid(n: nat, m: nat, cells: seq<seq<string>>) {

    /** The class invariant: `n` rows of `m` cells each. */
    predicate Wf() {
      |cells| == n && forall r :: 0 <= r < |cells| ==> |cells[r]| == m
    }

    predicate InBounds(c: Coord) {
      0 <= c.0 < n && 0 <= c.1 < m
    }

    /** A cell that holds a non-empty string (Python truthiness). */
    predicate Filled(c: Coord) {
      0 <= c.0 < |cells| && 0 <= c.1 < |cells[c.0]| && cells[c.0][c.1] != ""
    }
  }

  /** Every filled cell of the grid. */
  function FilledSet(g: WordGrid): set<Coord> {
    set r, c | 0 <= r < |g.cells| && 0 <= c < |g.cells[r]| && g.cells[r][c] != "" :: (r, c)
  }

  lemma FilledSetIsFilled(g: WordGrid, c: Coord)
    ensures c in FilledSet(g) <==> g.Filled(c)
  {
    if g.Filled(c) {
      var r, k := c.0, c.1;
      assert g.cells[r][k] != "";
      assert (r, k) in FilledSet(g);
    }
  }

  /** A grid whose every cell is already normalised. */
  predicate IsNormalGrid(g: WordGrid) {
    forall r, c :: 0 <= r < |g.cells| && 0 <= c < |g.cells[r]| ==> IsNormalCell(g.cells[r][c])
  }

  /** `WordGrid(n, m)`: `_generate_grid` fills every cell with `""`. */
  function NewGrid(n: nat, m: nat): (g: WordGrid)
    ensures g.Wf() && g.n == n && g.m == m
    ensures FilledSet(g) == {}
  {
    var g := WordGrid(n, m, seq(n, _ => seq(m, _ => "")));
    assert forall c :: c in FilledSet(g) ==> false;
    g
  }

  /** `from_list_of_lists`: keeps the rows verbatim, sizes from the first row. */
  function FromLists(rows: seq<seq<string>>): (r: Result<WordGrid>)
    ensures r.Err? <==> |rows| == 0
    ensures r.Err? ==> r.error == IndexOutOfRange
    ensures r.Ok? ==> r.value.cells == rows && r.value.n == |rows| && r.value.m == |rows[0]|
    ensures r.Ok? ==> (r.value.Wf() <==> forall i :: 0 <= i < |rows| ==> |rows[i]| == |rows[0]|)
  {
    if |rows| == 0 then Err(IndexOutOfRange)
    else Ok(WordGrid(|rows|, |rows[0]|, rows))
  }

  /** `from_list_of_strings`: one cell per character, normalised. */
  function FromStrings(rows: seq<string>): (r: Result<WordGrid>)
    ensures r.Err? <==> |rows| == 0
    ensures r.Err? ==> r.error == IndexOutOfRange
    ensures r.Ok? ==> r.value.n == |rows| && r.value.m == |rows[0]| && |r.value.cells| == |rows|
    ensures r.Ok? ==> forall i :: 0 <= i < |rows| ==> |r.value.cells[i]| == |rows[i]|
    ensures r.Ok? ==> forall i, j :: 0 <= i < |rows| && 0 <= j < |rows[i]| ==>
      r.value.cells[i][j] == (if IsLetter(rows[i][j]) then [Lower(rows[i][j])] else "")
    ensures r.Ok? ==> IsNormalGrid(r.value)
    ensures r.Ok? ==> (r.value.Wf() <==> forall i :: 0 <= i < |rows| ==> |rows[i]| == |rows[0]|)
  {
    if |rows| == 0 then Err(IndexOutOfRange)
    else
      NormalizeSingle();
      var cells := seq(|rows|, i requires 0 <= i < |rows| =>
        seq(|rows[i]|, j requires 0 <= j < |rows[i]| => Normalize([rows[i][j]])));
      Ok(WordGrid(|rows|, |rows[0]|, cells))
  }

  /** A sparse input record `{x, y, letter}`: `x` is the column, `y` the row. */
  datatype Position = Position(x: nat, y: nat, letter: string)

  /** `max(p["y"] for p in positions)` and its column counterpart. */
  function MaxRow(ps: seq<Position>): (r: nat)
    requires |ps| > 0
    ensures forall k :: 0 <= k < |ps| ==> ps[k].y <= r
    ensures exists k :: 0 <= k < |ps| && ps[k].y == r
  {
    if |ps| == 1 then ps[0].y
    else
      var rest := MaxRow(ps[1..]);
      assert forall k :: 1 <= k < |ps| ==> ps[k] == ps[1..][k - 1];
      if ps[0].y >= rest then ps[0].y else rest
  }

  function MaxColumn(ps: seq<Position>): (r: nat)
    requires |ps| > 0
    ensures forall k :: 0 <= k < |ps| ==> ps[k].x <= r
    ensures exists k :: 0 <= k < |ps| && ps[k].x == r
  {
    if |ps| == 1 then ps[0].x
    else
      var rest := MaxColumn(ps[1..]);
      assert forall k :: 1 <= k < |ps| ==> ps[k] == ps[1..][k - 1];
      if ps[0].x >= rest then ps[0].x else rest
  }

  /** Position `k` is the last one of `ps` that names its cell. */
  predicate LastAtItsCell(ps: seq<Position>, k: nat)
    requires k < |ps|
  {
    forall l :: k < l < |ps| ==> (ps[l].y, ps[l].x) != (ps[k].y, ps[k].x)
  }

  /** No position of `ps` names cell `(r, c)`. */
  predicate Unlisted(ps: seq<Position>, r: int, c: int) {
    forall k :: 0 <= k < |ps| ==> (ps[k].y, ps[k].x) != (r, c)
  }

  /**
   The loop `for p in positions: grid[p.y][p.x] = normalise(p.letter)`,
   applied to `g` in list order: the last position naming a cell decides it,
   and cells no position names keep their value.
   */
  function Place(g: WordGrid, ps: seq<Position>): (h: WordGrid)
    requires g.Wf()
    requires forall k :: 0 <= k < |ps| ==> ps[k].y < g.n && ps[k].x < g.m
    ensures h.Wf() && h.n == g.n && h.m == g.m
    ensures forall k :: 0 <= k < |ps| && LastAtItsCell(ps, k) ==>
      h.cells[ps[k].y][ps[k].x] == Normalize(ps[k].letter)
    ensures forall r, c :: 0 <= r < g.n && 0 <= c < g.m && Unlisted(ps, r, c) ==>
      h.cells[r][c] == g.cells[r][c]
    decreases |ps|
  {
    if |ps| == 0 then g
    else
      var front := ps[..|ps| - 1];
      var p := ps[|ps| - 1];
      var h := Place(g, front);
      var h' := WriteCell(h, p.y, p.x, Normalize(p.letter));
      PlaceStep(g, ps, h, h');
      h'
  }

  /** The last write decides its own cell and leaves the earlier placements elsewhere alone. */
  lemma PlaceStep(g: WordGrid, ps: seq<Position>, h: WordGrid, h': WordGrid)
    requires g.Wf() && |ps| > 0
    requires forall k :: 0 <= k < |ps| ==> ps[k].y < g.n && ps[k].x < g.m
    requires h.Wf() && h.n == g.n && h.m == g.m
    requires forall k :: 0 <= k < |ps| - 1 && LastAtItsCell(ps[..|ps| - 1], k) ==>
      h.cells[ps[k].y][ps[k].x] == Normalize(ps[k].letter)
    requires forall r, c :: 0 <= r < g.n && 0 <= c < g.m && Unlisted(ps[..|ps| - 1], r, c) ==>
      h.cells[r][c] == g.cells[r][c]
    requires h' == WriteCell(h, ps[|ps| - 1].y, ps[|ps| - 1].x, Normalize(ps[|ps| - 1].letter))
    ensures forall k :: 0 <= k < |ps| && LastAtItsCell(ps, k) ==>
      h'.cells[ps[k].y][ps[k].x] == Normalize(ps[k].letter)
    ensures forall r, c :: 0 <= r < g.n && 0 <= c < g.m && Unlisted(ps, r, c) ==>
      h'.cells[r][c] == g.cells[r][c]
  {
    var front := ps[..|ps| - 1];
    var last := |ps| - 1;
    forall k | 0 <= k < |ps| && LastAtItsCell(ps, k)
      ensures h'.cells[ps[k].y][ps[k].x] == Normalize(ps[k].letter)
    {
      if k < last {
        assert (ps[last].y, ps[last].x) != (ps[k].y, ps[k].x);
        assert LastAtItsCell(front, k) by {
          forall l | k < l < |front|
            ensures (front[l].y, front[l].x) != (front[k].y, front[k].x)
          {
            assert front[l] == ps[l] && front[k] == ps[k];
          }
        }
      }
    }
    forall r, c | 0 <= r < g.n && 0 <= c < g.m && Unlisted(ps, r, c)
      ensures h'.cells[r][c] == g.cells[r][c]
    {
      assert (ps[last].y, ps[last].x) != (r, c);
      assert Unlisted(front, r, c) by {
        forall k | 0 <= k < |front|
          ensures (front[k].y, front[k].x) != (r, c)
        {
          assert front[k] == ps[k];
        }
      }
    }
  }

  /** `grid[r][c] = v` on an in-bounds cell. */
  function WriteCell(g: WordGrid, r: nat, c: nat, v: string): (h: WordGrid)
    requires g.Wf() && r < g.n && c < g.m
    ensures h.Wf() && h.n == g.n && h.m == g.m
    ensures h.cells[r][c] == v
    ensures forall i, j :: 0 <= i < g.n && 0 <= j < g.m && (i, j) != (r, c) ==> h.cells[i][j] == g.cells[i][j]
  {
    WordGrid(g.n, g.m, g.cells[r := g.cells[r][c := v]])
  }

  /**
   `from_positions`: an `(max y + 1) x (max x + 1)` grid of empty cells on
   which the positions are placed in order. An empty list has no maximum.
   */
  function FromPositions(ps: seq<Position>): (r: Result<WordGrid>)
    ensures r.Err? <==> |ps| == 0
    ensures r.Err? ==> r.error == EmptyPositions
    ensures r.Ok? ==> r.value.Wf() && r.value.n == MaxRow(ps) + 1 && r.value.m == MaxColumn(ps) + 1
    ensures r.Ok? ==> forall k :: 0 <= k < |ps| && LastAtItsCell(ps, k) ==>
      r.value.cells[ps[k].y][ps[k].x] == Normalize(ps[k].letter)
    ensures r.Ok? ==> forall i, j :: 0 <= i < r.value.n && 0 <= j < r.value.m && Unlisted(ps, i, j) ==>
      r.value.cells[i][j] == ""
  {
    if |ps| == 0 then Err(EmptyPositions)
    else
      var empty := NewGrid(MaxRow(ps) + 1, MaxColumn(ps) + 1);
      Ok(Place(empty, ps))
  }

  /** Every cell of a grid built from positions is normalised. */
  lemma FromPositionsIsNormal(ps: seq<Position>)
    requires |ps| > 0
    ensures IsNormalGrid(FromPositions(ps).value)
  {
    var g := FromPositions(ps).value;
    forall r, c | 0 <= r < |g.cells| && 0 <= c < |g.cells[r]|
      ensures IsNormalCell(g.cells[r][c])
    {
      if Unlisted(ps, r, c) {
      } else {
        var k :| 0 <= k < |ps| && (ps[k].y, ps[k].x) == (r, c);
        var last := LastIndexAt(ps, k);
      }
    }
  }

  /** The last position naming the same cell as position `k`. */
  lemma LastIndexAt(ps: seq<Position>, k: nat) returns (l: nat)
    requires k < |ps|
    ensures k <= l < |ps| && (ps[l].y, ps[l].x) == (ps[k].y, ps[k].x) && LastAtItsCell(ps, l)
    decreases |ps| - k
  {
    if LastAtItsCell(ps, k) {
      l := k;
    } else {
      var l' :| k < l' < |ps| && (ps[l'].y, ps[l'].x) == (ps[k].y, ps[k].x);
      l := LastIndexAt(ps, l');
    }
  }

  /** `get_rows`: the rows themselves. */
  function GetRows(g: WordGrid): seq<seq<string>> {
    g.cells
  }

  /**
   `get_columns`, i.e. `list(zip(*grid))`: with no rows `zip` yields no
   columns at all; otherwise one column per cell of a row.
   */
  function GetColumns(g: WordGrid): (cols: seq<seq<string>>)
    requires g.Wf()
    ensures |cols| == (if g.n == 0 then 0 else g.m)
    ensures forall j :: 0 <= j < |cols| ==> |cols[j]| == g.n
    ensures forall i, j :: 0 <= j < |cols| && 0 <= i < g.n ==> cols[j][i] == g.cells[i][j]
  {
    if g.n == 0 then []
    else seq(g.m, j requires 0 <= j < g.m => seq(g.n, i requires 0 <= i < g.n => g.cells[i][j]))
  }

  /** Transposing twice gives back the rows: columns of the columns are the rows. */
  lemma ColumnsOfColumns(g: WordGrid)
    requires g.Wf() && g.n > 0 && g.m > 0
    ensures var t := WordGrid(g.m, g.n, GetColumns(g)); t.Wf() && GetColumns(t) == GetRows(g)
  {
    var t := WordGrid(g.m, g.n, GetColumns(g));
    var back := GetColumns(t);
    assert |back| == g.n;
    forall i | 0 <= i < g.n
      ensures back[i] == g.cells[i]
    {
      assert |back[i]| == g.m;
    }
  }
}
