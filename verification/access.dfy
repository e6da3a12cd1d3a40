/**
 `__getitem__` and `__setitem__`: reading and writing one cell, a run of
 cells along a row or a column picked by a slice, or (for reading only) a
 rectangular block picked by two slices.
 */
module Access {
  import opened Text
  import opened Grid

  /** A Python `slice`; absent fields default to `0`, the line length and `1`. */
  datatype Slice = Slice(start: Option<nat>, stop: Option<nat>, step: Option<int>)

  /** The subscripts `g[r, c]`, `g[r, a:b:s]`, `g[a:b:s, c]` and `g[a:b:s, a:b:s]`. */
  datatype Key =
    | At(row: nat, col: nat)
    | AlongRow(row: nat, cols: Slice)
    | AlongColumn(rows: Slice, col: nat)
    | Region(rowSlice: Slice, colSlice: Slice)

  /** What a read returns: a cell, a list of cells, or a list of lists of cells. */
  datatype Value = Cell(text: string) | Line(items: seq<string>) | Block(lines: seq<seq<string>>)

  /** The grid after a write, and the exception the write raised, if any. */
  datatype Outcome = Outcome(grid: WordGrid, raised: Option<GridError>)

  /** `range(start, stop, step)` for a non-zero step. */
  function Range(start: int, stop: int, step: int): (r: seq<int>)
    requires step != 0
    ensures forall j :: 0 <= j < |r| ==> r[j] == start + j * step
    ensures step > 0 ==> (forall j :: 0 <= j < |r| ==> start <= r[j] < stop) && start + |r| * step >= stop
    ensures step < 0 ==> (forall j :: 0 <= j < |r| ==> stop < r[j] <= start) && start + |r| * step <= stop
    ensures forall i, j :: 0 <= i < j < |r| ==> r[i] != r[j]
    decreases if step > 0 then stop - start else start - stop
  {
    if (step > 0 && start >= stop) || (step < 0 && start <= stop) then []
    else
      var rest := Range(start + step, stop, step);
      RangeStep(start, stop, step, rest);
      [start] + rest
  }

  lemma RangeStep(start: int, stop: int, step: int, rest: seq<int>)
    requires step != 0
    requires forall j :: 0 <= j < |rest| ==> rest[j] == start + step + j * step
    requires step > 0 ==> (forall j :: 0 <= j < |rest| ==> start + step <= rest[j] < stop) && start + step + |rest| * step >= stop
    requires step < 0 ==> (forall j :: 0 <= j < |rest| ==> stop < rest[j] <= start + step) && start + step + |rest| * step <= stop
    requires forall i, j :: 0 <= i < j < |rest| ==> rest[i] != rest[j]
    requires step > 0 ==> start < stop
    requires step < 0 ==> start > stop
    ensures var r := [start] + rest;
      && (forall j :: 0 <= j < |r| ==> r[j] == start + j * step)
      && (step > 0 ==> (forall j :: 0 <= j < |r| ==> start <= r[j] < stop) && start + |r| * step >= stop)
      && (step < 0 ==> (forall j :: 0 <= j < |r| ==> stop < r[j] <= start) && start + |r| * step <= stop)
      && (forall i, j :: 0 <= i < j < |r| ==> r[i] != r[j])
  {
    var r := [start] + rest;
    forall j | 1 <= j < |r|
      ensures r[j] == start + j * step
    {
      assert r[j] == rest[j - 1] == start + step + (j - 1) * step;
    }
    assert start + |r| * step == start + step + |rest| * step;
    forall i, j | 0 <= i < j < |r|
      ensures r[i] != r[j]
    {
      assert r[j] == rest[j - 1];
      if i > 0 {
        assert r[i] == rest[i - 1];
      }
    }
  }

  /**
   The indices a slice selects on a line of `size` cells, after filling in
   the defaults; a zero step is the `ValueError` of `range`.
   */
  function Indices(s: Slice, size: nat): (r: Result<seq<nat>>)
    ensures r.Err? <==> s.step == Some(0)
    ensures r.Err? ==> r.error == ZeroStep
    ensures r.Ok? ==> r.value == Range(s.start.GetOr(0), s.stop.GetOr(size), s.step.GetOr(1))
  {
    var step := s.step.GetOr(1);
    if step == 0 then Err(ZeroStep)
    else
      var idx := Range(s.start.GetOr(0), s.stop.GetOr(size), step);
      Ok(seq(|idx|, k requires 0 <= k < |idx| => idx[k] as nat))
  }

  /** The coordinates a row or column key visits, in the order the loop visits them. */
  function Visits(key: Key, idx: seq<nat>): (cs: seq<Coord>)
    requires key.AlongRow? || key.AlongColumn?
    ensures |cs| == |idx|
    ensures forall k :: 0 <= k < |idx| ==> cs[k] == (if key.AlongRow? then (key.row, idx[k]) else (idx[k], key.col))
  {
    seq(|idx|, k requires 0 <= k < |idx| => if key.AlongRow? then (key.row, idx[k]) else (idx[k], key.col))
  }

  /** The slice a row or column key walks along, and the length of that line. */
  function LineSlice(g: WordGrid, key: Key): (Slice, nat)
    requires key.AlongRow? || key.AlongColumn?
  {
    if key.AlongRow? then (key.cols, g.m) else (key.rows, g.n)
  }

  /** Reads the cells in order; any one out of range is an `IndexError`. */
  function ReadAll(g: WordGrid, cs: seq<Coord>): (r: Result<seq<string>>)
    requires g.Wf()
    ensures r.Ok? <==> forall k :: 0 <= k < |cs| ==> g.InBounds(cs[k])
    ensures r.Err? ==> r.error == IndexOutOfRange
    ensures r.Ok? ==> |r.value| == |cs| && forall k :: 0 <= k < |cs| ==> r.value[k] == g.cells[cs[k].0][cs[k].1]
  {
    if forall k :: 0 <= k < |cs| ==> g.InBounds(cs[k]) then
      Ok(seq(|cs|, k requires 0 <= k < |cs| && g.InBounds(cs[k]) => g.cells[cs[k].0][cs[k].1]))
    else Err(IndexOutOfRange)
  }

  /**
   `__getitem__`. The row range of a block is built first; the column range
   only once there is a row to build, so a zero column step over an empty
   row range goes unnoticed, as in the comprehension it models.
   */
  function Get(g: WordGrid, key: Key): Result<Value>
    requires g.Wf()
  {
    match key
    case At(r, c) =>
      if g.InBounds((r, c)) then Ok(Cell(g.cells[r][c])) else Err(IndexOutOfRange)
    case AlongRow(_, _) =>
      GetLine(g, key)
    case AlongColumn(_, _) =>
      GetLine(g, key)
    case Region(rs, cs) =>
      match Indices(rs, g.n)
      case Err(e) => Err(e)
      case Ok(ri) =>
        if |ri| == 0 then Ok(Block([]))
        else
          match Indices(cs, g.m)
          case Err(e) => Err(e)
          case Ok(ci) => GetBlock(g, ri, ci)
  }

  function GetLine(g: WordGrid, key: Key): Result<Value>
    requires g.Wf() && (key.AlongRow? || key.AlongColumn?)
  {
    var (s, size) := LineSlice(g, key);
    match Indices(s, size)
    case Err(e) => Err(e)
    case Ok(idx) =>
      match ReadAll(g, Visits(key, idx))
      case Err(e) => Err(e)
      case Ok(items) => Ok(Line(items))
  }

  function GetBlock(g: WordGrid, ri: seq<nat>, ci: seq<nat>): (r: Result<Value>)
    requires g.Wf()
    ensures r.Ok? <==> forall a, b :: 0 <= a < |ri| && 0 <= b < |ci| ==> g.InBounds((ri[a], ci[b]))
    ensures r.Err? ==> r.error == IndexOutOfRange
    ensures r.Ok? ==> r.value.Block? && |r.value.lines| == |ri|
    ensures r.Ok? ==> forall a :: 0 <= a < |ri| ==> |r.value.lines[a]| == |ci|
    ensures r.Ok? ==> forall a, b :: 0 <= a < |ri| && 0 <= b < |ci| ==>
      g.InBounds((ri[a], ci[b])) && r.value.lines[a][b] == g.cells[ri[a]][ci[b]]
  {
    if forall a, b :: 0 <= a < |ri| && 0 <= b < |ci| ==> g.InBounds((ri[a], ci[b])) then
      Ok(Block(seq(|ri|, a requires 0 <= a < |ri| =>
        seq(|ci|, b requires 0 <= b < |ci| => if g.InBounds((ri[a], ci[b])) then g.cells[ri[a]][ci[b]] else ""))))
    else Err(IndexOutOfRange)
  }

  // ---------------------------------------------------------------------
  // Writing.

  /**
   The step at which the loop `for j, i in enumerate(...)` stops, started at
   step `j`: the first one whose character or cell is missing, or the end.
   */
  function Stop(g: WordGrid, cs: seq<Coord>, v: string, j: nat): (s: nat)
    requires j <= |cs|
    ensures j <= s <= |cs|
    ensures s == j || s <= |v|
    ensures forall k :: j <= k < s ==> g.InBounds(cs[k])
    ensures s < |cs| ==> s >= |v| || !g.InBounds(cs[s])
    decreases |cs| - j
  {
    if j == |cs| || j >= |v| || !g.InBounds(cs[j]) then j else Stop(g, cs, v, j + 1)
  }

  /** Every step from `j` on has a character to write and a cell in range to write it to. */
  predicate Writable(g: WordGrid, cs: seq<Coord>, v: string, j: nat) {
    && (j < |cs| ==> |cs| <= |v|)
    && forall k :: j <= k < |cs| ==> g.InBounds(cs[k])
  }

  /** The loop runs to the end exactly when every step is writable. */
  lemma StopAtEnd(g: WordGrid, cs: seq<Coord>, v: string, j: nat)
    requires j <= |cs|
    ensures Stop(g, cs, v, j) == |cs| <==> Writable(g, cs, v, j)
  {
    var s := Stop(g, cs, v, j);
    if s == |cs| && j < |cs| {
      var last := |cs| - 1;
      assert j <= last < s && g.InBounds(cs[last]);
    }
  }

  /** Where the loop stops depends on the grid only through its sizes. */
  lemma {:induction false} StopSameSizes(g: WordGrid, h: WordGrid, cs: seq<Coord>, v: string, j: nat)
    requires h.n == g.n && h.m == g.m && j <= |cs|
    ensures Stop(h, cs, v, j) == Stop(g, cs, v, j)
    decreases |cs| - j
  {
    if j < |cs| && j < |v| && g.InBounds(cs[j]) {
      StopSameSizes(g, h, cs, v, j + 1);
    }
  }

  /**
   `for j, i in enumerate(...): grid[...][...] = value[j]`, from step `j`
   on: the character is read before the cell is addressed, so a value that
   runs out and a cell out of range both raise `IndexError`. Every write
   made before the loop stops stays, the last one to a cell winning, and no
   other cell changes.
   */
  function WriteAlong(g: WordGrid, cs: seq<Coord>, v: string, j: nat): (o: Outcome)
    requires g.Wf() && j <= |cs|
    ensures o.grid.Wf() && o.grid.n == g.n && o.grid.m == g.m
    ensures o.raised.None? <==> Stop(g, cs, v, j) == |cs|
    ensures o.raised.Some? ==> o.raised.value == IndexOutOfRange
    ensures var s := Stop(g, cs, v, j);
      forall a, b :: 0 <= a < g.n && 0 <= b < g.m && (forall k :: j <= k < s ==> cs[k] != (a, b)) ==>
        o.grid.cells[a][b] == g.cells[a][b]
    ensures var s := Stop(g, cs, v, j);
      forall k :: j <= k < s && (forall l :: k < l < s ==> cs[l] != cs[k]) ==>
        o.grid.cells[cs[k].0][cs[k].1] == [v[k]]
    decreases |cs| - j, 1
  {
    if j == |cs| then Outcome(g, None)
    else if j >= |v| || !g.InBounds(cs[j]) then Outcome(g, Some(IndexOutOfRange))
    else
      WriteAlongStep(g, cs, v, j);
      WriteAlongFrame(g, cs, v, j);
      WriteAlongWrites(g, cs, v, j);
      WriteAlong(WriteCell(g, cs[j].0, cs[j].1, [v[j]]), cs, v, j + 1)
  }

  /** A step that writes its cell, followed by the rest of the loop, raises what the loop from that step raises. */
  lemma WriteAlongStep(g: WordGrid, cs: seq<Coord>, v: string, j: nat)
    requires g.Wf() && j < |cs| && j < |v| && g.InBounds(cs[j])
    ensures var o := WriteAlong(WriteCell(g, cs[j].0, cs[j].1, [v[j]]), cs, v, j + 1);
      && o.grid.Wf() && o.grid.n == g.n && o.grid.m == g.m
      && (o.raised.None? <==> Stop(g, cs, v, j) == |cs|)
      && (o.raised.Some? ==> o.raised.value == IndexOutOfRange)
    decreases |cs| - j, 0
  {
    var h := WriteCell(g, cs[j].0, cs[j].1, [v[j]]);
    StopSameSizes(g, h, cs, v, j + 1);
  }

  /** ... and changes no cell the loop from that step does not reach. */
  lemma WriteAlongFrame(g: WordGrid, cs: seq<Coord>, v: string, j: nat)
    requires g.Wf() && j < |cs| && j < |v| && g.InBounds(cs[j])
    ensures var o := WriteAlong(WriteCell(g, cs[j].0, cs[j].1, [v[j]]), cs, v, j + 1); var s := Stop(g, cs, v, j);
      forall a, b :: 0 <= a < g.n && 0 <= b < g.m && (forall k :: j <= k < s ==> cs[k] != (a, b)) ==>
        o.grid.cells[a][b] == g.cells[a][b]
    decreases |cs| - j, 0
  {
    var h := WriteCell(g, cs[j].0, cs[j].1, [v[j]]);
    StopSameSizes(g, h, cs, v, j + 1);
  }

  /** ... and leaves in each reached cell the character of the last step that reached it. */
  lemma WriteAlongWrites(g: WordGrid, cs: seq<Coord>, v: string, j: nat)
    requires g.Wf() && j < |cs| && j < |v| && g.InBounds(cs[j])
    ensures var o := WriteAlong(WriteCell(g, cs[j].0, cs[j].1, [v[j]]), cs, v, j + 1); var s := Stop(g, cs, v, j);
      forall k :: j <= k < s && (forall l :: k < l < s ==> cs[l] != cs[k]) ==>
        o.grid.cells[cs[k].0][cs[k].1] == [v[k]]
    decreases |cs| - j, 0
  {
    var h := WriteCell(g, cs[j].0, cs[j].1, [v[j]]);
    StopSameSizes(g, h, cs, v, j + 1);
  }

  /**
   `__setitem__`: the value is lower-cased first. A single cell takes the
   whole string; a row or column run takes one character per cell; a block
   key matches none of the branches and leaves the grid as it is.
   */
  function Set(g: WordGrid, key: Key, value: string): (o: Outcome)
    requires g.Wf()
    ensures o.grid.Wf() && o.grid.n == g.n && o.grid.m == g.m
    ensures key.Region? ==> o == Outcome(g, None)
  {
    var v := LowerStr(value);
    match key
    case At(r, c) =>
      if g.InBounds((r, c)) then Outcome(WriteCell(g, r, c, v), None) else Outcome(g, Some(IndexOutOfRange))
    case AlongRow(_, _) =>
      SetLine(g, key, v)
    case AlongColumn(_, _) =>
      SetLine(g, key, v)
    case Region(_, _) =>
      Outcome(g, None)
  }

  function SetLine(g: WordGrid, key: Key, v: string): (o: Outcome)
    requires g.Wf() && (key.AlongRow? || key.AlongColumn?)
    ensures o.grid.Wf() && o.grid.n == g.n && o.grid.m == g.m
  {
    var (s, size) := LineSlice(g, key);
    match Indices(s, size)
    case Err(e) => Outcome(g, Some(e))
    case Ok(idx) => WriteAlong(g, Visits(key, idx), v, 0)
  }

  // ---------------------------------------------------------------------
  // Reading and writing the same key.

  /** No slice at all: `g[r, :]`, `g[:, c]`, `g[:, :]`. */
  const Whole := Slice(None, None, None)

  /** The coordinates a row or column key addresses, none when its step is zero. */
  function Targets(g: WordGrid, key: Key): (cs: seq<Coord>)
    requires key.AlongRow? || key.AlongColumn?
  {
    var (s, size) := LineSlice(g, key);
    match Indices(s, size)
    case Err(_) => []
    case Ok(idx) => Visits(key, idx)
  }

  /** A line key never addresses the same cell twice. */
  lemma TargetsDistinct(g: WordGrid, key: Key)
    requires key.AlongRow? || key.AlongColumn?
    ensures var cs := Targets(g, key); forall k, l :: 0 <= k < l < |cs| ==> cs[k] != cs[l]
  {
    var (s, size) := LineSlice(g, key);
    var r := Indices(s, size);
    if r.Ok? {
      var cs := Visits(key, r.value);
      forall k, l | 0 <= k < l < |cs|
        ensures cs[k] != cs[l]
      {
        assert r.value[k] != r.value[l];
      }
    }
  }

  /**
   Reading a row or column key fails with `ValueError` on a zero step and
   with `IndexError` when an addressed cell is out of range; otherwise it
   lists the addressed cells in order.
   */
  lemma GetLineSpec(g: WordGrid, key: Key)
    requires g.Wf() && (key.AlongRow? || key.AlongColumn?)
    ensures var r := Get(g, key); var cs := Targets(g, key);
      && (r.Err? <==> LineSlice(g, key).0.step == Some(0) || exists k :: 0 <= k < |cs| && !g.InBounds(cs[k]))
      && (r.Err? ==> r.error == (if LineSlice(g, key).0.step == Some(0) then ZeroStep else IndexOutOfRange))
      && (r.Ok? ==> r.value.Line? && |r.value.items| == |cs|
                    && forall k :: 0 <= k < |cs| ==> r.value.items[k] == g.cells[cs[k].0][cs[k].1])
  {
  }

  /**
   Writing a cell and reading it back: the write fails exactly when the
   read would, and otherwise the cell holds the lower-cased value and no
   other cell changes.
   */
  lemma SetThenGetCell(g: WordGrid, r: nat, c: nat, value: string)
    requires g.Wf()
    ensures var o := Set(g, At(r, c), value);
      && (o.raised.None? <==> Get(g, At(r, c)).Ok?)
      && (o.raised.Some? ==> o.raised.value == IndexOutOfRange && o.grid == g)
      && (o.raised.None? ==> Get(o.grid, At(r, c)) == Ok(Cell(LowerStr(value))))
      && forall a, b :: 0 <= a < g.n && 0 <= b < g.m && (a, b) != (r, c) ==> o.grid.cells[a][b] == g.cells[a][b]
  {
  }

  /** A row or column write is the loop over the key's targets, unless the step is zero. */
  lemma SetLineLoop(g: WordGrid, key: Key, value: string)
    requires g.Wf() && (key.AlongRow? || key.AlongColumn?)
    ensures Set(g, key, value) ==
      if LineSlice(g, key).0.step == Some(0) then Outcome(g, Some(ZeroStep))
      else WriteAlong(g, Targets(g, key), LowerStr(value), 0)
  {
  }

  /**
   Writing a row or column run fails exactly when reading the same key
   fails or the value is shorter than the run, and with the read's error
   when the read has one.
   */
  lemma SetLineRaises(g: WordGrid, key: Key, value: string)
    requires g.Wf() && (key.AlongRow? || key.AlongColumn?)
    ensures var o := Set(g, key, value); var before := Get(g, key);
      && (o.raised.None? <==> before.Ok? && |before.value.items| <= |value|)
      && (before.Err? ==> o.raised == Some(before.error))
      && (o.raised.Some? && before.Ok? ==> o.raised.value == IndexOutOfRange)
  {
    SetLineLoop(g, key, value);
    GetLineSpec(g, key);
    StopAtEnd(g, Targets(g, key), LowerStr(value), 0);
  }

  /** Whether or not it fails, a row or column write changes no cell it did not reach. */
  lemma SetLineFrame(g: WordGrid, key: Key, value: string)
    requires g.Wf() && (key.AlongRow? || key.AlongColumn?)
    ensures var o := Set(g, key, value); var cs := Targets(g, key); var s := Stop(g, cs, LowerStr(value), 0);
      forall a, b :: 0 <= a < g.n && 0 <= b < g.m && (forall k :: 0 <= k < s ==> cs[k] != (a, b)) ==>
        o.grid.cells[a][b] == g.cells[a][b]
  {
    SetLineLoop(g, key, value);
    if LineSlice(g, key).0.step == Some(0) {
      assert Targets(g, key) == [];
    }
  }

  /**
   Whether or not it fails, a row or column write leaves the characters it
   wrote before it stopped, one per reached cell.
   */
  lemma SetLineWrites(g: WordGrid, key: Key, value: string)
    requires g.Wf() && (key.AlongRow? || key.AlongColumn?)
    ensures var o := Set(g, key, value); var cs := Targets(g, key); var s := Stop(g, cs, LowerStr(value), 0);
      forall k :: 0 <= k < s ==> o.grid.cells[cs[k].0][cs[k].1] == [Lower(value[k])]
  {
    SetLineLoop(g, key, value);
    var cs := Targets(g, key);
    if LineSlice(g, key).0.step != Some(0) {
      TargetsDistinct(g, key);
      var v := LowerStr(value);
      var o := WriteAlong(g, cs, v, 0);
      assert Set(g, key, value) == o;
      LastOfDistinct(cs, Stop(g, cs, v, 0));
    }
  }

  /** In a list without repeats every element is the last to name its value. */
  lemma LastOfDistinct(cs: seq<Coord>, s: nat)
    requires s <= |cs|
    requires forall k, l :: 0 <= k < l < |cs| ==> cs[k] != cs[l]
    ensures forall k :: 0 <= k < s ==> forall l :: k < l < s ==> cs[l] != cs[k]
  {
  }

  /** After a row or column write that succeeds, the run reads back one lower-cased character per cell. */
  lemma SetThenGetLine(g: WordGrid, key: Key, value: string)
    requires g.Wf() && (key.AlongRow? || key.AlongColumn?)
    ensures var o := Set(g, key, value); var cs := Targets(g, key);
      o.raised.None? ==> |cs| <= |value| && Get(o.grid, key) == Ok(Line(seq(|cs|, k requires 0 <= k < |cs| && k < |value| => [Lower(value[k])])))
  {
    var o := Set(g, key, value);
    var cs := Targets(g, key);
    if o.raised.None? {
      SetLineLoop(g, key, value);
      StopAtEnd(g, cs, LowerStr(value), 0);
      SetLineWrites(g, key, value);
      var h := o.grid;
      assert Targets(h, key) == cs;
      GetLineSpec(h, key);
      ReadBack(h, Get(h, key).value.items, cs, value);
    }
  }

  lemma ReadBack(h: WordGrid, items: seq<string>, cs: seq<Coord>, value: string)
    requires h.Wf() && |items| == |cs| <= |value|
    requires forall k :: 0 <= k < |cs| ==>
      h.InBounds(cs[k]) && items[k] == h.cells[cs[k].0][cs[k].1] == [Lower(value[k])]
    ensures items == seq(|cs|, k requires 0 <= k < |cs| && k < |value| => [Lower(value[k])])
  {
  }

  /** The targets of a key over a whole line: every cell of the row, or of the column. */
  lemma WholeTargets(g: WordGrid, key: Key)
    requires (key.AlongRow? && key.cols == Whole) || (key.AlongColumn? && key.rows == Whole)
    ensures var cs := Targets(g, key);
      && |cs| == (if key.AlongRow? then g.m else g.n)
      && forall k :: 0 <= k < |cs| ==> cs[k] == (if key.AlongRow? then (key.row, k) else (k, key.col))
  {
    UpTo(g.n);
    UpTo(g.m);
  }

  /** The whole-line and whole-grid reads are the rows, the columns and the grid itself. */
  lemma WholeReads(g: WordGrid)
    requires g.Wf()
    ensures forall r :: 0 <= r < g.n ==> Get(g, AlongRow(r, Whole)) == Ok(Line(GetRows(g)[r]))
    ensures forall c :: 0 <= c < |GetColumns(g)| ==> Get(g, AlongColumn(Whole, c)) == Ok(Line(GetColumns(g)[c]))
    ensures Get(g, Region(Whole, Whole)) == Ok(Block(GetRows(g)))
  {
    forall r | 0 <= r < g.n
      ensures Get(g, AlongRow(r, Whole)) == Ok(Line(GetRows(g)[r]))
    {
      GetLineSpec(g, AlongRow(r, Whole));
      WholeTargets(g, AlongRow(r, Whole));
      assert Get(g, AlongRow(r, Whole)).value.items == g.cells[r];
    }
    forall c | 0 <= c < |GetColumns(g)|
      ensures Get(g, AlongColumn(Whole, c)) == Ok(Line(GetColumns(g)[c]))
    {
      GetLineSpec(g, AlongColumn(Whole, c));
      WholeTargets(g, AlongColumn(Whole, c));
      assert Get(g, AlongColumn(Whole, c)).value.items == GetColumns(g)[c];
    }
    WholeBlock(g);
  }

  lemma WholeBlock(g: WordGrid)
    requires g.Wf()
    ensures Get(g, Region(Whole, Whole)) == Ok(Block(GetRows(g)))
  {
    if g.n > 0 {
      UpTo(g.n);
      UpTo(g.m);
      var ri := Indices(Whole, g.n).value;
      var ci := Indices(Whole, g.m).value;
      assert Get(g, Region(Whole, Whole)) == GetBlock(g, ri, ci);
      BlockOfAll(g, ri, ci);
    }
  }

  /** Reading every row at every column gives back the grid. */
  lemma BlockOfAll(g: WordGrid, ri: seq<nat>, ci: seq<nat>)
    requires g.Wf()
    requires |ri| == g.n && forall a :: 0 <= a < |ri| ==> ri[a] == a
    requires |ci| == g.m && forall b :: 0 <= b < |ci| ==> ci[b] == b
    ensures GetBlock(g, ri, ci) == Ok(Block(g.cells))
  {
    var r := GetBlock(g, ri, ci);
    assert r.Ok?;
    forall a | 0 <= a < g.n
      ensures r.value.lines[a] == g.cells[a]
    {
      assert |r.value.lines[a]| == g.m;
      forall b | 0 <= b < g.m
        ensures r.value.lines[a][b] == g.cells[a][b]
      {
        assert ri[a] == a && ci[b] == b;
      }
    }
    assert r.value.lines == g.cells;
  }

  /** `range(0, size, 1)` lists `0, 1, ..., size - 1`. */
  lemma UpTo(size: nat)
    ensures |Range(0, size, 1)| == size
    ensures forall j :: 0 <= j < size ==> Range(0, size, 1)[j] == j
  {
    var r := Range(0, size, 1);
    if |r| > 0 {
      assert r[|r| - 1] == |r| - 1;
    }
  }
}
