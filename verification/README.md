# WordGrid in Dafny

A model of the `WordGrid` class of the word-game server (`server.py`) and of
the verdict its `/api/submit` handler assembles from it. A player posts tile
positions `{x, y, letter}`. The server builds a dense grid of cells from them and
reads off every word. A word is a maximal run of two or more non-blank characters
in the text of a row or a column, where an empty cell reads as a blank. The
server then checks each word against a dictionary, checks that all tiles form
one 4-connected group, and reports the area of the tight bounding box of
the tiles.

The modules follow the parts of the class:

- `Text` (text.dfy): characters, `str.lower`, `str.isalpha`, the cell
  normalisation `letter.lower() if letter.isalpha() else ""`, and `", ".join`.
- `Grid` (grid.dfy): the grid datatype and its invariant (`n` rows of `m`
  cells each), the error outcomes, `_generate_grid`, the three constructors,
  `get_rows` and `get_columns`.
- `Runs` (runs.dfy): maximal runs of set positions in a boolean mask. With
  "not whitespace" as the mask this is `str.split()`. With the filled-cell
  mask of a line (`Words.CellMask`) it gives the runs of tiles along it.
- `Words` (words.dfy): `get_all_words`, computed the way the code does it
  (join with a blank for each empty cell, split, drop one-letter tokens).
  It is characterised through word occurrences: a line, an axis and a
  maximal run of length at least 2 in that line's text. When every cell
  is empty or holds one non-blank character, these are exactly the runs of
  two or more filled cells.
- `Components` (components.dfy): `count_connected_components`. It is a
  method with the stack-based flood fill and the row-major seed scan. It is
  proved against path connectivity between filled cells.
- `BoundingBox` (bbox.dfy): `get_bounding_box_extents` and
  `get_bounding_box_area`. They are proved against "the box that encloses
  every filled cell and touches one on each edge".
- `Access` (access.dfy): `__getitem__` and `__setitem__` for the key shapes
  `g[r, c]`, `g[r, a:b:s]`, `g[a:b:s, c]` and `g[a:b:s, a:b:s]`, with
  Python's `range` and the slice defaults.
- `Submit` (submit.dfy): `check_all_words` and the body of `submit`. The
  dictionary `twl.check` is a function parameter `isWord`. The day's best
  score is an `Option<int>` parameter, `None` when the date is missing from
  the schedule.

Python exceptions become `Err` values of `GridError`:

| `GridError` | Python exception | where it is raised |
|---|---|---|
| `EmptyPositions` | `ValueError` | `max()` of an empty list in `from_positions` |
| `IndexOutOfRange` | `IndexError` | a subscript past the end, including a value that is too short for a slice write |
| `ZeroStep` | `ValueError` | `range(..., 0)` |
| `NoLetters` | `TypeError` | `None - None` in the area of a grid without letters |
| `NoGameToday` | `KeyError` | the schedule lookup |

Behaviour worth noting:

- A slice write takes one character per addressed cell. A longer value is
  accepted and its extra characters are ignored. A shorter value raises
  `IndexError` after the earlier cells have been written. Nothing checks
  that the lengths match exactly.
- Written values are only lower-cased, never normalised. A single-cell write
  stores the whole lower-cased string.
- A write through a 2-D slice matches no branch of `__setitem__`. It leaves
  the grid unchanged and raises nothing.
- An all-empty grid has no area because the code subtracts `None` values. It
  does not check explicitly.
- The word error is replaced, not combined, when the tiles are also
  disconnected.

## Model

| member | source | states |
|---|---|---|
| Text.Normalize | server.py:92-94 | the normalised cell is empty exactly when the input is not alphabetic; otherwise it is the lower-casing of the input, character by character, and is made of lower-case letters only |
| Text.NormalizeIdempotent | server.py:92-94 | normalising a normalised cell changes nothing |
| Grid.NewGrid | server.py:34-42 | `_generate_grid` gives a well-formed `n x m` grid with no filled cell |
| Grid.FromLists | server.py:45-60 | fails exactly on an empty list; otherwise keeps the rows verbatim, takes its sizes from the row count and the first row, and is rectangular exactly when all rows are as long as the first |
| Grid.FromStrings | server.py:63-80 | fails exactly on an empty list; otherwise cell (i, j) is the lower-cased character when it is a letter, else empty; every cell is normal; rectangular exactly when all strings are as long as the first |
| Grid.MaxRow | server.py:88 | `max(y)` is an upper bound of the rows and attained by some position |
| Grid.MaxColumn | server.py:89 | `max(x)` is an upper bound of the columns and attained by some position |
| Grid.Place | server.py:91-94 | applying positions in list order: the last position naming a cell decides its value, and a cell no position names keeps its value |
| Grid.FromPositions | server.py:83-95 | fails exactly on an empty list; otherwise the grid is `max(y)+1` by `max(x)+1`, each listed cell holds the normalised letter of the last position naming it, and every unlisted cell is empty |
| Grid.FromPositionsIsNormal | server.py:90-94 | every cell of a grid built from positions is a lower-case letter or empty |
| Grid.WriteCell | server.py:196 | one assignment changes the addressed cell and no other |
| Grid.GetColumns | server.py:107-115 | `zip(*grid)` has `m` columns of `n` cells (none when there is no row) and column j, entry i is cell (i, j) |
| Grid.ColumnsOfColumns | server.py:107-115 | transposing the columns gives back the rows |
| Runs.RunsFrom | server.py:129 | the runs found from a run boundary on are maximal, left to right, and cover every set position after it |
| Runs.AllRuns | server.py:129 | `split()` finds maximal runs, in order, covering every non-blank character |
| Runs.AllRunsComplete | server.py:129 | every maximal run of the mask is found |
| Runs.RunsUnique | server.py:129 | any ordered covering list of maximal runs is the one `split()` finds |
| Runs.LongRuns | server.py:136 | keeps exactly the runs of length at least 2, in order |
| Words.WordOccurrences | server.py:117-136 | lists only word occurrences, every one of them, in reading order: rows before columns, lower line first, left to right |
| Words.GetAllWordsSpec | server.py:117-136 | the words are exactly the texts of the word occurrences, one per occurrence, in reading order |
| Words.WordsAreLongAndUnbroken | server.py:129-136 | every word has at least two characters and no blank |
| Words.NoWordsWithoutRuns | server.py:117-136 | the word list is empty exactly when no row or column text has a maximal run of two or more non-blank characters |
| Words.WordsAreCellRuns | server.py:117-136 | on a grid whose every cell is empty or holds one non-blank character, a word occurrence is exactly a maximal run of two or more filled cells along a row or a column |
| Words.NoWordsIffNoNeighbours | server.py:117-136 | on such a grid the word list is empty exactly when no two filled cells are neighbours along a row or a column |
| Words.FromStringsOneChar | server.py:76-78 | a grid built from strings has cells of at most one character, none of them blank |
| Words.FromPositionsOneChar | server.py:90-94 | a grid built from positions whose letters have at most one character has cells of at most one character, none of them blank |
| Components.Flood | server.py:161-175 | the flood from a fresh filled seed collects, once each and seed first, exactly the filled cells linked to the seed by 4-adjacent filled cells, and only marks those as visited |
| Components.VisitCell | server.py:160-176 | one scan step starts a new component exactly when the cell is filled and unvisited, and keeps the scan's invariant |
| Components.ScanRow | server.py:159-176 | scanning a row keeps the scan's invariant and leaves every filled cell of the row visited |
| Components.CountConnectedComponents | server.py:149-177 | each component is a whole connected group with its earliest cell as seed; seeds in row-major order; components disjoint and covering exactly the filled cells; sizes are the lengths and sum to the number of filled cells; at most one component exactly when all filled cells are connected |
| Components.OneGroupIffAllLinked | server.py:444 | a partition into connected groups has at most one part exactly when all filled cells are connected |
| BoundingBox.ScanExtent | server.py:352-361 | after the loop, the extent is `None` when no line has a letter, else the first and last lines that have one |
| BoundingBox.NoExtentIffEmpty | server.py:338-362 | both extents are `None` exactly when no cell is filled |
| BoundingBox.BoundingBoxSpec | server.py:338-362 | otherwise the extents enclose every filled cell and each of the four edges holds a filled cell |
| BoundingBox.TightBoxUnique | server.py:338-362 | only one box encloses the filled cells and touches them on all four edges |
| BoundingBox.BoundingBoxAreaSpec | server.py:364-373 | the area fails exactly when no cell is filled; otherwise it lies between 1 and `n * m` |
| BoundingBox.AreaOfTightBox | server.py:364-373 | the area is the area of the tight box around the filled cells |
| Access.Range | server.py:216 | `range(start, stop, step)`: element j is `start + j*step`, all strictly before `stop` in the step's direction, none left out, none repeated |
| Access.Indices | server.py:207-215 | slice defaults `0`, line length and `1`; a zero step is a `ValueError` |
| Access.ReadAll | server.py:277 | a list read succeeds exactly when every addressed cell is in range and then lists them in order |
| Access.GetBlock | server.py:323-326 | a block read succeeds exactly when every addressed cell is in range and then is the rows by columns of addressed cells |
| Access.GetLineSpec | server.py:262-296 | a row or column read fails with `ValueError` on a zero step, else with `IndexError` exactly when some addressed cell is out of range; otherwise it lists the addressed cells in order |
| Access.Stop | server.py:216-217 | the loop stops at the first step whose character or cell is missing, or at the end |
| Access.StopAtEnd | server.py:216-217 | the loop runs to the end exactly when the value is long enough and every addressed cell is in range |
| Access.WriteAlong | server.py:216-217 | the loop raises `IndexError` exactly when it stops early; the writes before the stop stay with the last write to a cell winning, and no other cell changes |
| Access.TargetsDistinct | server.py:216 | a slice never addresses the same cell twice |
| Access.Set | server.py:179-237 | a write keeps the grid's shape; a 2-D slice write leaves the grid unchanged |
| Access.SetThenGetCell | server.py:188-196 | a single-cell write fails exactly when reading the cell fails; otherwise the cell reads back as the lower-cased value and no other cell changes |
| Access.SetLineRaises | server.py:201-237 | a row or column write fails exactly when reading the same key fails or the value is shorter than the run, and then with the read's error |
| Access.SetLineFrame | server.py:216-217 | a row or column write, failing or not, changes no cell it did not reach |
| Access.SetLineWrites | server.py:216-217 | a row or column write, failing or not, leaves `value[j].lower()` in the j-th cell it reached |
| Access.SetThenGetLine | server.py:201-237 | after a row or column write that succeeds, the key reads back one lower-cased character of the value per cell |
| Access.WholeTargets | server.py:207-215 | a slice without bounds or step addresses every cell of the row, or of the column, in order |
| Access.WholeReads | server.py:258-326 | `g[r, :]` is row r, `g[:, c]` is column c, and `g[:, :]` is the whole grid |
| Submit.CheckAllWordsSpec | server.py:138-147 | the checks pair each word occurrence's text, in reading order, with the dictionary's verdict |
| Submit.Rejected | server.py:441 | the rejected words are exactly those checked false, and there are none exactly when every check passed |
| Submit.RejectedAppend | server.py:441 | the filter works check by check: the rejected words of two runs of checks are those of the first, then those of the second, so order and repeats are kept |
| Submit.RejectedSingle | server.py:441 | one check contributes its word exactly when it failed |
| Submit.NoneRejected | server.py:438-439 | no word is rejected exactly when the dictionary accepts every word |
| Submit.Submit | server.py:435-455 | no positions fails first, a board without letters next, and a missing day's game last. Otherwise: the error is empty exactly when every word is accepted and the tiles are connected; it is the disconnection message exactly when they are not connected; if they are connected, it names the rejected words. The words, checks and best score are reported, and the area is the area of the tight box |

## Left out

- Negative indices, negative slice bounds and negative positions: `Slice` bounds, `At` coordinates and `Position` coordinates are natural numbers. Python's wrap-around of a negative subscript is not modelled. A negative step is modelled.
- Non-ASCII letters: `isalpha` and `lower` are modelled on ASCII only.
- Ragged grids: every analysis and access requires the grid invariant (`n` rows of `m` cells). `from_list_of_lists` is proved to give it exactly when the rows have equal length.
- Components.CountConnectedComponents: requires at least one row. With none, `len(grid[0])` raises `IndexError`, which is not modelled. `submit` always has a row.
- Components.Flood: states which cells the component holds and that the seed comes first. It does not state the order in which the stack visits the other cells.
- Words.GetAllWordsSpec: states occurrences in character positions of the joined line text. These are cell positions only when every cell is empty or holds one non-blank character. `from_list_of_strings` guarantees that; `from_positions` guarantees it only when every letter has at most one character, since `"AB".isalpha()` holds and the cell stores `"ab"`. `from_list_of_lists` and `__setitem__` (which can store `" "`) do not guarantee it. `WordsAreCellRuns` states the cell-level reading under that hypothesis.
- Words.NoWordsWithoutRuns: is about runs in the line text. A one-cell grid holding `"ab"` has words although no two filled cells are neighbours. The cell-level statement is `NoWordsIffNoNeighbours`, for grids of one-character cells.
- Access.Set: its own contract covers only shape and the 2-D slice case. What row, column and single-cell writes do is stated by the `SetThenGet*` and `SetLine*` lemmas.
- Key shapes other than the four tuples (a bare integer, a three-tuple): `__getitem__` returns `None` and `__setitem__` does nothing for them. They are not modelled.
- `__init__` with a negative size, `__str__`, Flask routing, `jsonify`, the HTTP status, `random.sample` in `get_game`, and the date lookup `get_todays_game` with its `GAMES` table: these are I/O, display or the clock. The day's best score is a parameter.
- `twl.check`: a foreign dictionary, passed in as the function `isWord`.
- Malformed request bodies (missing `positions`, `x`, `y` or `letter` keys, non-integer coordinates): `Position` is a well-typed record.
