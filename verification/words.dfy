/**
 `get_all_words`: every row and then every column is turned into a text
 (an empty cell reads as one space), split on whitespace, and the pieces of
 length at least two are kept, in reading order.
 */
module Words {
  import opened Text
  import opened Grid
  import opened Runs

  /** The reading direction of a line: along a row, or down a column. */
  datatype Axis = Across | Down

  /** `w if w else " "`. */
  function CellText(c: string): string {
    if c == "" then " " else c
  }

  /** `"".join(w if w else " " for w in line)`. */
  function LineText(line: seq<string>): string {
    if |line| == 0 then "" else CellText(line[0]) + LineText(line[1..])
  }

  /** Which characters of a text belong to a word (are not whitespace). */
  function WordMask(s: string): (mask: seq<bool>)
    ensures |mask| == |s|
    ensures forall i :: 0 <= i < |s| ==> mask[i] == !IsSpace(s[i])
  {
    seq(|s|, i requires 0 <= i < |s| => !IsSpace(s[i]))
  }

  function LineMask(line: seq<string>): (mask: seq<bool>)
    ensures |mask| == |LineText(line)|
  {
    WordMask(LineText(line))
  }

  /** The substrings of `s` the spans select, in order. */
  function Pieces(s: string, spans: seq<Span>): (ps: seq<string>)
    requires forall k :: 0 <= k < |spans| ==> spans[k].start <= spans[k].end <= |s|
    ensures |ps| == |spans|
  {
    if |spans| == 0 then []
    else [s[spans[0].start..spans[0].end]] + Pieces(s, spans[1..])
  }

  /** `s.split()` with no separator: the maximal runs of non-whitespace characters. */
  function Split(s: string): seq<string> {
    Pieces(s, AllRuns(WordMask(s)))
  }

  /** The words of `lines[k..]`, line after line (`words.extend(...)` in a loop). */
  function TokensFrom(lines: seq<seq<string>>, k: nat): seq<string>
    requires k <= |lines|
    decreases |lines| - k
  {
    if k == |lines| then [] else Split(LineText(lines[k])) + TokensFrom(lines, k + 1)
  }

  /** `[w for w in words if len(w) > 1]`. */
  function KeepLong(ws: seq<string>): seq<string> {
    if |ws| == 0 then []
    else (if |ws[0]| > 1 then [ws[0]] else []) + KeepLong(ws[1..])
  }

  /** `get_all_words`: row words first, then column words, single letters dropped. */
  function GetAllWords(g: WordGrid): seq<string>
    requires g.Wf()
  {
    KeepLong(TokensFrom(GetRows(g), 0) + TokensFrom(GetColumns(g), 0))
  }

  // ---------------------------------------------------------------------
  // Word occurrences: an independent description of what the list holds.

  /** A word's place on the board: its line and its character span in that line's text. */
  datatype Occurrence = Occurrence(axis: Axis, line: nat, span: Span)

  function Lines(g: WordGrid, axis: Axis): seq<seq<string>>
    requires g.Wf()
  {
    if axis == Across then GetRows(g) else GetColumns(g)
  }

  /** A maximal whitespace-free run of at least two characters in a row or column text. */
  predicate IsWordAt(g: WordGrid, o: Occurrence)
    requires g.Wf()
  {
    && o.line < |Lines(g, o.axis)|
    && IsMaxRun(LineMask(Lines(g, o.axis)[o.line]), o.span)
    && o.span.Len() >= 2
  }

  function OccText(g: WordGrid, o: Occurrence): string
    requires g.Wf() && IsWordAt(g, o)
  {
    LineText(Lines(g, o.axis)[o.line])[o.span.start..o.span.end]
  }

  /** Reading order: rows before columns, lower line index first, then left to right. */
  predicate Precedes(o: Occurrence, p: Occurrence) {
    || (o.axis == Across && p.axis == Down)
    || (o.axis == p.axis && o.line < p.line)
    || (o.axis == p.axis && o.line == p.line && o.span.start < p.span.start)
  }

  predicate InReadingOrder(os: seq<Occurrence>) {
    forall i, j :: 0 <= i < j < |os| ==> Precedes(os[i], os[j])
  }

  /** The occurrences of the given spans on line `k`. */
  function Tag(axis: Axis, k: nat, spans: seq<Span>): (os: seq<Occurrence>)
    ensures |os| == |spans|
    ensures forall i :: 0 <= i < |spans| ==> os[i] == Occurrence(axis, k, spans[i])
  {
    if |spans| == 0 then [] else [Occurrence(axis, k, spans[0])] + Tag(axis, k, spans[1..])
  }

  function LineOccs(axis: Axis, k: nat, line: seq<string>): seq<Occurrence> {
    Tag(axis, k, LongRuns(AllRuns(LineMask(line))))
  }

  /** `o` is a word occurrence on one of `lines[k..]`. */
  predicate SoundOcc(axis: Axis, lines: seq<seq<string>>, k: nat, o: Occurrence) {
    && o.axis == axis && k <= o.line < |lines|
    && IsMaxRun(LineMask(lines[o.line]), o.span) && o.span.Len() >= 2
  }

  /** Every word occurrence on `lines[k..]` is listed in `os`. */
  ghost predicate CompleteFrom(axis: Axis, lines: seq<seq<string>>, k: nat, os: seq<Occurrence>) {
    forall l, sp :: k <= l < |lines| && IsMaxRun(LineMask(lines[l]), sp) && sp.Len() >= 2 ==>
      Occurrence(axis, l, sp) in os
  }

  /** The word occurrences of `lines[k..]`, line by line. */
  function OccsFrom(axis: Axis, lines: seq<seq<string>>, k: nat): seq<Occurrence>
    requires k <= |lines|
    decreases |lines| - k
  {
    if k == |lines| then [] else LineOccs(axis, k, lines[k]) + OccsFrom(axis, lines, k + 1)
  }

  /** `OccsFrom` lists every word occurrence of `lines[k..]`, and nothing else, in reading order. */
  lemma {:induction false} OccsFromSpec(axis: Axis, lines: seq<seq<string>>, k: nat)
    requires k <= |lines|
    ensures forall i :: 0 <= i < |OccsFrom(axis, lines, k)| ==> SoundOcc(axis, lines, k, OccsFrom(axis, lines, k)[i])
    ensures InReadingOrder(OccsFrom(axis, lines, k))
    ensures CompleteFrom(axis, lines, k, OccsFrom(axis, lines, k))
    decreases |lines| - k
  {
    if k < |lines| {
      var here := LineOccs(axis, k, lines[k]);
      var rest := OccsFrom(axis, lines, k + 1);
      OccsFromSpec(axis, lines, k + 1);
      LineOccsSpec(axis, k, lines);
      OccsFromSound(axis, lines, k, here, rest);
      OccsFromOrdered(axis, lines, k, here, rest);
      OccsFromComplete(axis, lines, k, here, rest);
    }
  }

  /** The occurrences on one line: sound, left to right, complete for that line. */
  lemma LineOccsSpec(axis: Axis, k: nat, lines: seq<seq<string>>)
    requires k < |lines|
    ensures forall i :: 0 <= i < |LineOccs(axis, k, lines[k])| ==>
      SoundOcc(axis, lines, k, LineOccs(axis, k, lines[k])[i]) && LineOccs(axis, k, lines[k])[i].line == k
    ensures InReadingOrder(LineOccs(axis, k, lines[k]))
    ensures forall sp :: IsMaxRun(LineMask(lines[k]), sp) && sp.Len() >= 2 ==>
      Occurrence(axis, k, sp) in LineOccs(axis, k, lines[k])
  {
    var mask := LineMask(lines[k]);
    var all := AllRuns(mask);
    var long := LongRuns(all);
    var here := LineOccs(axis, k, lines[k]);
    forall i | 0 <= i < |here|
      ensures SoundOcc(axis, lines, k, here[i]) && here[i].line == k
    {
      assert here[i].span == long[i];
      assert long[i] in long;
      var j :| 0 <= j < |all| && all[j] == long[i];
    }
    forall sp | IsMaxRun(mask, sp) && sp.Len() >= 2
      ensures Occurrence(axis, k, sp) in here
    {
      AllRunsComplete(mask, sp);
      assert sp in long;
      var j :| 0 <= j < |long| && long[j] == sp;
      assert here[j] == Occurrence(axis, k, sp);
    }
  }

  lemma OccsFromSound(axis: Axis, lines: seq<seq<string>>, k: nat, here: seq<Occurrence>, rest: seq<Occurrence>)
    requires k < |lines|
    requires forall i :: 0 <= i < |here| ==> SoundOcc(axis, lines, k, here[i])
    requires forall i :: 0 <= i < |rest| ==> SoundOcc(axis, lines, k + 1, rest[i])
    ensures forall i :: 0 <= i < |here + rest| ==> SoundOcc(axis, lines, k, (here + rest)[i])
  {
    forall i | 0 <= i < |here + rest|
      ensures SoundOcc(axis, lines, k, (here + rest)[i])
    {
      if i >= |here| {
        assert (here + rest)[i] == rest[i - |here|];
      }
    }
  }

  lemma OccsFromOrdered(axis: Axis, lines: seq<seq<string>>, k: nat, here: seq<Occurrence>, rest: seq<Occurrence>)
    requires k < |lines|
    requires forall i :: 0 <= i < |here| ==> here[i].axis == axis && here[i].line == k
    requires forall i :: 0 <= i < |rest| ==> SoundOcc(axis, lines, k + 1, rest[i])
    requires InReadingOrder(here) && InReadingOrder(rest)
    ensures InReadingOrder(here + rest)
  {
    var os := here + rest;
    forall i, j | 0 <= i < j < |os|
      ensures Precedes(os[i], os[j])
    {
      if j < |here| {
        assert os[i] == here[i] && os[j] == here[j];
      } else if i < |here| {
        assert os[i] == here[i] && os[j] == rest[j - |here|];
      } else {
        assert os[i] == rest[i - |here|] && os[j] == rest[j - |here|];
      }
    }
  }

  lemma OccsFromComplete(axis: Axis, lines: seq<seq<string>>, k: nat, here: seq<Occurrence>, rest: seq<Occurrence>)
    requires k < |lines|
    requires forall sp :: IsMaxRun(LineMask(lines[k]), sp) && sp.Len() >= 2 ==> Occurrence(axis, k, sp) in here
    requires CompleteFrom(axis, lines, k + 1, rest)
    ensures CompleteFrom(axis, lines, k, here + rest)
  {
    forall l, sp | k <= l < |lines| && IsMaxRun(LineMask(lines[l]), sp) && sp.Len() >= 2
      ensures Occurrence(axis, l, sp) in here + rest
    {
      if l == k {
        assert Occurrence(axis, l, sp) in here;
      } else {
        assert Occurrence(axis, l, sp) in rest;
      }
    }
  }

  /** A sound occurrence on the grid's rows or columns is a word occurrence of the grid. */
  lemma SoundOccIsWord(g: WordGrid, axis: Axis, k: nat, o: Occurrence)
    requires g.Wf()
    ensures SoundOcc(axis, Lines(g, axis), k, o) ==> IsWordAt(g, o)
    ensures SoundOcc(axis, Lines(g, axis), 0, o) <== o.axis == axis && IsWordAt(g, o)
  {
  }

  /** All word occurrences of the grid, in reading order. */
  function WordOccurrences(g: WordGrid): (os: seq<Occurrence>)
    requires g.Wf()
    ensures forall i :: 0 <= i < |os| ==> IsWordAt(g, os[i])
    ensures InReadingOrder(os)
    ensures forall o :: IsWordAt(g, o) ==> o in os
  {
    var across := OccsFrom(Across, Lines(g, Across), 0);
    var down := OccsFrom(Down, Lines(g, Down), 0);
    OccsFromSpec(Across, Lines(g, Across), 0);
    OccsFromSpec(Down, Lines(g, Down), 0);
    BothAxesSound(g, across, down);
    BothAxesOrdered(g, across, down);
    BothAxesComplete(g, across, down);
    across + down
  }

  lemma BothAxesSound(g: WordGrid, across: seq<Occurrence>, down: seq<Occurrence>)
    requires g.Wf()
    requires forall i :: 0 <= i < |across| ==> SoundOcc(Across, Lines(g, Across), 0, across[i])
    requires forall i :: 0 <= i < |down| ==> SoundOcc(Down, Lines(g, Down), 0, down[i])
    ensures forall i :: 0 <= i < |across + down| ==> IsWordAt(g, (across + down)[i])
  {
    var os := across + down;
    forall i | 0 <= i < |os|
      ensures IsWordAt(g, os[i])
    {
      if i < |across| {
        assert os[i] == across[i];
        SoundOccIsWord(g, Across, 0, os[i]);
      } else {
        assert os[i] == down[i - |across|];
        SoundOccIsWord(g, Down, 0, os[i]);
      }
    }
  }

  lemma BothAxesOrdered(g: WordGrid, across: seq<Occurrence>, down: seq<Occurrence>)
    requires forall i :: 0 <= i < |across| ==> across[i].axis == Across
    requires forall i :: 0 <= i < |down| ==> down[i].axis == Down
    requires InReadingOrder(across) && InReadingOrder(down)
    ensures InReadingOrder(across + down)
  {
    var os := across + down;
    forall i, j | 0 <= i < j < |os|
      ensures Precedes(os[i], os[j])
    {
      if j < |across| {
        assert os[i] == across[i] && os[j] == across[j];
      } else if i < |across| {
        assert os[i] == across[i] && os[j] == down[j - |across|];
      } else {
        assert os[i] == down[i - |across|] && os[j] == down[j - |across|];
      }
    }
  }

  lemma BothAxesComplete(g: WordGrid, across: seq<Occurrence>, down: seq<Occurrence>)
    requires g.Wf()
    requires CompleteFrom(Across, Lines(g, Across), 0, across)
    requires CompleteFrom(Down, Lines(g, Down), 0, down)
    ensures forall o :: IsWordAt(g, o) ==> o in across + down
  {
    forall o | IsWordAt(g, o)
      ensures o in across + down
    {
      var lines := Lines(g, o.axis);
      assert o == Occurrence(o.axis, o.line, o.span);
      assert IsMaxRun(LineMask(lines[o.line]), o.span) && o.span.Len() >= 2;
      if o.axis == Across {
        assert o in across;
      } else {
        assert o in down;
      }
    }
  }

  // ---------------------------------------------------------------------
  // The list `get_all_words` returns is the text of those occurrences.

  /** Every occurrence lies on one of `lines` and spans a maximal run of that line's text. */
  predicate OnLines(lines: seq<seq<string>>, os: seq<Occurrence>) {
    forall i :: 0 <= i < |os| ==> os[i].line < |lines| && IsMaxRun(LineMask(lines[os[i].line]), os[i].span)
  }

  /** The characters each occurrence covers, read from `lines`. */
  function TextsOn(lines: seq<seq<string>>, os: seq<Occurrence>): (ts: seq<string>)
    requires OnLines(lines, os)
    ensures |ts| == |os|
    ensures forall i :: 0 <= i < |os| ==>
      ts[i] == LineText(lines[os[i].line])[os[i].span.start..os[i].span.end]
  {
    if |os| == 0 then [] else
      var o := os[0];
      [LineText(lines[o.line])[o.span.start..o.span.end]] + TextsOn(lines, os[1..])
  }

  lemma KeepLongAppend(a: seq<string>, b: seq<string>)
    ensures KeepLong(a + b) == KeepLong(a) + KeepLong(b)
  {
    if |a| > 0 {
      assert (a + b)[0] == a[0];
      assert (a + b)[1..] == a[1..] + b;
      KeepLongAppend(a[1..], b);
    } else {
      assert a + b == b;
    }
  }

  lemma TextsOnAppend(lines: seq<seq<string>>, a: seq<Occurrence>, b: seq<Occurrence>)
    requires OnLines(lines, a) && OnLines(lines, b)
    ensures OnLines(lines, a + b)
    ensures TextsOn(lines, a + b) == TextsOn(lines, a) + TextsOn(lines, b)
  {
    assert forall k :: 0 <= k < |a + b| ==> (a + b)[k] == if k < |a| then a[k] else b[k - |a|];
  }

  /** The long spans of line `k`, tagged with that line, are occurrences on `lines`. */
  lemma LongTagsOnLine(axis: Axis, lines: seq<seq<string>>, k: nat, spans: seq<Span>)
    requires k < |lines|
    requires forall i :: 0 <= i < |spans| ==> IsMaxRun(LineMask(lines[k]), spans[i])
    ensures OnLines(lines, Tag(axis, k, LongRuns(spans)))
  {
    var os := Tag(axis, k, LongRuns(spans));
    forall i | 0 <= i < |os|
      ensures os[i].line < |lines| && IsMaxRun(LineMask(lines[os[i].line]), os[i].span)
    {
      assert os[i].span in LongRuns(spans);
    }
  }

  /** Keeping the long pieces of a line is taking the texts of its long runs. */
  lemma {:induction false} KeepLongPieces(axis: Axis, lines: seq<seq<string>>, k: nat, spans: seq<Span>)
    requires k < |lines|
    requires forall i :: 0 <= i < |spans| ==> IsMaxRun(LineMask(lines[k]), spans[i])
    requires forall i :: 0 <= i < |spans| ==> spans[i].start <= spans[i].end <= |LineText(lines[k])|
    ensures OnLines(lines, Tag(axis, k, LongRuns(spans)))
    ensures KeepLong(Pieces(LineText(lines[k]), spans)) == TextsOn(lines, Tag(axis, k, LongRuns(spans)))
  {
    var text := LineText(lines[k]);
    LongTagsOnLine(axis, lines, k, spans);
    if |spans| > 0 {
      var ps := Pieces(text, spans);
      assert ps[1..] == Pieces(text, spans[1..]);
      KeepLongPieces(axis, lines, k, spans[1..]);
      assert ps == [ps[0]] + ps[1..];
      if spans[0].Len() >= 2 {
        var long := LongRuns(spans);
        assert long == [spans[0]] + LongRuns(spans[1..]);
        assert long[1..] == LongRuns(spans[1..]);
        assert Tag(axis, k, long)[1..] == Tag(axis, k, long[1..]);
      }
    }
  }

  /** The words of `lines[k..]` are the texts of the occurrences `OccsFrom` lists for them. */
  predicate TokensMatch(axis: Axis, lines: seq<seq<string>>, k: nat)
    requires k <= |lines|
  {
    var os := OccsFrom(axis, lines, k);
    OnLines(lines, os) && KeepLong(TokensFrom(lines, k)) == TextsOn(lines, os)
  }

  /** The words taken from `lines[k..]` are the texts of the occurrences on those lines. */
  lemma {:induction false} TokensFromOccs(axis: Axis, lines: seq<seq<string>>, k: nat)
    requires k <= |lines|
    ensures TokensMatch(axis, lines, k)
    decreases |lines| - k, 1
  {
    if k < |lines| {
      TokensFromStep(axis, lines, k);
    } else {
      TokensMatchAtEnd(axis, lines);
    }
  }

  lemma TokensMatchAtEnd(axis: Axis, lines: seq<seq<string>>)
    ensures TokensMatch(axis, lines, |lines|)
  {
    assert OccsFrom(axis, lines, |lines|) == [];
    assert TokensFrom(lines, |lines|) == [];
  }

  /** One line of `TokensFromOccs`: the line's own words, then those of the lines after it. */
  lemma {:induction false} TokensFromStep(axis: Axis, lines: seq<seq<string>>, k: nat)
    requires k < |lines|
    ensures TokensMatch(axis, lines, k)
    decreases |lines| - k, 0
  {
    TokensFromOccs(axis, lines, k + 1);
    var rest := OccsFrom(axis, lines, k + 1);
    var text := LineText(lines[k]);
    var runs := AllRuns(LineMask(lines[k]));
    var here := LineOccs(axis, k, lines[k]);
    assert OccsFrom(axis, lines, k) == here + rest;
    assert Split(text) == Pieces(text, runs);
    KeepLongAppend(Split(text), TokensFrom(lines, k + 1));
    KeepLongPieces(axis, lines, k, runs);
    TextsOnAppend(lines, here, rest);
  }

  /** The words of all rows (or all columns) are the texts of that axis' occurrences. */
  lemma AxisWords(g: WordGrid, axis: Axis)
    requires g.Wf()
    ensures var os := OccsFrom(axis, Lines(g, axis), 0);
      && (forall i :: 0 <= i < |os| ==> IsWordAt(g, os[i]) && os[i].axis == axis)
      && KeepLong(TokensFrom(Lines(g, axis), 0)) == TextsOn(Lines(g, axis), os)
  {
    var lines := Lines(g, axis);
    var os := OccsFrom(axis, lines, 0);
    TokensFromOccs(axis, lines, 0);
    OccsFromSpec(axis, lines, 0);
    forall i | 0 <= i < |os|
      ensures IsWordAt(g, os[i]) && os[i].axis == axis
    {
      SoundOccIsWord(g, axis, 0, os[i]);
    }
  }

  /** Index by index, the two axes' texts are the texts of the joined occurrence list. */
  lemma JoinedTexts(g: WordGrid, across: seq<Occurrence>, down: seq<Occurrence>, ws: seq<string>)
    requires g.Wf()
    requires forall i :: 0 <= i < |across| ==> IsWordAt(g, across[i]) && across[i].axis == Across
    requires forall i :: 0 <= i < |down| ==> IsWordAt(g, down[i]) && down[i].axis == Down
    requires OnLines(Lines(g, Across), across) && OnLines(Lines(g, Down), down)
    requires ws == TextsOn(Lines(g, Across), across) + TextsOn(Lines(g, Down), down)
    ensures |ws| == |across + down|
    ensures forall i :: 0 <= i < |ws| ==> ws[i] == OccText(g, (across + down)[i])
  {
    var os := across + down;
    forall i | 0 <= i < |ws|
      ensures ws[i] == OccText(g, os[i])
    {
      if i < |across| {
        assert os[i] == across[i];
      } else {
        assert os[i] == down[i - |across|];
      }
    }
  }

  /**
   The words of the grid are exactly the texts of all its word occurrences,
   listed rows first (row 0 upward), then columns, each line left to right
   (top to bottom): every listed word is a maximal run of at least two
   non-whitespace characters of some row or column, and every such run is
   listed, once, in that order.
   */
  lemma GetAllWordsSpec(g: WordGrid)
    requires g.Wf()
    ensures |GetAllWords(g)| == |WordOccurrences(g)|
    ensures forall i :: 0 <= i < |GetAllWords(g)| ==>
      IsWordAt(g, WordOccurrences(g)[i]) && GetAllWords(g)[i] == OccText(g, WordOccurrences(g)[i])
    ensures InReadingOrder(WordOccurrences(g))
    ensures forall o :: IsWordAt(g, o) ==> o in WordOccurrences(g)
  {
    var rows, cols := Lines(g, Across), Lines(g, Down);
    assert rows == GetRows(g) && cols == GetColumns(g);
    AxisWords(g, Across);
    AxisWords(g, Down);
    var across, down := OccsFrom(Across, rows, 0), OccsFrom(Down, cols, 0);
    KeepLongAppend(TokensFrom(rows, 0), TokensFrom(cols, 0));
    assert WordOccurrences(g) == across + down;
    JoinedTexts(g, across, down, GetAllWords(g));
  }

  /** Every word has at least two characters and contains no whitespace. */
  lemma WordsAreLongAndUnbroken(g: WordGrid)
    requires g.Wf()
    ensures forall i :: 0 <= i < |GetAllWords(g)| ==>
      |GetAllWords(g)[i]| >= 2 && forall c :: c in GetAllWords(g)[i] ==> !IsSpace(c)
  {
    GetAllWordsSpec(g);
    var ws := GetAllWords(g);
    var os := WordOccurrences(g);
    forall i | 0 <= i < |ws|
      ensures |ws[i]| >= 2 && forall c :: c in ws[i] ==> !IsSpace(c)
    {
      var o := os[i];
      var text := LineText(Lines(g, o.axis)[o.line]);
      assert ws[i] == text[o.span.start..o.span.end];
      forall c | c in ws[i]
        ensures !IsSpace(c)
      {
        var j :| 0 <= j < |ws[i]| && ws[i][j] == c;
        assert LineMask(Lines(g, o.axis)[o.line])[o.span.start + j];
      }
    }
  }

  /**
   The word list is empty exactly when no row or column text holds a
   maximal run of two or more non-blank characters.
   */
  lemma NoWordsWithoutRuns(g: WordGrid)
    requires g.Wf()
    ensures GetAllWords(g) == [] <==> forall o :: !IsWordAt(g, o)
  {
    GetAllWordsSpec(g);
    if o :| IsWordAt(g, o) {
      assert o in WordOccurrences(g);
    }
    if |GetAllWords(g)| > 0 {
      assert IsWordAt(g, WordOccurrences(g)[0]);
    }
  }

  // ---------------------------------------------------------------------
  // Grids of one-character cells: words are runs of filled cells.

  /** An empty cell, or a cell holding one non-blank character. */
  predicate OneChar(s: string) {
    s == "" || (|s| == 1 && !IsSpace(s[0]))
  }

  /** Every cell holds at most one character, and none is a blank. */
  predicate OneCharCells(g: WordGrid) {
    forall r, c :: 0 <= r < |g.cells| && 0 <= c < |g.cells[r]| ==> OneChar(g.cells[r][c])
  }

  /** Which cells of a line are filled. */
  function CellMask(line: seq<string>): (mask: seq<bool>)
    ensures |mask| == |line|
    ensures forall k :: 0 <= k < |line| ==> mask[k] == (line[k] != "")
  {
    seq(|line|, k requires 0 <= k < |line| => line[k] != "")
  }

  /** On one-character cells the line text has one character per cell, a blank exactly for an empty cell. */
  lemma {:induction false} LineTextOfOneChars(line: seq<string>)
    requires forall k :: 0 <= k < |line| ==> OneChar(line[k])
    ensures |LineText(line)| == |line|
    ensures forall k :: 0 <= k < |line| ==> (IsSpace(LineText(line)[k]) <==> line[k] == "")
  {
    if |line| > 0 {
      var rest := line[1..];
      LineTextOfOneChars(rest);
      var t := LineText(line);
      assert t == CellText(line[0]) + LineText(rest);
      forall k | 0 <= k < |line|
        ensures IsSpace(t[k]) <==> line[k] == ""
      {
        if k > 0 {
          assert t[k] == LineText(rest)[k - 1] && line[k] == rest[k - 1];
        }
      }
    }
  }

  /** On one-character cells the word mask of a line is its filled-cell mask. */
  lemma LineMaskIsCellMask(line: seq<string>)
    requires forall k :: 0 <= k < |line| ==> OneChar(line[k])
    ensures LineMask(line) == CellMask(line)
  {
    LineTextOfOneChars(line);
  }

  /** Rows and columns of a one-character grid consist of one-character cells. */
  lemma LinesOfOneChars(g: WordGrid, axis: Axis, l: nat)
    requires g.Wf() && OneCharCells(g) && l < |Lines(g, axis)|
    ensures forall k :: 0 <= k < |Lines(g, axis)[l]| ==> OneChar(Lines(g, axis)[l][k])
  {
    if axis == Down {
      var col := GetColumns(g)[l];
      forall k | 0 <= k < |col|
        ensures OneChar(col[k])
      {
        assert col[k] == g.cells[k][l];
      }
    }
  }

  /**
   On a grid of one-character cells, a word occurrence is exactly a maximal
   run of two or more filled cells along a row or a column.
   */
  lemma WordsAreCellRuns(g: WordGrid, o: Occurrence)
    requires g.Wf() && OneCharCells(g)
    ensures IsWordAt(g, o) <==>
      && o.line < |Lines(g, o.axis)|
      && IsMaxRun(CellMask(Lines(g, o.axis)[o.line]), o.span)
      && o.span.Len() >= 2
  {
    if o.line < |Lines(g, o.axis)| {
      LinesOfOneChars(g, o.axis, o.line);
      LineMaskIsCellMask(Lines(g, o.axis)[o.line]);
    }
  }

  /** Two neighbouring set positions lie in one maximal run of length at least two. */
  lemma LongRunAt(mask: seq<bool>, p: nat) returns (sp: Span)
    requires p + 1 < |mask| && mask[p] && mask[p + 1]
    ensures IsMaxRun(mask, sp) && sp.Len() >= 2 && sp.start <= p < sp.end
  {
    var rs := AllRuns(mask);
    assert Covered(rs, p);
    var k :| 0 <= k < |rs| && rs[k].start <= p < rs[k].end;
    sp := rs[k];
  }

  /** A filled cell with a filled right or lower neighbour. */
  predicate HasNeighbour(g: WordGrid, r: int, c: int) {
    g.Filled((r, c)) && (g.Filled((r, c + 1)) || g.Filled((r + 1, c)))
  }

  /** A word occurrence starts with two neighbouring filled cells. */
  lemma WordGivesNeighbour(g: WordGrid, o: Occurrence)
    requires g.Wf() && OneCharCells(g) && IsWordAt(g, o)
    ensures o.axis == Across ==> HasNeighbour(g, o.line, o.span.start)
    ensures o.axis == Down ==> HasNeighbour(g, o.span.start, o.line)
  {
    WordsAreCellRuns(g, o);
    var line := Lines(g, o.axis)[o.line];
    var s := o.span.start;
    assert CellMask(line)[s] && CellMask(line)[s + 1];
    if o.axis == Down {
      assert line[s] == g.cells[s][o.line] && line[s + 1] == g.cells[s + 1][o.line];
    }
  }

  /** Two neighbouring filled cells lie in a word occurrence. */
  lemma NeighbourGivesWord(g: WordGrid, r: int, c: int) returns (o: Occurrence)
    requires g.Wf() && OneCharCells(g) && HasNeighbour(g, r, c)
    ensures IsWordAt(g, o)
  {
    if g.Filled((r, c + 1)) {
      var sp := LongRunAt(CellMask(g.cells[r]), c);
      o := Occurrence(Across, r, sp);
    } else {
      var line := GetColumns(g)[c];
      assert line[r] == g.cells[r][c] && line[r + 1] == g.cells[r + 1][c];
      var sp := LongRunAt(CellMask(line), r);
      o := Occurrence(Down, c, sp);
    }
    WordsAreCellRuns(g, o);
  }

  /**
   On a grid of one-character cells the word list is empty exactly when no
   two filled cells are neighbours along a row or a column.
   */
  lemma NoWordsIffNoNeighbours(g: WordGrid)
    requires g.Wf() && OneCharCells(g)
    ensures GetAllWords(g) == [] <==> forall r, c :: !HasNeighbour(g, r, c)
  {
    NoWordsWithoutRuns(g);
    if o :| IsWordAt(g, o) {
      WordGivesNeighbour(g, o);
    }
    if r, c :| HasNeighbour(g, r, c) {
      var o := NeighbourGivesWord(g, r, c);
    }
  }

  /** `from_list_of_strings` builds a grid of one-character cells. */
  lemma FromStringsOneChar(rows: seq<string>)
    requires |rows| > 0
    ensures OneCharCells(FromStrings(rows).value)
  {
  }

  /** Normalising at most one character gives an empty or one-letter cell. */
  lemma NormalizeOneChar(s: string)
    requires |s| <= 1
    ensures OneChar(Normalize(s))
  {
    var v := Normalize(s);
    if v != "" {
      assert IsLowerLetter(v[0]);
    }
  }

  /** `from_positions` builds a grid of one-character cells when no letter is longer than one character. */
  lemma FromPositionsOneChar(ps: seq<Position>)
    requires |ps| > 0
    requires forall k :: 0 <= k < |ps| ==> |ps[k].letter| <= 1
    ensures OneCharCells(FromPositions(ps).value)
  {
    var g := FromPositions(ps).value;
    forall r, c | 0 <= r < |g.cells| && 0 <= c < |g.cells[r]|
      ensures OneChar(g.cells[r][c])
    {
      if !Unlisted(ps, r, c) {
        var k :| 0 <= k < |ps| && (ps[k].y, ps[k].x) == (r, c);
        var last := LastIndexAt(ps, k);
        assert g.cells[r][c] == Normalize(ps[last].letter);
        NormalizeOneChar(ps[last].letter);
      }
    }
  }
}
