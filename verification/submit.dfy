/**
 The `/api/submit` verdict: the grid built from the posted positions, its
 words checked against the dictionary, whether its tiles are connected, and
 the area of its bounding box. The dictionary and the day's best score are
 parameters.
 */
module Submit {
  import opened Text
  import opened Grid
  import opened Words
  import opened Components
  import opened BoundingBox

  /** What a successful submission reports. */
  datatype Verdict = Verdict(
    error: Option<string>,
    words: seq<string>,
    wordCheck: seq<(string, bool)>,
    boundingBoxArea: nat,
    lowestScore: int)

  const NotConnected := "All words must be connected."

  /** The message naming the rejected words, comma-separated. */
  function NotAllowed(rejected: seq<string>): string {
    "The following words are not allowed: " + JoinWith(", ", rejected)
  }

  /** `check_all_words`: each word of the grid paired with the dictionary's verdict on it. */
  function CheckAllWords(g: WordGrid, isWord: string -> bool): (r: seq<(string, bool)>)
    requires g.Wf()
  {
    var ws := GetAllWords(g);
    seq(|ws|, i requires 0 <= i < |ws| => (ws[i], isWord(ws[i])))
  }

  /**
   The checks follow the word occurrences in reading order: entry `i` is
   the text of the `i`-th occurrence and the dictionary's verdict on it.
   */
  lemma CheckAllWordsSpec(g: WordGrid, isWord: string -> bool)
    requires g.Wf()
    ensures var r := CheckAllWords(g, isWord); var os := WordOccurrences(g);
      && |r| == |os|
      && forall i :: 0 <= i < |r| ==> IsWordAt(g, os[i]) && r[i] == (OccText(g, os[i]), isWord(OccText(g, os[i])))
  {
    GetAllWordsSpec(g);
  }

  /** `[c[0] for c in check if not c[1]]`: the rejected words, in order. */
  function Rejected(check: seq<(string, bool)>): (r: seq<string>)
    ensures |r| <= |check|
    ensures |r| == 0 <==> forall i :: 0 <= i < |check| ==> check[i].1
    ensures forall w :: w in r <==> (w, false) in check
  {
    if |check| == 0 then []
    else
      var rest := Rejected(check[1..]);
      assert forall i :: 1 <= i < |check| ==> check[i] == check[1..][i - 1];
      assert forall x :: x in check <==> x == check[0] || x in check[1..];
      if check[0].1 then rest else [check[0].0] + rest
  }

  /**
   The filter works check by check: the rejected words of two runs of
   checks are those of the first followed by those of the second, so the
   words keep the checks' order and their repeats.
   */
  lemma {:induction false} RejectedAppend(a: seq<(string, bool)>, b: seq<(string, bool)>)
    ensures Rejected(a + b) == Rejected(a) + Rejected(b)
  {
    if |a| == 0 {
      assert a + b == b;
    } else {
      assert (a + b)[1..] == a[1..] + b;
      RejectedAppend(a[1..], b);
    }
  }

  /** One check contributes its word exactly when it failed. */
  lemma RejectedSingle(x: (string, bool))
    ensures Rejected([x]) == if x.1 then [] else [x.0]
  {
  }

  /** No word is rejected exactly when the dictionary accepts every word of the grid. */
  lemma NoneRejected(g: WordGrid, isWord: string -> bool)
    requires g.Wf()
    ensures |Rejected(CheckAllWords(g, isWord))| == 0 <==>
      forall i :: 0 <= i < |GetAllWords(g)| ==> isWord(GetAllWords(g)[i])
  {
    var check := CheckAllWords(g, isWord);
    assert forall i :: 0 <= i < |check| ==> check[i].1 == isWord(GetAllWords(g)[i]);
  }

  /**
   The body of `submit`. The grid is built first (an empty position list
   fails there); the word error is set when a word is rejected and replaced
   when the tiles form more than one component; then the response is
   assembled in key order, so a board without letters fails at the area and
   a day without a game fails after that.
   */
  method Submit(ps: seq<Position>, isWord: string -> bool, bestScore: Option<int>) returns (r: Result<Verdict>)
    ensures |ps| == 0 ==> r == Err(EmptyPositions)
    ensures |ps| > 0 ==> var g := FromPositions(ps).value;
      && (FilledSet(g) == {} ==> r == Err(NoLetters))
      && (FilledSet(g) != {} && bestScore.None? ==> r == Err(NoGameToday))
      && (FilledSet(g) != {} && bestScore.Some? ==> r.Ok?)
    ensures r.Ok? ==> |ps| > 0 && var g := FromPositions(ps).value; var v := r.value;
      && v.words == GetAllWords(g)
      && v.wordCheck == CheckAllWords(g, isWord)
      && Some(v.lowestScore) == bestScore
      && (v.error.None? <==> (forall i :: 0 <= i < |v.words| ==> isWord(v.words[i])) && AllLinked(g))
      && (v.error == Some(NotConnected) <==> !AllLinked(g))
      && (AllLinked(g) && v.error.Some? ==> v.error == Some(NotAllowed(Rejected(v.wordCheck))))
      && forall r0, r1, c0, c1 :: Encloses(g, r0, r1, c0, c1) && Touches(g, r0, r1, c0, c1) ==>
           v.boundingBoxArea == (r1 - r0 + 1) * (c1 - c0 + 1)
  {
    var built := FromPositions(ps);
    if built.Err? {
      return Err(built.error);
    }
    var g := built.value;
    var check := CheckAllWords(g, isWord);
    var error: Option<string> := None;
    var rejected := Rejected(check);
    NoneRejected(g, isWord);
    if |rejected| > 0 {
      error := Some(NotAllowed(rejected));
    }
    var comps, sizes := CountConnectedComponents(g);
    assert |sizes| == |comps|;
    if |sizes| > 1 {
      error := Some(NotConnected);
    }
    var words := GetAllWords(g);
    var area := BoundingBoxArea(g);
    BoundingBoxAreaSpec(g);
    AreaOfTightBox(g);
    if area.Err? {
      return Err(area.error);
    }
    if bestScore.None? {
      return Err(NoGameToday);
    }
    assert NotAllowed(rejected) != NotConnected;
    return Ok(Verdict(error, words, check, area.value, bestScore.value));
  }
}
