/**
 * The ranking half of `retrieve_policy_context`: every policy line is
 * scored by how many of the query's words it contains, the `(score, line)`
 * pairs are sorted in reverse, and the first `top_n` lines are joined with
 * line breaks. Reading the policy file is not modelled: the lines arrive
 * already stripped and non-empty, or as `None` when the file is missing.
 */
module Retrieval {
  import opened Wrappers
  import opened Ascii

  /* ---------------- Words ---------------- */

  /**
   * `re.split(r"\W+", s)`, cutting at every non-word character. Where the
   * library collapses a run of separators into one cut, this leaves empty
   * pieces between them; the length filter below drops empty pieces, so the
   * word sets agree.
   */
  function Pieces(s: string): (ps: seq<string>)
    ensures |ps| >= 1
    decreases |s|
  {
    if s == [] then [[]]
    else
      var rest := Pieces(s[1..]);
      if IsWordChar(s[0]) then [[s[0]] + rest[0]] + rest[1..]
      else [[]] + rest
  }

  /** The word characters of `s`, in order. */
  function WordChars(s: string): string
    decreases |s|
  {
    if s == [] then []
    else if IsWordChar(s[0]) then [s[0]] + WordChars(s[1..])
    else WordChars(s[1..])
  }

  /** The pieces laid end to end. */
  function Flatten(ps: seq<string>): string
    decreases |ps|
  {
    if ps == [] then [] else ps[0] + Flatten(ps[1..])
  }

  predicate AllWordChars(p: string) {
    forall i | 0 <= i < |p| :: IsWordChar(p[i])
  }

  /**
   * The pieces are runs of word characters; laid end to end they are the
   * word characters of `s`, and there is one more piece than there are
   * separators. Where each piece sits is stated by `PiecesAreRuns`.
   */
  lemma {:induction false} PiecesMeans(s: string)
    ensures forall p | p in Pieces(s) :: AllWordChars(p)
    ensures Flatten(Pieces(s)) == WordChars(s)
    ensures |Pieces(s)| == |s| - |WordChars(s)| + 1
    decreases |s|
  {
    if s != [] {
      PiecesMeans(s[1..]);
      if IsWordChar(s[0]) {
        PiecesStepWord(s);
      } else {
        PiecesStepSeparator(s);
      }
    }
  }

  /** What `PiecesMeans` states of one text. */
  predicate PiecesFacts(s: string) {
    (forall p | p in Pieces(s) :: AllWordChars(p)) &&
    Flatten(Pieces(s)) == WordChars(s) &&
    |Pieces(s)| == |s| - |WordChars(s)| + 1
  }

  /** A leading word character joins the tail's first piece. */
  lemma PiecesStepWord(s: string)
    requires s != [] && IsWordChar(s[0]) && PiecesFacts(s[1..])
    ensures PiecesFacts(s)
  {
    var rest := Pieces(s[1..]);
    assert Pieces(s) == [[s[0]] + rest[0]] + rest[1..];
    StepWordChars(s[0], rest);
    StepWordFlatten(s[0], rest);
  }

  lemma StepWordChars(c: char, rest: seq<string>)
    requires IsWordChar(c) && |rest| >= 1 && forall p | p in rest :: AllWordChars(p)
    ensures forall p | p in [[c] + rest[0]] + rest[1..] :: AllWordChars(p)
  {
    assert rest[0] in rest;
    assert AllWordChars([c] + rest[0]);
    forall p | p in rest[1..]
      ensures AllWordChars(p)
    {
      assert p in rest;
    }
  }

  lemma StepWordFlatten(c: char, rest: seq<string>)
    requires |rest| >= 1
    ensures Flatten([[c] + rest[0]] + rest[1..]) == [c] + Flatten(rest)
  {
    var head := [c] + rest[0];
    assert ([head] + rest[1..])[1..] == rest[1..];
    assert Flatten([head] + rest[1..]) == head + Flatten(rest[1..]);
    assert rest == [rest[0]] + rest[1..];
    assert Flatten(rest) == rest[0] + Flatten(rest[1..]);
    AppendAssociates([c], rest[0], Flatten(rest[1..]));
  }

  lemma AppendAssociates(a: string, b: string, c: string)
    ensures (a + b) + c == a + (b + c)
  {
  }

  /** A leading separator starts an empty piece before the tail's pieces. */
  lemma PiecesStepSeparator(s: string)
    requires s != [] && !IsWordChar(s[0]) && PiecesFacts(s[1..])
    ensures PiecesFacts(s)
  {
    var rest := Pieces(s[1..]);
    assert Pieces(s) == [[]] + rest;
    assert Flatten([[]] + rest) == Flatten(rest) by {
      assert ([[]] + rest)[1..] == rest;
    }
  }

  /**
   * s[a..b] is a run of word characters that cannot be extended: it starts
   * at the beginning of the text or after a non-word character, and ends at
   * the end of the text or before one. Between two adjacent non-word
   * characters this is the empty run.
   */
  predicate MaximalRun(s: string, a: nat, b: nat) {
    a <= b <= |s| &&
    (forall i | a <= i < b :: IsWordChar(s[i])) &&
    (a == 0 || !IsWordChar(s[a - 1])) &&
    (b == |s| || !IsWordChar(s[b]))
  }

  /** Two maximal runs that start at the same index end at the same index. */
  lemma RunEndUnique(s: string, a: nat, b: nat, c: nat)
    requires MaximalRun(s, a, b) && MaximalRun(s, a, c)
    ensures b == c
  {
  }

  /** Piece k sits at a maximal run, which starts the text exactly when k is 0. */
  lemma {:induction false} PieceIsRun(s: string, k: nat)
    requires k < |Pieces(s)|
    ensures exists a: nat, b: nat :: MaximalRun(s, a, b) && Pieces(s)[k] == s[a..b] && (a == 0 <==> k == 0)
    decreases |s|
  {
    if s == [] {
      assert MaximalRun(s, 0, 0) && Pieces(s)[k] == s[0..0];
    } else if k == 0 && !IsWordChar(s[0]) {
      assert MaximalRun(s, 0, 0) && Pieces(s)[0] == s[0..0];
    } else if k == 0 {
      PieceIsRun(s[1..], 0);
      var a: nat, b: nat :| MaximalRun(s[1..], a, b) && Pieces(s[1..])[0] == s[1..][a..b] && a == 0;
      FirstPieceGrows(s, b);
    } else {
      var j := if IsWordChar(s[0]) then k else k - 1;
      PieceIsRun(s[1..], j);
      var a: nat, b: nat :| MaximalRun(s[1..], a, b) && Pieces(s[1..])[j] == s[1..][a..b] && (a == 0 <==> j == 0);
      LaterPieceShifts(s, k, j, a, b);
    }
  }

  /** A text starting with a word character extends the tail's first run by that character. */
  lemma FirstPieceGrows(s: string, b: nat)
    requires s != [] && IsWordChar(s[0])
    requires MaximalRun(s[1..], 0, b) && Pieces(s[1..])[0] == s[1..][0..b]
    ensures MaximalRun(s, 0, b + 1) && Pieces(s)[0] == s[0..b + 1]
  {
    var t := s[1..];
    assert forall i | 0 < i < b + 1 :: s[i] == t[i - 1];
    assert s[0..b + 1] == [s[0]] + t[0..b];
  }

  /** A later piece of the whole text is a piece of its tail, moved one place right. */
  lemma LaterPieceShifts(s: string, k: nat, j: nat, a: nat, b: nat)
    requires s != [] && k > 0 && j == (if IsWordChar(s[0]) then k else k - 1)
    requires j < |Pieces(s[1..])| && MaximalRun(s[1..], a, b)
    requires Pieces(s[1..])[j] == s[1..][a..b] && (a == 0 <==> j == 0)
    ensures MaximalRun(s, a + 1, b + 1) && Pieces(s)[k] == s[a + 1..b + 1]
  {
    ShiftRun(s, a, b);
    LaterPiece(s, k, j);
    SliceOfTail(s, a, b);
  }

  /** Piece k of a text, past its first, is piece k or k - 1 of its tail, as the first character joins a piece or not. */
  lemma LaterPiece(s: string, k: nat, j: nat)
    requires s != [] && k > 0 && j == (if IsWordChar(s[0]) then k else k - 1)
    requires j < |Pieces(s[1..])|
    ensures k < |Pieces(s)| && Pieces(s)[k] == Pieces(s[1..])[j]
  {
    var rest := Pieces(s[1..]);
    if IsWordChar(s[0]) {
      assert Pieces(s) == [[s[0]] + rest[0]] + rest[1..];
    } else {
      assert Pieces(s) == [[]] + rest;
    }
  }

  lemma SliceOfTail(s: string, a: nat, b: nat)
    requires a <= b < |s|
    ensures s[1..][a..b] == s[a + 1..b + 1]
  {
  }

  /**
   * A maximal run of the text after its first character, moved one place
   * right, is a maximal run of the whole text unless it starts the tail
   * right after a word character.
   */
  lemma ShiftRun(s: string, a: nat, b: nat)
    requires s != [] && MaximalRun(s[1..], a, b)
    requires a == 0 ==> !IsWordChar(s[0])
    ensures MaximalRun(s, a + 1, b + 1)
  {
    var t := s[1..];
    assert forall i | a + 1 <= i < b + 1 :: s[i] == t[i - 1];
    if a > 0 {
      assert s[a] == t[a - 1];
    }
    if b < |t| {
      assert s[b + 1] == t[b];
    }
  }

  /** A maximal run not at the start of the text is, one place left, a maximal run of its tail. */
  lemma UnshiftRun(s: string, a: nat, b: nat)
    requires s != [] && MaximalRun(s, a, b) && (a > 0 || IsWordChar(s[0]))
    ensures a > 0 ==> MaximalRun(s[1..], a - 1, b - 1)
    ensures a == 0 ==> b > 0 && MaximalRun(s[1..], 0, b - 1)
  {
    var t := s[1..];
    if a == 0 {
      assert b > 0;
    }
    var a' := if a > 0 then a - 1 else 0;
    assert forall i | a' <= i < b - 1 :: t[i] == s[i + 1];
    if a > 1 {
      assert t[a - 2] == s[a - 1];
    }
    if b < |s| {
      assert t[b - 1] == s[b];
    }
  }

  /** Every maximal run is a piece, the first piece exactly when it starts the text. */
  lemma {:induction false} RunIsPiece(s: string, a: nat, b: nat)
    requires MaximalRun(s, a, b)
    ensures exists k: nat :: k < |Pieces(s)| && Pieces(s)[k] == s[a..b] && (a == 0 <==> k == 0)
    decreases |s|
  {
    if s == [] {
      assert Pieces(s)[0] == s[a..b];
    } else if a == 0 && !IsWordChar(s[0]) {
      assert b == 0;
      assert Pieces(s)[0] == s[a..b];
    } else if a == 0 {
      UnshiftRun(s, a, b);
      PieceIsRun(s[1..], 0);
      var a': nat, b': nat :| MaximalRun(s[1..], a', b') && Pieces(s[1..])[0] == s[1..][a'..b'] && a' == 0;
      RunEndUnique(s[1..], 0, b - 1, b');
      FirstPieceGrows(s, b - 1);
    } else {
      UnshiftRun(s, a, b);
      RunIsPiece(s[1..], a - 1, b - 1);
      var k': nat :| k' < |Pieces(s[1..])| && Pieces(s[1..])[k'] == s[1..][a - 1..b - 1] && (a - 1 == 0 <==> k' == 0);
      RunShiftsPiece(s, a, b, k');
    }
  }

  /** A run of the tail that is its piece k' is the whole text's piece k' or k' + 1. */
  lemma RunShiftsPiece(s: string, a: nat, b: nat, k': nat)
    requires s != [] && a > 0 && MaximalRun(s, a, b)
    requires k' < |Pieces(s[1..])| && Pieces(s[1..])[k'] == s[1..][a - 1..b - 1] && (a - 1 == 0 <==> k' == 0)
    ensures var k := if IsWordChar(s[0]) then k' else k' + 1;
      k < |Pieces(s)| && Pieces(s)[k] == s[a..b] && k > 0
  {
    assert s[1..][a - 1..b - 1] == s[a..b];
    if IsWordChar(s[0]) {
      assert a > 1 && k' > 0;
    }
  }

  /**
   * `re.split(r"\W+", s)` up to the empty pieces: the pieces are exactly the
   * maximal runs of word characters of the text.
   */
  lemma PiecesAreRuns(s: string)
    ensures forall p :: p in Pieces(s) <==> exists a: nat, b: nat :: MaximalRun(s, a, b) && p == s[a..b]
  {
    forall p | p in Pieces(s)
      ensures exists a: nat, b: nat :: MaximalRun(s, a, b) && p == s[a..b]
    {
      var k :| 0 <= k < |Pieces(s)| && Pieces(s)[k] == p;
      PieceIsRun(s, k);
    }
    forall p | exists a: nat, b: nat :: MaximalRun(s, a, b) && p == s[a..b]
      ensures p in Pieces(s)
    {
      var a: nat, b: nat :| MaximalRun(s, a, b) && p == s[a..b];
      RunIsPiece(s, a, b);
    }
  }

  /**
   * `{w for w in re.split(r"\W+", s.lower()) if len(w) > 2}`: the words of
   * three characters or more.
   */
  function WordsOf(s: string): (ws: set<string>)
    ensures forall w | w in ws :: |w| > 2
  {
    set p | p in Pieces(Lower(s)) && |p| > 2
  }

  /**
   * The words of a text are exactly its maximal runs of word characters,
   * once lower-cased, that are three characters or longer.
   */
  lemma WordsMeans(s: string)
    ensures forall w :: w in WordsOf(s) <==>
      |w| > 2 && exists a: nat, b: nat :: MaximalRun(Lower(s), a, b) && w == Lower(s)[a..b]
  {
    PiecesAreRuns(Lower(s));
  }

  /** Every word of a text is lower case and made of word characters only. */
  lemma WordsAreLowerWordRuns(s: string)
    ensures forall w | w in WordsOf(s) :: AllWordChars(w) && forall i | 0 <= i < |w| :: !IsUpperLetter(w[i])
  {
    PiecesMeans(Lower(s));
    forall w | w in WordsOf(s)
      ensures forall i | 0 <= i < |w| :: !IsUpperLetter(w[i])
    {
      WordCharsOfLower(Lower(s), w);
    }
  }

  /** A piece of a lower-cased text has no upper-case letter. */
  lemma WordCharsOfLower(s: string, w: string)
    requires forall i | 0 <= i < |s| :: !IsUpperLetter(s[i])
    requires w in Pieces(s)
    ensures forall i | 0 <= i < |w| :: !IsUpperLetter(w[i])
  {
    PiecesMeans(s);
    PieceInFlatten(Pieces(s), w);
    WordCharsFrom(s);
  }

  /** The characters of a piece are characters of the flattened pieces. */
  lemma {:induction false} PieceInFlatten(ps: seq<string>, w: string)
    requires w in ps
    ensures forall i | 0 <= i < |w| :: w[i] in Flatten(ps)
    decreases |ps|
  {
    if ps[0] != w {
      PieceInFlatten(ps[1..], w);
    }
    forall i | 0 <= i < |w|
      ensures w[i] in Flatten(ps)
    {
      if ps[0] == w {
        assert Flatten(ps)[i] == w[i];
      } else {
        assert w[i] in Flatten(ps[1..]);
      }
    }
  }

  /** The word characters of `s` are characters of `s`. */
  lemma {:induction false} WordCharsFrom(s: string)
    ensures forall c | c in WordChars(s) :: c in s
    decreases |s|
  {
    if s != [] {
      WordCharsFrom(s[1..]);
      assert forall c | c in s[1..] :: c in s;
    }
  }

  /* ---------------- Scores ---------------- */

  /** `sum(1 for w in q_words if w in words)`: the number of query words the line contains. */
  function Score(qWords: set<string>, line: string): (n: nat)
    ensures n <= |qWords|
  {
    SubsetCard(qWords * WordsOf(line), qWords);
    |qWords * WordsOf(line)|
  }

  lemma SubsetCard(a: set<string>, b: set<string>)
    requires a <= b
    ensures |a| <= |b|
  {
    assert b == a + (b - a);
  }

  /** A line scores zero exactly when it shares no word with the query, and full marks when it has them all. */
  lemma ScoreMeans(qWords: set<string>, line: string)
    ensures Score(qWords, line) == 0 <==> forall w | w in qWords :: w !in WordsOf(line)
    ensures Score(qWords, line) == |qWords| <==> qWords <= WordsOf(line)
  {
    var common := qWords * WordsOf(line);
    if Score(qWords, line) == 0 {
      assert common == {};
    } else {
      var w :| w in common;
    }
    if Score(qWords, line) == |qWords| {
      if !(qWords <= WordsOf(line)) {
        var w :| w in qWords && w !in WordsOf(line);
        SubsetCard(common, qWords - {w});
        assert false;
      }
    } else {
      assert common != qWords;
    }
  }

  /** One scored line: the pair the source sorts. */
  datatype Scored = Scored(score: nat, line: string)

  /** The pairs `(score, line)` for the lines, in input order. */
  function ScoreAll(qWords: set<string>, lines: seq<string>): (r: seq<Scored>)
    ensures |r| == |lines|
    ensures forall i | 0 <= i < |r| :: r[i] == Scored(Score(qWords, lines[i]), lines[i])
    decreases |lines|
  {
    if lines == [] then []
    else ScoreAll(qWords, lines[..|lines| - 1]) + [Scored(Score(qWords, lines[|lines| - 1]), lines[|lines| - 1])]
  }

  /* ---------------- The order `sort(reverse=True)` puts pairs in ---------------- */

  /** Python's `a <= b` on strings: code point by code point, a prefix first. */
  predicate LexLe(a: string, b: string)
    decreases |a|
  {
    a == [] || (b != [] && (a[0] < b[0] || (a[0] == b[0] && LexLe(a[1..], b[1..]))))
  }

  lemma {:induction false} LexLeTotal(a: string, b: string)
    ensures LexLe(a, b) || LexLe(b, a)
    decreases |a|
  {
    if a != [] && b != [] && a[0] == b[0] {
      LexLeTotal(a[1..], b[1..]);
    }
  }

  lemma {:induction false} LexLeAntisymmetric(a: string, b: string)
    requires LexLe(a, b) && LexLe(b, a)
    ensures a == b
    decreases |a|
  {
    if a != [] {
      LexLeAntisymmetric(a[1..], b[1..]);
      assert a == [a[0]] + a[1..] && b == [b[0]] + b[1..];
    }
  }

  lemma {:induction false} LexLeTransitive(a: string, b: string, c: string)
    requires LexLe(a, b) && LexLe(b, c)
    ensures LexLe(a, c)
    decreases |a|
  {
    if a != [] && a[0] == b[0] && b[0] == c[0] {
      LexLeTransitive(a[1..], b[1..], c[1..]);
    }
  }

  /** `x` sorts no later than `y` under `sort(reverse=True)`: a higher score, or an equal score and a line that is not smaller. */
  predicate Ahead(x: Scored, y: Scored) {
    x.score > y.score || (x.score == y.score && LexLe(y.line, x.line))
  }

  lemma AheadTotal(x: Scored, y: Scored)
    ensures Ahead(x, y) || Ahead(y, x)
  {
    LexLeTotal(x.line, y.line);
  }

  lemma AheadAntisymmetric(x: Scored, y: Scored)
    requires Ahead(x, y) && Ahead(y, x)
    ensures x == y
  {
    LexLeAntisymmetric(x.line, y.line);
  }

  lemma AheadTransitive(x: Scored, y: Scored, z: Scored)
    requires Ahead(x, y) && Ahead(y, z)
    ensures Ahead(x, z)
  {
    if x.score == y.score && y.score == z.score {
      LexLeTransitive(z.line, y.line, x.line);
    }
  }

  /** Sorted in reverse: each pair is ahead of every later one. */
  predicate SortedDesc(t: seq<Scored>) {
    forall i, j | 0 <= i < j < |t| :: Ahead(t[i], t[j])
  }

  /** A pair ahead of every element of a sorted sequence can go in front of it. */
  lemma ConsSorted(h: Scored, t: seq<Scored>)
    requires SortedDesc(t)
    requires forall e | e in multiset(t) :: Ahead(h, e)
    ensures SortedDesc([h] + t)
  {
    var r := [h] + t;
    forall i, j | 0 <= i < j < |r|
      ensures Ahead(r[i], r[j])
    {
      if i == 0 {
        assert r[j] == t[j - 1];
        assert t[j - 1] in multiset(t);
      } else {
        assert r[i] == t[i - 1] && r[j] == t[j - 1];
      }
    }
  }

  /** Insertion of one pair into a sequence sorted in reverse. */
  function Insert(x: Scored, t: seq<Scored>): (r: seq<Scored>)
    requires SortedDesc(t)
    ensures SortedDesc(r)
    ensures multiset(r) == multiset(t) + multiset{x}
    ensures |r| == |t| + 1
    decreases |t|
  {
    if t == [] then [x]
    else if Ahead(x, t[0]) then
      InsertFront(x, t);
      [x] + t
    else
      var rest := Insert(x, t[1..]);
      InsertBehind(x, t, rest);
      [t[0]] + rest
  }

  /** A pair ahead of the head of a sorted sequence is ahead of all of it. */
  lemma InsertFront(x: Scored, t: seq<Scored>)
    requires SortedDesc(t) && t != [] && Ahead(x, t[0])
    ensures SortedDesc([x] + t)
  {
    forall e | e in multiset(t)
      ensures Ahead(x, e)
    {
      var j :| 0 <= j < |t| && t[j] == e;
      if j > 0 {
        AheadTransitive(x, t[0], e);
      }
    }
    ConsSorted(x, t);
  }

  /** A pair behind the head goes into the tail, and the head stays in front. */
  lemma InsertBehind(x: Scored, t: seq<Scored>, rest: seq<Scored>)
    requires SortedDesc(t) && t != [] && !Ahead(x, t[0])
    requires SortedDesc(rest) && multiset(rest) == multiset(t[1..]) + multiset{x}
    ensures SortedDesc([t[0]] + rest)
    ensures multiset([t[0]] + rest) == multiset(t) + multiset{x}
  {
    AheadTotal(x, t[0]);
    assert t == [t[0]] + t[1..];
    forall e | e in multiset(rest)
      ensures Ahead(t[0], e)
    {
      if e != x {
        assert e in multiset(t[1..]);
        var j :| 0 <= j < |t[1..]| && t[1..][j] == e;
        assert t[j + 1] == e;
      }
    }
    ConsSorted(t[0], rest);
  }

  /** The pairs sorted in reverse, one insertion at a time. */
  function SortDesc(s: seq<Scored>): (t: seq<Scored>)
    ensures SortedDesc(t)
    ensures multiset(t) == multiset(s)
    ensures |t| == |s|
    decreases |s|
  {
    if s == [] then []
    else
      assert s == s[..|s| - 1] + [s[|s| - 1]];
      Insert(s[|s| - 1], SortDesc(s[..|s| - 1]))
  }

  /**
   * The reverse order is total on pairs, so there is one way to sort them:
   * any sequence sorted in reverse with the same elements is this one.
   * Which sorting algorithm the library runs therefore does not matter.
   */
  lemma {:induction false} SortedUnique(a: seq<Scored>, b: seq<Scored>)
    requires SortedDesc(a) && SortedDesc(b) && multiset(a) == multiset(b)
    ensures a == b
    decreases |a|
  {
    if a != [] {
      SortedHeads(a, b);
      TailMultiset(a, b);
      SortedUnique(a[1..], b[1..]);
      assert a == [a[0]] + a[1..] && b == [b[0]] + b[1..];
    }
  }

  /** Two reverse-sorted arrangements of the same pairs start with the same pair. */
  lemma SortedHeads(a: seq<Scored>, b: seq<Scored>)
    requires SortedDesc(a) && SortedDesc(b) && multiset(a) == multiset(b)
    requires a != []
    ensures b != [] && a[0] == b[0]
  {
    assert a[0] in multiset(b);
    assert |b| > 0;
    assert b[0] in multiset(a);
    var j :| 0 <= j < |b| && b[j] == a[0];
    var i :| 0 <= i < |a| && a[i] == b[0];
    if j > 0 {
      assert Ahead(b[0], a[0]);
    }
    if i > 0 {
      assert Ahead(a[0], b[0]);
    }
    if i > 0 && j > 0 {
      AheadAntisymmetric(a[0], b[0]);
    }
  }

  lemma TailMultiset(a: seq<Scored>, b: seq<Scored>)
    requires a != [] && b != [] && a[0] == b[0] && multiset(a) == multiset(b)
    ensures multiset(a[1..]) == multiset(b[1..])
  {
    assert a == [a[0]] + a[1..] && b == [b[0]] + b[1..];
    assert multiset(a) == multiset{a[0]} + multiset(a[1..]);
    assert multiset(b) == multiset{a[0]} + multiset(b[1..]);
    assert multiset(a[1..]) == multiset(a) - multiset{a[0]};
    assert multiset(b[1..]) == multiset(b) - multiset{a[0]};
  }

  /* ---------------- Taking the top lines ---------------- */

  /** How many pairs `scored[:topN]` keeps: a negative bound counts from the end. */
  function TakeCount(topN: int, len: nat): (k: nat)
    ensures k <= len
  {
    if topN >= 0 then (if topN < len then topN else len)
    else if len + topN >= 0 then len + topN
    else 0
  }

  /** The lines of the pairs. */
  function LinesOf(t: seq<Scored>): (ls: seq<string>)
    ensures |ls| == |t|
    ensures forall i | 0 <= i < |t| :: ls[i] == t[i].line
    decreases |t|
  {
    if t == [] then [] else [t[0].line] + LinesOf(t[1..])
  }

  /** `"\n".join(xs)` */
  function JoinLines(xs: seq<string>): string
    decreases |xs|
  {
    if xs == [] then ""
    else if |xs| == 1 then xs[0]
    else xs[0] + "\n" + JoinLines(xs[1..])
  }

  /** The text cut at every line break: `s.split("\n")`. */
  function SplitLines(s: string): (ps: seq<string>)
    ensures |ps| >= 1
    decreases |s|
  {
    if s == [] then [[]]
    else
      var rest := SplitLines(s[1..]);
      if s[0] != '\n' then [[s[0]] + rest[0]] + rest[1..]
      else [[]] + rest
  }

  /** A line without a break splits into itself, and a break ends the first piece. */
  lemma {:induction false} SplitLinesPrefix(a: string, b: string)
    requires '\n' !in a
    ensures SplitLines(a + b)[0] == a + SplitLines(b)[0]
    ensures SplitLines(a + b)[1..] == SplitLines(b)[1..]
    decreases |a|
  {
    if a == [] {
      assert a + b == b;
    } else {
      var ab := a + b;
      assert ab[1..] == a[1..] + b;
      assert ab[0] == a[0];
      SplitLinesPrefix(a[1..], b);
      var rest := SplitLines(ab[1..]);
      assert SplitLines(ab) == [[a[0]] + rest[0]] + rest[1..];
      assert [a[0]] + (a[1..] + SplitLines(b)[0]) == a + SplitLines(b)[0];
    }
  }

  /** Joining lines that hold no break and cutting the text at breaks gives the lines back. */
  lemma {:induction false} SplitJoin(xs: seq<string>)
    requires xs != []
    requires forall i | 0 <= i < |xs| :: '\n' !in xs[i]
    ensures SplitLines(JoinLines(xs)) == xs
    decreases |xs|
  {
    if |xs| == 1 {
      SplitLinesPrefix(xs[0], "");
      assert xs[0] + "" == xs[0];
    } else {
      SplitJoin(xs[1..]);
      var tail := JoinLines(xs[1..]);
      assert JoinLines(xs) == xs[0] + ("\n" + tail);
      SplitLinesPrefix(xs[0], "\n" + tail);
      assert ("\n" + tail)[1..] == tail;
      assert SplitLines("\n" + tail) == [[]] + SplitLines(tail);
      assert xs[0] + [] == xs[0];
    }
  }

  /* ---------------- The whole ranking ---------------- */

  /** The scored pairs in the order `sort(reverse=True)` leaves them. */
  function Ranking(query: string, lines: seq<string>): (r: seq<Scored>)
    ensures |r| == |lines|
  {
    SortDesc(ScoreAll(WordsOf(query), lines))
  }

  /**
   * What `retrieve_policy_context(query, top_n)` returns: the empty text
   * when there is no policy file, otherwise the first `top_n` lines of the
   * ranking, one per line.
   */
  function Context(query: string, policy: Option<seq<string>>, topN: int): string {
    match policy
    case None => ""
    case Some(lines) =>
      var ranked := Ranking(query, lines);
      JoinLines(LinesOf(ranked[..TakeCount(topN, |ranked|)]))
  }

  /**
   * `retrieve_policy_context`: scores each line into a growing list, sorts
   * it in reverse and joins the first `top_n` lines. The library sort is
   * stood for by `SortDesc`; `SortedUnique` shows every correct sort gives
   * the same list.
   */
  method RetrievePolicyContext(query: string, policy: Option<seq<string>>, topN: int) returns (context: string)
    ensures context == Context(query, policy, topN)
  {
    if policy.None? {
      return "";
    }
    var lines := policy.value;
    var scored := ScoreLines(WordsOf(query), lines);
    scored := SortDesc(scored);
    var top := scored[..TakeCount(topN, |scored|)];
    context := JoinLines(LinesOf(top));
  }

  /** The scoring loop: one pair per line, appended in the order of the lines. */
  method ScoreLines(qWords: set<string>, lines: seq<string>) returns (scored: seq<Scored>)
    ensures scored == ScoreAll(qWords, lines)
  {
    scored := [];
    for i := 0 to |lines|
      invariant scored == ScoreAll(qWords, lines[..i])
    {
      var words := WordsOf(lines[i]);
      var score := |qWords * words|;
      ghost var prefix := lines[..i + 1];
      assert prefix[..|prefix| - 1] == lines[..i] && prefix[|prefix| - 1] == lines[i];
      assert ScoreAll(qWords, prefix) == scored + [Scored(score, lines[i])];
      scored := scored + [Scored(score, lines[i])];
    }
    assert lines[..|lines|] == lines;
  }

  /* ---------------- What the ranking guarantees ---------------- */

  /** The ranking holds each input line once per occurrence, with its score, and is sorted in reverse. */
  lemma RankingIsSortedPermutation(query: string, lines: seq<string>)
    ensures SortedDesc(Ranking(query, lines))
    ensures multiset(Ranking(query, lines)) == multiset(ScoreAll(WordsOf(query), lines))
    ensures |Ranking(query, lines)| == |lines|
  {
    var s := ScoreAll(WordsOf(query), lines);
    assert |multiset(Ranking(query, lines))| == |multiset(s)|;
  }

  /**
   * A kept line scores at least as high as any line left out; among equal
   * scores the larger line text comes first, whatever the input order.
   */
  lemma KeptLinesWin(query: string, lines: seq<string>, topN: int, i: nat, j: nat)
    requires var k := TakeCount(topN, |lines|); i < k <= j < |lines|
    ensures Ranking(query, lines)[i].score >= Ranking(query, lines)[j].score
    ensures Ranking(query, lines)[i].score == Ranking(query, lines)[j].score ==>
      LexLe(Ranking(query, lines)[j].line, Ranking(query, lines)[i].line)
  {
    RankingIsSortedPermutation(query, lines);
  }

  /** The context is made of the first `TakeCount` ranked lines, which `SplitLines` recovers. */
  lemma ContextLines(query: string, lines: seq<string>, topN: int)
    requires forall i | 0 <= i < |lines| :: '\n' !in lines[i]
    requires TakeCount(topN, |lines|) > 0
    ensures SplitLines(Context(query, Some(lines), topN)) ==
      LinesOf(Ranking(query, lines)[..TakeCount(topN, |lines|)])
  {
    var ranked := Ranking(query, lines);
    var top := LinesOf(ranked[..TakeCount(topN, |lines|)]);
    RankedLinesUnbroken(query, lines);
    assert forall i | 0 <= i < |top| :: top[i] == ranked[i].line;
    SplitJoin(top);
  }

  /**
   * How many lines the context holds, and which: `scored[:top_n]` keeps the
   * first `min(top_n, len)` ranked lines for a bound of zero or more, and for
   * a negative bound all but the last `-top_n` of them; keeping none gives
   * the empty text.
   */
  lemma ContextLineCount(query: string, lines: seq<string>, topN: int)
    requires forall i | 0 <= i < |lines| :: '\n' !in lines[i]
    ensures var k := if topN >= 0 then (if topN < |lines| then topN else |lines|)
                     else (if |lines| + topN > 0 then |lines| + topN else 0);
      (k == 0 ==> Context(query, Some(lines), topN) == "") &&
      (k > 0 ==> |SplitLines(Context(query, Some(lines), topN))| == k &&
                 SplitLines(Context(query, Some(lines), topN)) == LinesOf(Ranking(query, lines)[..k]))
  {
    if TakeCount(topN, |lines|) > 0 {
      ContextLines(query, lines, topN);
    }
  }

  /** Every ranked line is one of the input lines, so none holds a line break when none of those does. */
  lemma RankedLinesUnbroken(query: string, lines: seq<string>)
    requires forall i | 0 <= i < |lines| :: '\n' !in lines[i]
    ensures forall i | 0 <= i < |Ranking(query, lines)| :: '\n' !in Ranking(query, lines)[i].line
  {
    RankingIsSortedPermutation(query, lines);
    var ranked := Ranking(query, lines);
    var s := ScoreAll(WordsOf(query), lines);
    forall i | 0 <= i < |ranked|
      ensures '\n' !in ranked[i].line
    {
      assert ranked[i] in multiset(s);
      var j :| 0 <= j < |s| && s[j] == ranked[i];
      assert ranked[i].line == lines[j];
    }
  }

  /** No policy file, or a file without lines, gives the empty context. */
  lemma EmptyContext(query: string, topN: int)
    ensures Context(query, None, topN) == ""
    ensures Context(query, Some([]), topN) == ""
  {
    assert Ranking(query, []) == [];
  }

  /** With the default `top_n` of 6 at most six lines are kept, and all of them when there are fewer. */
  lemma DefaultTopSix(lines: seq<string>)
    ensures TakeCount(6, |lines|) == if |lines| < 6 then |lines| else 6
  {
  }

  /** The empty query has no words. */
  lemma EmptyQueryWords()
    ensures WordsOf("") == {}
  {
    assert Pieces(Lower("")) == [[]];
  }

  /** Against a query without words every line scores zero. */
  lemma ScoresOfEmptyQuery(lines: seq<string>)
    ensures forall i | 0 <= i < |lines| :: ScoreAll({}, lines)[i] == Scored(0, lines[i])
  {
    forall i | 0 <= i < |lines|
      ensures ScoreAll({}, lines)[i] == Scored(0, lines[i])
    {
      assert {} * WordsOf(lines[i]) == {};
    }
  }

  /** The ranking is the one reverse-sorted arrangement of the scored lines. */
  lemma RankingIs(query: string, lines: seq<string>, t: seq<Scored>)
    requires SortedDesc(t) && multiset(t) == multiset(ScoreAll(WordsOf(query), lines))
    ensures Ranking(query, lines) == t
  {
    SortedUnique(Ranking(query, lines), t);
  }

  /**
   * An empty query scores every line zero, so the order is by line text,
   * largest first: "overtime" comes before "leave" although it was given second.
   */
  lemma TieByTextExample()
    ensures Context("", Some(["leave"] + ["overtime"]), 6) == "overtime\nleave"
  {
    TieByTextContext();
    TieByTextJoin();
  }

  /** The context behind `TieByTextExample`, as the ranked lines. */
  lemma TieByTextContext()
    ensures Context("", Some(["leave"] + ["overtime"]), 6) == JoinLines(LinesOf([Scored(0, "overtime"), Scored(0, "leave")]))
  {
    TieByTextRanking();
    assert [Scored(0, "overtime"), Scored(0, "leave")][..TakeCount(6, 2)] == [Scored(0, "overtime"), Scored(0, "leave")];
  }

  /** The ranked lines behind `TieByTextExample`, joined. */
  lemma TieByTextJoin()
    ensures JoinLines(LinesOf([Scored(0, "overtime"), Scored(0, "leave")])) == "overtime\nleave"
  {
  }

  /** The ranking behind `TieByTextExample`. */
  lemma TieByTextRanking()
    ensures Ranking("", ["leave"] + ["overtime"]) == [Scored(0, "overtime"), Scored(0, "leave")]
  {
    TieByTextScores();
    TieByTextSorted();
    RankingIs("", ["leave"] + ["overtime"], [Scored(0, "overtime"), Scored(0, "leave")]);
  }

  /** Both lines of `TieByTextExample` score zero against the empty query. */
  lemma TieByTextScores()
    ensures ScoreAll(WordsOf(""), ["leave"] + ["overtime"]) == [Scored(0, "leave"), Scored(0, "overtime")]
  {
    var lines := ["leave"] + ["overtime"];
    EmptyQueryWords();
    ScoresOfEmptyQuery(lines);
  }

  /** The two scored lines in reverse order, and as the same multiset as the input. */
  lemma TieByTextSorted()
    ensures SortedDesc([Scored(0, "overtime"), Scored(0, "leave")])
    ensures multiset([Scored(0, "overtime"), Scored(0, "leave")]) == multiset([Scored(0, "leave"), Scored(0, "overtime")])
  {
    LeaveBeforeOvertime();
  }

  lemma LeaveBeforeOvertime()
    ensures LexLe("leave", "overtime")
  {
  }
}
