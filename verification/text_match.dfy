/**
 * The fixed regular-expression shapes the attendance parser uses, without a
 * regular-expression engine:
 *   - `a1.*a2.*...`, where each ai is a list of literal alternatives: the
 *     literals occur in order, each starting at or after the end of the one
 *     before, with no line break between (`.` does not match a newline);
 *   - `w1\s*w2\s*...([0-9]+(\.[0-9]+)?)`: literal words each followed by any
 *     whitespace, then a decimal numeral, found at the leftmost position
 *     where it matches, as `re.search` does.
 */
module TextMatch {
  import opened Wrappers
  import opened Ascii

  /* ---------------- Literal occurrences ---------------- */

  /** The suffix t[k..] sits in s from index i + k on. */
  predicate MatchesFrom(s: string, i: nat, t: string, k: nat)
    decreases |t| - k
  {
    k >= |t| || (i + k < |s| && s[i + k] == t[k] && MatchesFrom(s, i, t, k + 1))
  }

  /** The literal t occurs in s starting at index i. */
  predicate OccursAt(s: string, i: nat, t: string) {
    i + |t| <= |s| && MatchesFrom(s, i, t, 0)
  }

  lemma {:induction false} MatchesFromMeans(s: string, i: nat, t: string, k: nat)
    requires k <= |t| && i + |t| <= |s|
    ensures MatchesFrom(s, i, t, k) <==> forall m :: k <= m < |t| ==> s[i + m] == t[m]
    decreases |t| - k
  {
    if k < |t| {
      MatchesFromMeans(s, i, t, k + 1);
    }
  }

  /** The recursive definition agrees with the slice of s at i. */
  lemma OccursAtMeans(s: string, i: nat, t: string)
    ensures OccursAt(s, i, t) <==> i + |t| <= |s| && s[i..i + |t|] == t
  {
    if i + |t| <= |s| {
      MatchesFromMeans(s, i, t, 0);
      if s[i..i + |t|] == t {
        forall m | 0 <= m < |t|
          ensures s[i + m] == t[m]
        {
          assert s[i..i + |t|][m] == s[i + m];
        }
      }
    }
  }

  /** `t in s[i:]`, scanning start positions from i on. */
  predicate ContainsFrom(s: string, i: nat, t: string)
    decreases |s| - i
  {
    i + |t| <= |s| && (OccursAt(s, i, t) || ContainsFrom(s, i + 1, t))
  }

  /** `t in s` */
  predicate Contains(s: string, t: string) {
    ContainsFrom(s, 0, t)
  }

  lemma {:induction false} ContainsFromMeans(s: string, i: nat, t: string)
    ensures ContainsFrom(s, i, t) <==> exists j :: i <= j && OccursAt(s, j, t)
    decreases |s| - i
  {
    if i + |t| <= |s| {
      ContainsFromMeans(s, i + 1, t);
      if exists j :: i <= j && OccursAt(s, j, t) {
        var j :| i <= j && OccursAt(s, j, t);
        assert j == i || (i + 1 <= j && OccursAt(s, j, t));
      }
    }
  }

  lemma ContainsMeans(s: string, t: string)
    ensures Contains(s, t) <==> exists j :: OccursAt(s, j, t)
  {
    ContainsFromMeans(s, 0, t);
  }

  /** A literal holding a character the text lacks does not occur in it. */
  lemma ContainsNeedsChar(s: string, t: string, c: char)
    requires c in t && c !in s
    ensures !Contains(s, t)
  {
    if Contains(s, t) {
      ContainsMeans(s, t);
      var j: nat :| OccursAt(s, j, t);
      OccursAtMeans(s, j, t);
    }
  }

  /** Every character of s is one of those listed in `alphabet`. */
  predicate DrawnFrom(s: string, alphabet: string) {
    forall i | 0 <= i < |s| :: s[i] in alphabet
  }

  /** A literal holding a character outside the text's alphabet does not occur in it. */
  lemma ContainsNeedsLetter(s: string, alphabet: string, t: string, c: char)
    requires DrawnFrom(s, alphabet) && c in t && c !in alphabet
    ensures !Contains(s, t)
  {
    ContainsNeedsChar(s, t, c);
  }

  /** The characters a, b never stand side by side in s. */
  predicate NoPair(s: string, a: char, b: char) {
    forall i | 0 <= i < |s| - 1 :: !(s[i] == a && s[i + 1] == b)
  }

  /** A literal holding two adjacent characters that never stand side by side in the text does not occur in it. */
  lemma ContainsNeedsPair(s: string, t: string, m: nat)
    requires m + 1 < |t| && NoPair(s, t[m], t[m + 1])
    ensures !Contains(s, t)
  {
    ContainsMeans(s, t);
    forall j: nat | j + |t| <= |s|
      ensures !OccursAt(s, j, t)
    {
      OccursAtMeans(s, j, t);
      assert s[j..j + |t|][m] == s[j + m] && s[j..j + |t|][m + 1] == s[j + m + 1];
    }
  }

  /** A literal whose first character stands in s only at k occurs nowhere else. */
  lemma OccursOnlyAt(s: string, t: string, k: nat)
    requires |t| > 0 && forall i | 0 <= i < |s| && i != k :: s[i] != t[0]
    ensures forall j: nat | j != k :: !OccursAt(s, j, t)
  {
    forall j: nat | j != k && j + |t| <= |s|
      ensures !OccursAt(s, j, t)
    {
      OccursAtMeans(s, j, t);
      assert s[j..j + |t|][0] == s[j];
    }
  }

  /** A literal that begins with t occurs only where t occurs ("monday" implies "mon"). */
  lemma OccursAtPrefix(s: string, i: nat, t: string, u: string)
    requires OccursAt(s, i, t + u)
    ensures OccursAt(s, i, t)
  {
    OccursAtMeans(s, i, t + u);
    OccursAtMeans(s, i, t);
    assert s[i..i + |t|] == (t + u)[..|t|];
  }

  lemma ContainsPrefix(s: string, t: string, u: string)
    requires Contains(s, t + u)
    ensures Contains(s, t)
  {
    ContainsMeans(s, t + u);
    var j :| OccursAt(s, j, t + u);
    OccursAtPrefix(s, j, t, u);
    ContainsMeans(s, t);
  }

  /* ---------------- Occurrences in a concatenation ---------------- */

  lemma OccursInLeft(x: string, y: string, i: nat, t: string)
    requires OccursAt(x, i, t)
    ensures OccursAt(x + y, i, t)
  {
    OccursAtMeans(x, i, t);
    OccursAtMeans(x + y, i, t);
    assert (x + y)[i..i + |t|] == x[i..i + |t|];
  }

  lemma OccursInRight(x: string, y: string, i: nat, t: string)
    requires OccursAt(y, i, t)
    ensures OccursAt(x + y, |x| + i, t)
  {
    OccursAtMeans(y, i, t);
    OccursAtMeans(x + y, |x| + i, t);
    assert (x + y)[|x| + i..|x| + i + |t|] == y[i..i + |t|];
  }

  /** An occurrence of t that straddles the end of x contains x's last character. */
  lemma StraddleHoldsLastChar(x: string, y: string, i: nat, t: string)
    requires OccursAt(x + y, i, t) && i < |x| < i + |t|
    ensures x[|x| - 1] in t
  {
    OccursAtMeans(x + y, i, t);
    assert (x + y)[i..i + |t|][|x| - 1 - i] == x[|x| - 1];
    assert t[|x| - 1 - i] == x[|x| - 1];
  }

  /**
   * When the last character of x does not appear in t, an occurrence of t in
   * x + y lies wholly inside x or wholly inside y.
   */
  lemma OccurrenceSplit(x: string, y: string, i: nat, t: string)
    requires OccursAt(x + y, i, t)
    requires |x| > 0 && x[|x| - 1] !in t
    ensures (i + |t| <= |x| && OccursAt(x, i, t)) || (i >= |x| && OccursAt(y, i - |x|, t))
  {
    OccursAtMeans(x + y, i, t);
    if i + |t| <= |x| {
      assert (x + y)[i..i + |t|] == x[i..i + |t|];
      OccursAtMeans(x, i, t);
    } else if i >= |x| {
      assert (x + y)[i..i + |t|] == y[i - |x|..i - |x| + |t|];
      OccursAtMeans(y, i - |x|, t);
    } else {
      StraddleHoldsLastChar(x, y, i, t);
      assert false;
    }
  }

  /** No occurrence of t starts inside x when t is absent from x and cannot straddle x and y. */
  lemma NoStartInLeft(x: string, y: string, t: string, i: nat)
    requires |x| > 0 && x[|x| - 1] !in t
    requires !Contains(x, t)
    requires i < |x|
    ensures !OccursAt(x + y, i, t)
  {
    if OccursAt(x + y, i, t) {
      OccurrenceSplit(x, y, i, t);
      ContainsMeans(x, t);
    }
  }

  /* ---------------- `a1.*a2.*...` on one line ---------------- */

  /** No line break in s[p..q]. */
  predicate OnOneLine(s: string, p: nat, q: nat)
    requires p <= q <= |s|
  {
    forall m | p <= m < q :: s[m] != '\n'
  }

  /**
   * `.*a1.*a2...` matched from p, trying each start position in turn as a
   * backtracking matcher does: the next element starts at p, or the gap
   * takes one more character, which must not be a line break.
   */
  predicate RestFrom(s: string, p: nat, pat: seq<seq<string>>)
    decreases |pat|, 1, |s| - p
  {
    pat == [] ||
    (p <= |s| && (AltsAt(s, p, pat[0], pat[1..]) || (p < |s| && s[p] != '\n' && RestFrom(s, p + 1, pat))))
  }

  /** Some alternative occurs at j and the rest of the pattern matches after it. */
  predicate AltsAt(s: string, j: nat, alts: seq<string>, rest: seq<seq<string>>)
    decreases |rest| + 1, 0, |alts|
  {
    alts != [] &&
    ((OccursAt(s, j, alts[0]) && RestFrom(s, j + |alts[0]|, rest)) || AltsAt(s, j, alts[1..], rest))
  }

  /** The first element may start at i or anywhere after it. */
  predicate SearchFrom(s: string, i: nat, pat: seq<seq<string>>)
    requires pat != []
    decreases |s| - i
  {
    i <= |s| && (AltsAt(s, i, pat[0], pat[1..]) || SearchFrom(s, i + 1, pat))
  }

  /** `re.search("a1.*a2...", s)` succeeds. */
  predicate Search(s: string, pat: seq<seq<string>>) {
    pat != [] && SearchFrom(s, 0, pat)
  }

  /** `re.search("t.*k", s)`: t occurs, and k occurs later on the same line. */
  predicate Follows(s: string, t: string, k: string) {
    Search(s, [[t], [k]])
  }

  lemma {:induction false} AltsAtMeans(s: string, j: nat, alts: seq<string>, rest: seq<seq<string>>)
    ensures AltsAt(s, j, alts, rest) <==> exists a | a in alts :: OccursAt(s, j, a) && RestFrom(s, j + |a|, rest)
    decreases |alts|
  {
    if alts != [] {
      AltsAtMeans(s, j, alts[1..], rest);
      assert forall a :: a in alts <==> a == alts[0] || a in alts[1..];
    }
  }

  lemma {:induction false} RestFromMeans(s: string, p: nat, pat: seq<seq<string>>)
    requires pat != []
    ensures RestFrom(s, p, pat) <==> exists j | p <= j <= |s| :: OnOneLine(s, p, j) && AltsAt(s, j, pat[0], pat[1..])
    decreases |s| - p
  {
    if p < |s| {
      RestFromMeans(s, p + 1, pat);
      if exists j | p <= j <= |s| :: OnOneLine(s, p, j) && AltsAt(s, j, pat[0], pat[1..]) {
        var j :| p <= j <= |s| && OnOneLine(s, p, j) && AltsAt(s, j, pat[0], pat[1..]);
        if j > p {
          assert s[p] != '\n';
          assert OnOneLine(s, p + 1, j);
        }
      }
      if RestFrom(s, p + 1, pat) && s[p] != '\n' {
        var j :| p + 1 <= j <= |s| && OnOneLine(s, p + 1, j) && AltsAt(s, j, pat[0], pat[1..]);
        assert OnOneLine(s, p, j);
      }
    } else if p == |s| {
      assert OnOneLine(s, p, p);
    }
  }

  lemma {:induction false} SearchFromMeans(s: string, i: nat, pat: seq<seq<string>>)
    requires pat != []
    ensures SearchFrom(s, i, pat) <==> exists j | i <= j <= |s| :: AltsAt(s, j, pat[0], pat[1..])
    decreases |s| - i
  {
    if i <= |s| {
      SearchFromMeans(s, i + 1, pat);
      if exists j | i <= j <= |s| :: AltsAt(s, j, pat[0], pat[1..]) {
        var j :| i <= j <= |s| && AltsAt(s, j, pat[0], pat[1..]);
        assert j == i || i + 1 <= j;
      }
      if SearchFrom(s, i + 1, pat) {
        var j :| i + 1 <= j <= |s| && AltsAt(s, j, pat[0], pat[1..]);
        assert i <= j;
      } else if AltsAt(s, i, pat[0], pat[1..]) {
        assert SearchFrom(s, i, pat);
        assert exists j | i <= j <= |s| :: AltsAt(s, j, pat[0], pat[1..]);
      }
    }
  }

  lemma SearchMeans(s: string, pat: seq<seq<string>>)
    requires pat != []
    ensures Search(s, pat) <==> exists i | 0 <= i <= |s| :: AltsAt(s, i, pat[0], pat[1..])
  {
    SearchFromMeans(s, 0, pat);
  }

  lemma FollowsMeans(s: string, t: string, k: string)
    ensures Follows(s, t, k) <==>
      exists i, j | 0 <= i && i + |t| <= j :: OccursAt(s, i, t) && OccursAt(s, j, k) && OnOneLine(s, i + |t|, j)
  {
    var pat := [[t], [k]];
    assert pat[0] == [t] && pat[1..] == [[k]] && pat[1..][1..] == [];
    SearchMeans(s, pat);
    if Follows(s, t, k) {
      var i :| 0 <= i <= |s| && AltsAt(s, i, [t], [[k]]);
      AltsAtMeans(s, i, [t], [[k]]);
      RestFromMeans(s, i + |t|, [[k]]);
      var j :| i + |t| <= j <= |s| && OnOneLine(s, i + |t|, j) && AltsAt(s, j, [k], []);
      AltsAtMeans(s, j, [k], []);
      assert OccursAt(s, i, t) && OccursAt(s, j, k);
    }
    if exists i, j | 0 <= i && i + |t| <= j :: OccursAt(s, i, t) && OccursAt(s, j, k) && OnOneLine(s, i + |t|, j) {
      var i, j :| 0 <= i && i + |t| <= j && OccursAt(s, i, t) && OccursAt(s, j, k) && OnOneLine(s, i + |t|, j);
      FollowsAt(s, i, t, j, k);
    }
  }

  /** A witness for `t.*k`: t at i, k at j, no line break between. */
  lemma FollowsAt(s: string, i: nat, t: string, j: nat, k: string)
    requires OccursAt(s, i, t) && i + |t| <= j && OccursAt(s, j, k) && OnOneLine(s, i + |t|, j)
    ensures Follows(s, t, k)
  {
    assert AltsAt(s, j, [k], []);
    RestFromAt(s, i + |t|, j, k, [[k]]);
    SearchAt(s, i, t, [[t], [k]]);
  }

  /** A witness for the first element of a gap-separated pattern at j. */
  lemma RestFromAt(s: string, p: nat, j: nat, a: string, pat: seq<seq<string>>)
    requires pat != [] && p <= j <= |s| && OnOneLine(s, p, j)
    requires a in pat[0] && OccursAt(s, j, a) && RestFrom(s, j + |a|, pat[1..])
    ensures RestFrom(s, p, pat)
  {
    AltsAtMeans(s, j, pat[0], pat[1..]);
    RestFromMeans(s, p, pat);
  }

  /** A witness for a whole search: the first element at i. */
  lemma SearchAt(s: string, i: nat, a: string, pat: seq<seq<string>>)
    requires pat != [] && a in pat[0] && OccursAt(s, i, a) && RestFrom(s, i + |a|, pat[1..])
    ensures Search(s, pat)
  {
    AltsAtMeans(s, i, pat[0], pat[1..]);
    SearchMeans(s, pat);
  }

  /** A search can only succeed when some alternative of each element occurs in the text. */
  lemma {:induction false} AltsNeeds(s: string, j: nat, alts: seq<string>, rest: seq<seq<string>>, n: nat)
    requires AltsAt(s, j, alts, rest) && n <= |rest|
    ensures n == 0 ==> exists a :: a in alts && Contains(s, a)
    ensures n > 0 ==> exists a :: a in rest[n - 1] && Contains(s, a)
    decreases |rest|, 0
  {
    AltsAtMeans(s, j, alts, rest);
    var a :| a in alts && OccursAt(s, j, a) && RestFrom(s, j + |a|, rest);
    if n == 0 {
      ContainsMeans(s, a);
    } else {
      RestFromMeans(s, j + |a|, rest);
      var q :| j + |a| <= q <= |s| && OnOneLine(s, j + |a|, q) && AltsAt(s, q, rest[0], rest[1..]);
      AltsNeeds(s, q, rest[0], rest[1..], n - 1);
    }
  }

  lemma SearchNeeds(s: string, pat: seq<seq<string>>, n: nat)
    requires Search(s, pat) && n < |pat|
    ensures exists a :: a in pat[n] && Contains(s, a)
  {
    SearchMeans(s, pat);
    var i :| 0 <= i <= |s| && AltsAt(s, i, pat[0], pat[1..]);
    AltsNeeds(s, i, pat[0], pat[1..], n);
  }

  /**
   * `t.*k` cannot match x + y when every t lies in y, every k lies in x, and
   * no t straddles the two.
   */
  lemma NotFollowsAcross(x: string, y: string, t: string, k: string)
    requires |x| > 0 && x[|x| - 1] !in t
    requires !Contains(x, t) && !Contains(y, k)
    ensures !Follows(x + y, t, k)
  {
    FollowsMeans(x + y, t, k);
    if Follows(x + y, t, k) {
      var i, j :| 0 <= i && i + |t| <= j && OccursAt(x + y, i, t) && OccursAt(x + y, j, k) && OnOneLine(x + y, i + |t|, j);
      OccurrenceSplit(x, y, i, t);
      ContainsMeans(x, t);
      assert i >= |x|;
      OccursAtMeans(x + y, j, k);
      assert (x + y)[j..j + |k|] == y[j - |x|..j - |x| + |k|];
      OccursAtMeans(y, j - |x|, k);
      ContainsMeans(y, k);
    }
  }

  /* ---------------- `w1\s*w2\s*...([0-9]+(\.[0-9]+)?)` ---------------- */

  /** The end of the run of whitespace (`\s*`) starting at p. */
  function SpaceEnd(s: string, p: nat): (q: nat)
    requires p <= |s|
    ensures p <= q <= |s|
    ensures forall m | p <= m < q :: IsSpace(s[m])
    ensures q == |s| || !IsSpace(s[q])
    decreases |s| - p
  {
    if p < |s| && IsSpace(s[p]) then SpaceEnd(s, p + 1) else p
  }

  /** The end of the run of digits (`[0-9]*`) starting at p. */
  function DigitEnd(s: string, p: nat): (q: nat)
    requires p <= |s|
    ensures p <= q <= |s|
    ensures forall m | p <= m < q :: IsDigit(s[m])
    ensures q == |s| || !IsDigit(s[q])
    decreases |s| - p
  {
    if p < |s| && IsDigit(s[p]) then DigitEnd(s, p + 1) else p
  }

  predicate AllDigits(d: string) {
    forall m | 0 <= m < |d| :: IsDigit(d[m])
  }

  /** The value of a decimal numeral. */
  function DigitsValue(d: string): nat
    requires AllDigits(d)
  {
    if d == [] then 0
    else DigitsValue(d[..|d| - 1]) * 10 + (d[|d| - 1] as int - '0' as int)
  }

  function Pow10(n: nat): (r: nat)
    ensures r >= 1
  {
    if n == 0 then 1 else 10 * Pow10(n - 1)
  }

  /** A matched number: its value (`float(group)`) and the index just past its text. */
  datatype Number = Number(value: real, end: nat)

  /**
   * `[0-9]+(\.[0-9]+)?` matched at p, greedily as Python does: all the
   * integer digits, then a fraction only when a dot is followed by a digit.
   */
  function DecimalAt(s: string, p: nat): (r: Option<Number>)
    requires p <= |s|
    ensures r.Some? <==> p < |s| && IsDigit(s[p])
    ensures r.Some? ==> r.value.value >= 0.0 && p < r.value.end <= |s|
  {
    var e := DigitEnd(s, p);
    if e == p then None
    else Some(FractionAt(s, e, DigitsValue(s[p..e]) as real))
  }

  /** `(\.[0-9]+)?` after the integer digits that end at e, whose value is `whole`. */
  function FractionAt(s: string, e: nat, whole: real): (n: Number)
    requires e <= |s|
    ensures n.value >= whole && e <= n.end <= |s|
  {
    if e + 1 < |s| && s[e] == '.' && IsDigit(s[e + 1]) then
      var f := DigitEnd(s, e + 1);
      Number(whole + DigitsValue(s[e + 1..f]) as real / Pow10(f - e - 1) as real, f)
    else
      Number(whole, e)
  }

  /**
   * The pattern `w1\s*w2\s*...` followed by a numeral, matched starting
   * exactly at p. Each wi is a list of alternatives, tried in order as the
   * regular-expression engine backtracks through them.
   */
  function NumberAfter(s: string, p: nat, words: seq<seq<string>>): (r: Option<Number>)
    requires p <= |s|
    ensures r.Some? ==> r.value.value >= 0.0 && p < r.value.end <= |s|
    decreases |words|, 1, 0
  {
    if words == [] then DecimalAt(s, p)
    else TryAlternatives(s, p, words[0], words[1..])
  }

  function TryAlternatives(s: string, p: nat, alts: seq<string>, rest: seq<seq<string>>): (r: Option<Number>)
    requires p <= |s|
    ensures r.Some? ==> r.value.value >= 0.0 && p < r.value.end <= |s|
    ensures r.Some? ==> exists a :: a in alts && OccursAt(s, p, a)
    decreases |rest| + 1, 0, |alts|
  {
    if alts == [] then None
    else if OccursAt(s, p, alts[0]) && NumberAfter(s, SpaceEnd(s, p + |alts[0]|), rest).Some? then
      assert alts[0] in alts;
      NumberAfter(s, SpaceEnd(s, p + |alts[0]|), rest)
    else
      var r := TryAlternatives(s, p, alts[1..], rest);
      assert r.Some? ==> exists a :: a in alts[1..] && OccursAt(s, p, a);
      assert forall a | a in alts[1..] :: a in alts;
      r
  }

  /** Where a search matched and what it matched. */
  datatype Hit = Hit(start: nat, num: Number)

  /** `re.search` of the numeric pattern from p on: the leftmost start position that matches. */
  function FindNumber(s: string, p: nat, words: seq<seq<string>>): (r: Option<Hit>)
    requires p <= |s|
    ensures r.Some? ==> p <= r.value.start <= |s| && NumberAfter(s, r.value.start, words) == Some(r.value.num)
    ensures r.Some? ==> forall j | p <= j < r.value.start :: NumberAfter(s, j, words).None?
    ensures r.None? ==> forall j | p <= j <= |s| :: NumberAfter(s, j, words).None?
    decreases |s| - p
  {
    var here := NumberAfter(s, p, words);
    if here.Some? then Some(Hit(p, here.value))
    else if p < |s| then FindNumber(s, p + 1, words)
    else None
  }

  /** `float(re.search(pattern, s).group(n))` when the search succeeds. */
  function ExtractNumber(s: string, words: seq<seq<string>>): (r: Option<real>)
    ensures r.Some? ==> r.value >= 0.0
    ensures r.None? <==> forall j | 0 <= j <= |s| :: NumberAfter(s, j, words).None?
  {
    match FindNumber(s, 0, words)
    case Some(h) =>
      assert NumberAfter(s, h.start, words).Some?;
      Some(h.num.value)
    case None => None
  }

  /** A match of a pattern that starts with words begins with one of the first word's alternatives. */
  lemma NumberAfterNeedsWord(s: string, p: nat, words: seq<seq<string>>)
    requires p <= |s| && words != []
    requires NumberAfter(s, p, words).Some?
    ensures exists a :: a in words[0] && OccursAt(s, p, a)
  {
  }

  /** Start positions where no alternative of the first word occurs can be skipped. */
  lemma {:induction false} FindSkips(s: string, p: nat, q: nat, words: seq<seq<string>>)
    requires p <= q <= |s| && words != []
    requires forall j, a | p <= j < q && a in words[0] :: !OccursAt(s, j, a)
    ensures FindNumber(s, p, words) == FindNumber(s, q, words)
    decreases q - p
  {
    if p < q {
      if NumberAfter(s, p, words).Some? {
        NumberAfterNeedsWord(s, p, words);
      }
      FindSkips(s, p + 1, q, words);
    }
  }

  /** A match needs, somewhere in the text, an alternative of every word of the pattern. */
  lemma {:induction false} NumberAfterNeedsEach(s: string, p: nat, words: seq<seq<string>>, n: nat)
    requires p <= |s| && n < |words|
    requires NumberAfter(s, p, words).Some?
    ensures exists a :: a in words[n] && Contains(s, a)
    decreases |words|, 1, 0
  {
    TryAlternativesNeedsEach(s, p, words[0], words[1..], n);
  }

  lemma {:induction false} TryAlternativesNeedsEach(s: string, p: nat, alts: seq<string>, rest: seq<seq<string>>, n: nat)
    requires p <= |s| && n <= |rest|
    requires TryAlternatives(s, p, alts, rest).Some?
    ensures n == 0 ==> exists a :: a in alts && Contains(s, a)
    ensures n > 0 ==> exists a :: a in rest[n - 1] && Contains(s, a)
    decreases |rest| + 1, 0, |alts|
  {
    if OccursAt(s, p, alts[0]) && NumberAfter(s, SpaceEnd(s, p + |alts[0]|), rest).Some? {
      if n == 0 {
        ContainsMeans(s, alts[0]);
        assert alts[0] in alts;
      } else {
        NumberAfterNeedsEach(s, SpaceEnd(s, p + |alts[0]|), rest, n - 1);
      }
    } else {
      TryAlternativesNeedsEach(s, p, alts[1..], rest, n);
      if n == 0 {
        var a :| a in alts[1..] && Contains(s, a);
        assert a in alts;
      }
    }
  }

  /** A search for a pattern one of whose words never occurs finds nothing. */
  lemma ExtractNeedsEachWord(s: string, words: seq<seq<string>>, n: nat)
    requires n < |words|
    requires forall a | a in words[n] :: !Contains(s, a)
    ensures ExtractNumber(s, words) == None
  {
    forall j | 0 <= j <= |s|
      ensures NumberAfter(s, j, words).None?
    {
      if NumberAfter(s, j, words).Some? {
        NumberAfterNeedsEach(s, j, words, n);
      }
    }
  }

  /* ---------------- A match depends only on the text it reads ---------------- */

  /** A number found in y, seen from inside x + y. */
  function Shifted(r: Option<Number>, n: nat): Option<Number> {
    match r
    case None => None
    case Some(num) => Some(Number(num.value, num.end + n))
  }

  lemma {:induction false} SpaceEndShift(x: string, y: string, p: nat)
    requires p <= |y|
    ensures SpaceEnd(x + y, |x| + p) == |x| + SpaceEnd(y, p)
    decreases |y| - p
  {
    if p < |y| {
      assert (x + y)[|x| + p] == y[p];
      if IsSpace(y[p]) {
        SpaceEndShift(x, y, p + 1);
      }
    }
  }

  lemma {:induction false} DigitEndShift(x: string, y: string, p: nat)
    requires p <= |y|
    ensures DigitEnd(x + y, |x| + p) == |x| + DigitEnd(y, p)
    decreases |y| - p
  {
    if p < |y| {
      assert (x + y)[|x| + p] == y[p];
      if IsDigit(y[p]) {
        DigitEndShift(x, y, p + 1);
      }
    }
  }

  lemma OccursAtShift(x: string, y: string, p: nat, a: string)
    ensures OccursAt(x + y, |x| + p, a) <==> OccursAt(y, p, a)
  {
    OccursAtMeans(x + y, |x| + p, a);
    OccursAtMeans(y, p, a);
    if p + |a| <= |y| {
      assert (x + y)[|x| + p..|x| + p + |a|] == y[p..p + |a|];
    }
  }

  lemma DecimalAtShift(x: string, y: string, p: nat)
    requires p <= |y|
    ensures DecimalAt(x + y, |x| + p) == Shifted(DecimalAt(y, p), |x|)
  {
    DigitEndShift(x, y, p);
    var e := DigitEnd(y, p);
    if e != p {
      assert (x + y)[|x| + p..|x| + e] == y[p..e];
      FractionAtShift(x, y, e, DigitsValue(y[p..e]) as real);
    }
  }

  lemma FractionAtShift(x: string, y: string, e: nat, whole: real)
    requires e <= |y|
    ensures FractionAt(x + y, |x| + e, whole) == var n := FractionAt(y, e, whole); Number(n.value, n.end + |x|)
  {
    var s := x + y;
    if e + 1 < |y| {
      assert s[|x| + e] == y[e] && s[|x| + e + 1] == y[e + 1];
      if y[e] == '.' && IsDigit(y[e + 1]) {
        DigitEndShift(x, y, e + 1);
        var f := DigitEnd(y, e + 1);
        assert s[|x| + e + 1..|x| + f] == y[e + 1..f];
      }
    }
  }

  lemma {:induction false} NumberAfterShift(x: string, y: string, p: nat, words: seq<seq<string>>)
    requires p <= |y|
    ensures NumberAfter(x + y, |x| + p, words) == Shifted(NumberAfter(y, p, words), |x|)
    decreases |words|, 1, 0
  {
    if words == [] {
      DecimalAtShift(x, y, p);
    } else {
      TryAlternativesShift(x, y, p, words[0], words[1..]);
    }
  }

  lemma {:induction false} TryAlternativesShift(x: string, y: string, p: nat, alts: seq<string>, rest: seq<seq<string>>)
    requires p <= |y|
    ensures TryAlternatives(x + y, |x| + p, alts, rest) == Shifted(TryAlternatives(y, p, alts, rest), |x|)
    decreases |rest| + 1, 0, |alts|
  {
    if alts != [] {
      OccursAtShift(x, y, p, alts[0]);
      if OccursAt(y, p, alts[0]) {
        SpaceEndShift(x, y, p + |alts[0]|);
        NumberAfterShift(x, y, SpaceEnd(y, p + |alts[0]|), rest);
      }
      TryAlternativesShift(x, y, p, alts[1..], rest);
    }
  }

  /**
   * A character that ends every scan: not whitespace, not a digit, not a
   * decimal point, and in none of the pattern's words.
   */
  predicate Boundary(c: char, words: seq<seq<string>>) {
    !IsSpace(c) && !IsDigit(c) && c != '.' && forall w, a | w in words && a in w :: c !in a
  }

  lemma {:induction false} SpaceEndExtend(y: string, z: string, p: nat)
    requires p <= |y|
    requires z == [] || !IsSpace(z[0])
    ensures SpaceEnd(y + z, p) == SpaceEnd(y, p)
    decreases |y| - p
  {
    if p < |y| {
      assert (y + z)[p] == y[p];
      if IsSpace(y[p]) {
        SpaceEndExtend(y, z, p + 1);
      }
    } else if z != [] {
      assert (y + z)[p] == z[0];
    }
  }

  lemma {:induction false} DigitEndExtend(y: string, z: string, p: nat)
    requires p <= |y|
    requires z == [] || !IsDigit(z[0])
    ensures DigitEnd(y + z, p) == DigitEnd(y, p)
    decreases |y| - p
  {
    if p < |y| {
      assert (y + z)[p] == y[p];
      if IsDigit(y[p]) {
        DigitEndExtend(y, z, p + 1);
      }
    } else if z != [] {
      assert (y + z)[p] == z[0];
    }
  }

  lemma OccursAtExtend(y: string, z: string, p: nat, a: string)
    requires p <= |y|
    requires z == [] || z[0] !in a
    ensures OccursAt(y + z, p, a) <==> OccursAt(y, p, a)
  {
    OccursAtMeans(y + z, p, a);
    OccursAtMeans(y, p, a);
    if p + |a| <= |y| {
      assert (y + z)[p..p + |a|] == y[p..p + |a|];
    } else if OccursAt(y + z, p, a) {
      StraddleHoldsFirstChar(y, z, p, a);
      assert false;
    }
  }

  /** An occurrence of a that runs past the end of y contains z's first character. */
  lemma StraddleHoldsFirstChar(y: string, z: string, p: nat, a: string)
    requires OccursAt(y + z, p, a) && p <= |y| < p + |a|
    ensures z[0] in a
  {
    OccursAtMeans(y + z, p, a);
    assert (y + z)[p..p + |a|][|y| - p] == z[0];
  }

  lemma DecimalAtExtend(y: string, z: string, p: nat)
    requires p <= |y|
    requires z == [] || (!IsDigit(z[0]) && z[0] != '.')
    ensures DecimalAt(y + z, p) == DecimalAt(y, p)
  {
    DigitEndExtend(y, z, p);
    var e := DigitEnd(y, p);
    if e != p {
      assert (y + z)[p..e] == y[p..e];
      FractionAtExtend(y, z, e, DigitsValue(y[p..e]) as real);
    }
  }

  lemma FractionAtExtend(y: string, z: string, e: nat, whole: real)
    requires e <= |y|
    requires z == [] || (!IsDigit(z[0]) && z[0] != '.')
    ensures FractionAt(y + z, e, whole) == FractionAt(y, e, whole)
  {
    var s := y + z;
    if e + 1 < |y| {
      assert s[e] == y[e] && s[e + 1] == y[e + 1];
      if y[e] == '.' && IsDigit(y[e + 1]) {
        DigitEndExtend(y, z, e + 1);
        var f := DigitEnd(y, e + 1);
        assert s[e + 1..f] == y[e + 1..f];
      }
    } else if e + 1 == |y| && z != [] {
      assert s[e + 1] == z[0];
    } else if e == |y| && z != [] {
      assert s[e] == z[0];
    }
  }

  lemma {:induction false} NumberAfterExtend(y: string, z: string, p: nat, words: seq<seq<string>>)
    requires p <= |y|
    requires z == [] || Boundary(z[0], words)
    ensures NumberAfter(y + z, p, words) == NumberAfter(y, p, words)
    decreases |words|, 1, 0
  {
    if words == [] {
      DecimalAtExtend(y, z, p);
    } else {
      assert forall w | w in words[1..] :: w in words;
      TryAlternativesExtend(y, z, p, words[0], words[1..]);
    }
  }

  lemma {:induction false} TryAlternativesExtend(y: string, z: string, p: nat, alts: seq<string>, rest: seq<seq<string>>)
    requires p <= |y|
    requires z == [] || (Boundary(z[0], rest) && forall a | a in alts :: z[0] !in a)
    ensures TryAlternatives(y + z, p, alts, rest) == TryAlternatives(y, p, alts, rest)
    decreases |rest| + 1, 0, |alts|
  {
    if alts != [] {
      assert alts[0] in alts;
      OccursAtExtend(y, z, p, alts[0]);
      if OccursAt(y, p, alts[0]) {
        SpaceEndExtend(y, z, p + |alts[0]|);
        NumberAfterExtend(y, z, SpaceEnd(y, p + |alts[0]|), rest);
      }
      assert forall a | a in alts[1..] :: a in alts;
      TryAlternativesExtend(y, z, p, alts[1..], rest);
    }
  }

  /* ---------------- A text made of two parts ---------------- */

  /** A pair that stands in neither part, nor across the seam, stands nowhere in the whole. */
  lemma NoPairConcat(x: string, y: string, a: char, b: char)
    requires NoPair(x, a, b) && NoPair(y, a, b)
    requires x == [] || y == [] || !(x[|x| - 1] == a && y[0] == b)
    ensures NoPair(x + y, a, b)
  {
    forall i | 0 <= i < |x + y| - 1
      ensures !((x + y)[i] == a && (x + y)[i + 1] == b)
    {
      if i + 1 < |x| {
        assert (x + y)[i] == x[i] && (x + y)[i + 1] == x[i + 1];
      } else if i >= |x| {
        assert (x + y)[i] == y[i - |x|] && (x + y)[i + 1] == y[i - |x| + 1];
      } else {
        assert (x + y)[i] == x[|x| - 1] && (x + y)[i + 1] == y[0];
      }
    }
  }

  /** A search result found in y, seen from inside x + y. */
  function ShiftedHit(r: Option<Hit>, n: nat): Option<Hit> {
    match r
    case None => None
    case Some(h) => Some(Hit(h.start + n, Number(h.num.value, h.num.end + n)))
  }

  /** Searching x + y from inside y finds what searching y finds, moved by |x|. */
  lemma {:induction false} FindNumberShift(x: string, y: string, p: nat, words: seq<seq<string>>)
    requires p <= |y|
    ensures FindNumber(x + y, |x| + p, words) == ShiftedHit(FindNumber(y, p, words), |x|)
    decreases |y| - p
  {
    if NumberAfter(y, p, words).Some? {
      ShiftHere(x, y, p, words);
    } else if p < |y| {
      FindNumberShift(x, y, p + 1, words);
      ShiftStep(x, y, p, words);
    } else {
      ShiftEnd(x, y, p, words);
    }
  }

  lemma ShiftHere(x: string, y: string, p: nat, words: seq<seq<string>>)
    requires p <= |y| && NumberAfter(y, p, words).Some?
    ensures FindNumber(x + y, |x| + p, words) == ShiftedHit(FindNumber(y, p, words), |x|)
  {
    NumberAfterShift(x, y, p, words);
    FindNumberHere(y, p, words);
    FindNumberHere(x + y, |x| + p, words);
  }

  lemma ShiftStep(x: string, y: string, p: nat, words: seq<seq<string>>)
    requires p < |y| && NumberAfter(y, p, words).None?
    requires FindNumber(x + y, |x| + p + 1, words) == ShiftedHit(FindNumber(y, p + 1, words), |x|)
    ensures FindNumber(x + y, |x| + p, words) == ShiftedHit(FindNumber(y, p, words), |x|)
  {
    NumberAfterShift(x, y, p, words);
    FindNumberStep(y, p, words);
    FindNumberStep(x + y, |x| + p, words);
  }

  lemma ShiftEnd(x: string, y: string, p: nat, words: seq<seq<string>>)
    requires p == |y| && NumberAfter(y, p, words).None?
    ensures FindNumber(x + y, |x| + p, words) == ShiftedHit(FindNumber(y, p, words), |x|)
  {
    NumberAfterShift(x, y, p, words);
    FindNumberEnd(y, p, words);
    FindNumberEnd(x + y, |x| + p, words);
  }

  /** A pattern that matches at p is found at p. */
  lemma FindNumberHere(s: string, p: nat, words: seq<seq<string>>)
    requires p <= |s| && NumberAfter(s, p, words).Some?
    ensures FindNumber(s, p, words) == Some(Hit(p, NumberAfter(s, p, words).value))
  {
  }

  /** A pattern that does not match at p is looked for from p + 1. */
  lemma FindNumberStep(s: string, p: nat, words: seq<seq<string>>)
    requires p < |s| && NumberAfter(s, p, words).None?
    ensures FindNumber(s, p, words) == FindNumber(s, p + 1, words)
  {
  }

  /** At the end of the text a pattern that does not match there is not found. */
  lemma FindNumberEnd(s: string, p: nat, words: seq<seq<string>>)
    requires p == |s| && NumberAfter(s, p, words).None?
    ensures FindNumber(s, p, words) == None
  {
  }

  /**
   * A prefix that holds no alternative of the pattern's first word, and
   * whose last character is in none of them, does not change the number a
   * search reads.
   */
  lemma ExtractAfterPrefix(x: string, y: string, words: seq<seq<string>>)
    requires words != [] && |x| > 0
    requires forall a | a in words[0] :: x[|x| - 1] !in a && !Contains(x, a)
    ensures ExtractNumber(x + y, words) == ExtractNumber(y, words)
  {
    forall j, a | 0 <= j < |x| && a in words[0]
      ensures !OccursAt(x + y, j, a)
    {
      NoStartInLeft(x, y, a, j);
    }
    FindSkips(x + y, 0, |x|, words);
    FindNumberShift(x, y, 0, words);
  }

  /** A search that succeeds in y finds the same match in y + z when z starts with a boundary character. */
  lemma {:induction false} FindNumberExtend(y: string, z: string, p: nat, words: seq<seq<string>>)
    requires p <= |y| && FindNumber(y, p, words).Some?
    requires z == [] || Boundary(z[0], words)
    ensures FindNumber(y + z, p, words) == FindNumber(y, p, words)
    decreases |y| - p
  {
    NumberAfterExtend(y, z, p, words);
    if NumberAfter(y, p, words).None? {
      FindNumberExtend(y, z, p + 1, words);
    }
  }

  /** What follows a successful match, from a boundary character on, does not change the number read. */
  lemma ExtractBeforeSuffix(y: string, z: string, words: seq<seq<string>>)
    requires ExtractNumber(y, words).Some?
    requires z == [] || Boundary(z[0], words)
    ensures ExtractNumber(y + z, words) == ExtractNumber(y, words)
  {
    FindNumberExtend(y, z, 0, words);
  }
}
