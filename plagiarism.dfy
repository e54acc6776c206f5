/** The plagiarism scorer of lib/plagiarism.ts: an edit-distance matrix, a code
    normaliser, a tokeniser, a combined similarity and a scan of a per-language
    corpus of known solutions. */
module Plagiarism {
  import opened Util
  import opened Sorting

  // ---------------------------------------------------------------------------
  // Edit distance
  // ---------------------------------------------------------------------------

  function Min3(x: int, y: int, z: int): (r: int)
    ensures r <= x && r <= y && r <= z
    ensures r == x || r == y || r == z
  {
    if x <= y && x <= z then x else if y <= z then y else z
  }

  /** The value the source's matrix holds in row `i`, column `j` when comparing
      `a` (rows) with `b` (columns): the distance between `a[..i]` and `b[..j]`.
      Equal characters take the diagonal value outright; otherwise the least of
      the three neighbours plus one. */
  function Dist(a: string, b: string, i: int, j: int): int
    requires 0 <= i <= |a| && 0 <= j <= |b|
    decreases i + j
  {
    if i == 0 then j
    else if j == 0 then i
    else if a[i - 1] == b[j - 1] then Dist(a, b, i - 1, j - 1)
    else Min3(Dist(a, b, i - 1, j - 1) + 1, Dist(a, b, i, j - 1) + 1, Dist(a, b, i - 1, j) + 1)
  }

  /** The edit distance between `a` and `b`. */
  function EditDistance(a: string, b: string): nat {
    DistBounds(a, b, |a|, |b|);
    Dist(a, b, |a|, |b|)
  }

  /** The textbook Levenshtein recurrence: the least of a substitution (free on
      equal characters), an insertion and a deletion. */
  function TextbookDist(a: string, b: string, i: int, j: int): int
    requires 0 <= i <= |a| && 0 <= j <= |b|
    decreases i + j
  {
    if i == 0 then j
    else if j == 0 then i
    else Min3(TextbookDist(a, b, i - 1, j - 1) + (if a[i - 1] == b[j - 1] then 0 else 1),
              TextbookDist(a, b, i, j - 1) + 1,
              TextbookDist(a, b, i - 1, j) + 1)
  }

  /** One unfolding of `TextbookDist` away from the borders. */
  lemma TextbookStep(a: string, b: string, i: int, j: int)
    requires 1 <= i <= |a| && 1 <= j <= |b|
    ensures TextbookDist(a, b, i, j)
         == Min3(TextbookDist(a, b, i - 1, j - 1) + (if a[i - 1] == b[j - 1] then 0 else 1),
                 TextbookDist(a, b, i, j - 1) + 1,
                 TextbookDist(a, b, i - 1, j) + 1)
  {
  }

  /** Adding one character to either prefix raises the textbook distance by at most one. */
  lemma TextbookGrowth(a: string, b: string, i: int, j: int)
    requires 0 <= i <= |a| && 0 <= j <= |b|
    ensures i >= 1 ==> TextbookDist(a, b, i, j) <= TextbookDist(a, b, i - 1, j) + 1
    ensures j >= 1 ==> TextbookDist(a, b, i, j) <= TextbookDist(a, b, i, j - 1) + 1
  {
    if i >= 1 && j >= 1 {
      TextbookStep(a, b, i, j);
    }
  }

  /** Dropping one character from either prefix lowers the textbook distance by at most one. */
  lemma {:induction false} TextbookNeighbours(a: string, b: string, i: int, j: int)
    requires 0 <= i <= |a| && 0 <= j <= |b|
    ensures i >= 1 ==> TextbookDist(a, b, i - 1, j) <= TextbookDist(a, b, i, j) + 1
    ensures j >= 1 ==> TextbookDist(a, b, i, j - 1) <= TextbookDist(a, b, i, j) + 1
    decreases i + j
  {
    if i >= 1 && j >= 1 {
      var d, l, u := TextbookDist(a, b, i - 1, j - 1), TextbookDist(a, b, i, j - 1), TextbookDist(a, b, i - 1, j);
      TextbookStep(a, b, i, j);
      TextbookNeighbours(a, b, i, j - 1);
      TextbookNeighbours(a, b, i - 1, j);
      assert d <= l + 1 && d <= u + 1;
      TextbookGrowth(a, b, i - 1, j);
      TextbookGrowth(a, b, i, j - 1);
      assert u <= d + 1 && l <= d + 1;
    }
  }

  /** On equal characters the textbook recurrence takes the diagonal, as the
      source's shortcut does: the diagonal is never more than one above either
      neighbour. */
  lemma TextbookMatch(a: string, b: string, i: int, j: int)
    requires 1 <= i <= |a| && 1 <= j <= |b| && a[i - 1] == b[j - 1]
    ensures TextbookDist(a, b, i, j) == TextbookDist(a, b, i - 1, j - 1)
  {
    TextbookStep(a, b, i, j);
    TextbookNeighbours(a, b, i, j - 1);
    TextbookNeighbours(a, b, i - 1, j);
  }

  /** The source's recurrence, with its shortcut on equal characters, computes
      the textbook Levenshtein distance. */
  lemma {:induction false} DistIsTextbook(a: string, b: string, i: int, j: int)
    requires 0 <= i <= |a| && 0 <= j <= |b|
    ensures Dist(a, b, i, j) == TextbookDist(a, b, i, j)
    decreases i + j
  {
    if i >= 1 && j >= 1 {
      DistIsTextbook(a, b, i - 1, j - 1);
      if a[i - 1] == b[j - 1] {
        TextbookMatch(a, b, i, j);
      } else {
        DistIsTextbook(a, b, i, j - 1);
        DistIsTextbook(a, b, i - 1, j);
        TextbookStep(a, b, i, j);
      }
    }
  }

  /** The distance does not depend on which string indexes the rows. */
  lemma {:induction false} DistSymmetric(a: string, b: string, i: int, j: int)
    requires 0 <= i <= |a| && 0 <= j <= |b|
    ensures Dist(a, b, i, j) == Dist(b, a, j, i)
    decreases i + j
  {
    if i >= 1 && j >= 1 {
      DistSymmetric(a, b, i - 1, j - 1);
      DistSymmetric(a, b, i, j - 1);
      DistSymmetric(a, b, i - 1, j);
    }
  }

  /** One unfolding of `Dist` away from the borders. */
  lemma DistStep(a: string, b: string, i: int, j: int)
    requires 1 <= i <= |a| && 1 <= j <= |b|
    ensures Dist(a, b, i, j) == if a[i - 1] == b[j - 1] then Dist(a, b, i - 1, j - 1)
      else Min3(Dist(a, b, i - 1, j - 1) + 1, Dist(a, b, i, j - 1) + 1, Dist(a, b, i - 1, j) + 1)
  {
  }

  /** The distance lies between the difference of the two lengths and the larger one. */
  lemma {:induction false} DistBounds(a: string, b: string, i: int, j: int)
    requires 0 <= i <= |a| && 0 <= j <= |b|
    ensures (if i >= j then i - j else j - i) <= Dist(a, b, i, j) <= (if i >= j then i else j)
    decreases i + j
  {
    if i >= 1 && j >= 1 {
      DistBounds(a, b, i - 1, j - 1);
      DistBounds(a, b, i, j - 1);
      DistBounds(a, b, i - 1, j);
    }
  }

  /** A string is at distance zero from itself. */
  lemma {:induction false} DistSelf(s: string, i: int)
    requires 0 <= i <= |s|
    ensures Dist(s, s, i, i) == 0
  {
    if i > 0 {
      DistSelf(s, i - 1);
    }
  }

  /** The whole-string facts: symmetry, zero on equal strings, the length of the
      other string against the empty string, and the length bounds. */
  lemma EditDistanceFacts(a: string, b: string)
    ensures EditDistance(a, b) == EditDistance(b, a)
    ensures EditDistance(a, a) == 0
    ensures EditDistance(a, []) == |a| && EditDistance([], a) == |a|
    ensures (if |a| >= |b| then |a| - |b| else |b| - |a|) <= EditDistance(a, b) <= Max(|a|, |b|)
    ensures EditDistance(a, b) == TextbookDist(a, b, |a|, |b|)
  {
    DistSymmetric(a, b, |a|, |b|);
    DistBounds(a, b, |a|, |b|);
    DistSelf(a, |a|);
    DistIsTextbook(a, b, |a|, |b|);
  }

  /** `levenshteinDistance(str1, str2)`: the matrix has `|str2| + 1` rows and
      `|str1| + 1` columns; row 0 is filled with the column index, column 0 with
      the row index, and every other cell from its three neighbours; the result
      is the bottom-right cell. */
  method LevenshteinDistance(str1: string, str2: string) returns (d: nat)
    ensures d == EditDistance(str2, str1)
    ensures d == EditDistance(str1, str2)
  {
    var rows, cols := |str2|, |str1|;
    var matrix := new int[rows + 1, cols + 1];
    for i := 0 to rows + 1
      invariant forall a :: 0 <= a < i ==> matrix[a, 0] == a
    {
      matrix[i, 0] := i;
    }
    for j := 0 to cols + 1
      invariant forall b :: 0 <= b < j ==> matrix[0, b] == b
      invariant forall a :: 0 <= a <= rows ==> matrix[a, 0] == a
    {
      matrix[0, j] := j;
    }
    assert forall b :: 0 <= b <= cols ==> matrix[0, b] == Dist(str2, str1, 0, b);
    for i := 1 to rows + 1
      invariant forall a, b {:trigger matrix[a, b]} :: 0 <= a < i && 0 <= b <= cols ==> matrix[a, b] == Dist(str2, str1, a, b)
      invariant forall a :: i <= a <= rows ==> matrix[a, 0] == a
    {
      for j := 1 to cols + 1
        invariant forall a, b {:trigger matrix[a, b]} :: 0 <= a < i && 0 <= b <= cols ==> matrix[a, b] == Dist(str2, str1, a, b)
        invariant forall b {:trigger matrix[i, b]} :: 0 <= b < j ==> matrix[i, b] == Dist(str2, str1, i, b)
        invariant forall a :: i < a <= rows ==> matrix[a, 0] == a
      {
        var diagonal, left, above := matrix[i - 1, j - 1], matrix[i, j - 1], matrix[i - 1, j];
        var cell := if str2[i - 1] == str1[j - 1] then diagonal else Min3(diagonal + 1, left + 1, above + 1);
        assert cell == Dist(str2, str1, i, j) by {
          DistStep(str2, str1, i, j);
        }
        matrix[i, j] := cell;
      }
    }
    DistBounds(str2, str1, rows, cols);
    DistSymmetric(str2, str1, rows, cols);
    d := matrix[rows, cols];
  }

  // ---------------------------------------------------------------------------
  // Normalisation
  // ---------------------------------------------------------------------------

  /** The thirteen operator characters `{ } ( ) ; , = + - * / < >` of the source's patterns. */
  predicate IsOp(c: char) {
    c == '{' || c == '}' || c == '(' || c == ')' || c == ';' || c == ',' || c == '='
    || c == '+' || c == '-' || c == '*' || c == '/' || c == '<' || c == '>'
  }

  /** No `x` is immediately followed by `y` anywhere in `s`. */
  predicate NoPair(s: string, x: char, y: char) {
    forall k :: 0 <= k < |s| - 1 ==> !(s[k] == x && s[k + 1] == y)
  }

  /** The length of the line that `s` starts with, up to its first line terminator. */
  function LineLength(s: string): (n: nat)
    ensures n <= |s|
    ensures forall k :: 0 <= k < n ==> !IsLineTerminator(s[k])
    ensures n < |s| ==> IsLineTerminator(s[n])
  {
    if s == [] || IsLineTerminator(s[0]) then 0 else 1 + LineLength(s[1..])
  }

  /** The line-comment pass of `normalizeCode`: every `//` and the rest of its
      line are removed; the line terminator stays. */
  function StripLineComments(s: string): (r: string)
    ensures |r| <= |s|
    ensures NoPair(r, '/', '/')
    ensures s != [] && !StartsWith(s, "//") ==> r != [] && r[0] == s[0]
    ensures StartsWith(s, "//") ==> r == [] || IsLineTerminator(r[0])
    ensures NoPair(s, '/', '/') ==> r == s
    decreases |s|
  {
    if s == [] then []
    else if StartsWith(s, "//") then
      assert s[0] == s[..2][0] && s[1] == s[..2][1];
      StripLineComments(s[LineLength(s)..])
    else [s[0]] + StripLineComments(s[1..])
  }

  /** The offset of the first closing pair (a star, then a slash) in `s` at or
      after offset `k`, if any. */
  function FindClose(s: string, k: nat): (r: Option<nat>)
    requires k <= |s|
    ensures r.Some? ==> k <= r.value && r.value + 2 <= |s| && s[r.value] == '*' && s[r.value + 1] == '/'
    ensures r.Some? ==> forall q :: k <= q < r.value ==> !(s[q] == '*' && s[q + 1] == '/')
    ensures r.None? ==> forall q :: k <= q < |s| - 1 ==> !(s[q] == '*' && s[q + 1] == '/')
    decreases |s| - k
  {
    if k + 2 > |s| then None
    else if s[k] == '*' && s[k + 1] == '/' then Some(k)
    else FindClose(s, k + 1)
  }

  /** The block-comment pass of `normalizeCode` (a lazy match from an opening
      pair, a slash then a star, to a closing pair): scanning from the left, an
      opening pair with a closing pair somewhere after it is removed together
      with everything up to the first such closing pair; an opening pair with
      no closing pair after it is kept. */
  function StripBlockComments(s: string): (r: string)
    ensures |r| <= |s|
    ensures NoPair(s, '/', '*') ==> r == s
    decreases |s|
  {
    if s == [] then []
    else if |s| >= 2 && s[0] == '/' && s[1] == '*' && FindClose(s, 2).Some? then
      StripBlockComments(s[FindClose(s, 2).value + 2..])
    else [s[0]] + StripBlockComments(s[1..])
  }

  /** The number of white-space characters `s` starts with. */
  function SpaceRun(s: string): (n: nat)
    ensures n <= |s|
    ensures forall k :: 0 <= k < n ==> IsSpace(s[k])
    ensures n < |s| ==> !IsSpace(s[n])
  {
    if s != [] && IsSpace(s[0]) then 1 + SpaceRun(s[1..]) else 0
  }

  /** The characters of `s` that are not white space, in order. */
  function NonSpace(s: string): (r: string)
    ensures |r| <= |s|
    ensures forall k :: 0 <= k < |r| ==> !IsSpace(r[k])
  {
    if s == [] then [] else (if IsSpace(s[0]) then [] else [s[0]]) + NonSpace(s[1..])
  }

  /** Dropping a prefix of white space leaves the non-space characters unchanged. */
  lemma {:induction false} NonSpaceSkip(s: string, n: nat)
    requires n <= |s|
    requires forall k :: 0 <= k < n ==> IsSpace(s[k])
    ensures NonSpace(s[n..]) == NonSpace(s)
  {
    if n > 0 {
      NonSpaceSkip(s[1..], n - 1);
      assert s[1..][n - 1..] == s[n..];
    }
  }

  /** Every white-space character is a plain space and none follows another. */
  predicate SingleSpaced(s: string) {
    forall k :: 0 <= k < |s| && IsSpace(s[k]) ==> s[k] == ' ' && (k + 1 < |s| ==> !IsSpace(s[k + 1]))
  }

  /** No white space next to an operator character, on either side. */
  predicate OpsUnspaced(s: string) {
    forall k :: 0 <= k < |s| - 1 ==>
      !(IsSpace(s[k]) && IsOp(s[k + 1])) && !(IsOp(s[k]) && IsSpace(s[k + 1]))
  }

  /** Neither the first nor the last character is white space. */
  predicate Trimmed(s: string) {
    s == [] || (!IsSpace(s[0]) && !IsSpace(s[|s| - 1]))
  }

  /** The white-space pass of `normalizeCode`: every maximal run of white space
      becomes one space. */
  function CollapseSpaces(s: string): (r: string)
    ensures SingleSpaced(r)
    ensures r == [] <==> s == []
    ensures r != [] ==> (IsSpace(r[0]) <==> IsSpace(s[0]))
    ensures NonSpace(r) == NonSpace(s)
    decreases |s|
  {
    if s == [] then []
    else if IsSpace(s[0]) then
      NonSpaceSkip(s, SpaceRun(s));
      [' '] + CollapseSpaces(s[SpaceRun(s)..])
    else [s[0]] + CollapseSpaces(s[1..])
  }

  /** The operator pass of `normalizeCode`: the white space on both sides of
      every operator character is removed. */
  function StripOpSpaces(s: string): string
    decreases |s|
  {
    if s == [] then []
    else if OpAhead(s) then [s[SpaceRun(s)]] + StripOpSpaces(AfterOp(s))
    else [s[0]] + StripOpSpaces(s[1..])
  }

  /** An operator follows the white space `s` starts with. */
  predicate OpAhead(s: string) {
    SpaceRun(s) < |s| && IsOp(s[SpaceRun(s)])
  }

  /** What follows that operator and the white space after it. */
  function AfterOp(s: string): (r: string)
    requires OpAhead(s)
    ensures |r| <= |s| - SpaceRun(s) - 1 && r == s[|s| - |r|..]
    ensures r == [] || !IsSpace(r[0])
  {
    var rest := s[SpaceRun(s) + 1..];
    rest[SpaceRun(rest)..]
  }

  /** The first character after the operator pass: an operator that only
      white space precedes, or else the first character itself. */
  lemma StripOpSpacesHead(s: string)
    ensures StripOpSpaces(s) == [] <==> s == []
    ensures s != [] && OpAhead(s) ==> StripOpSpaces(s)[0] == s[SpaceRun(s)]
    ensures s != [] && !OpAhead(s) ==> StripOpSpaces(s)[0] == s[0]
  {
  }

  /** Putting a character in front keeps operators unspaced when it forms no
      space-operator pair with the first character. */
  lemma OpsUnspacedCons(c: char, t: string)
    requires OpsUnspaced(t)
    requires t != [] ==> !(IsSpace(c) && IsOp(t[0])) && !(IsOp(c) && IsSpace(t[0]))
    ensures OpsUnspaced([c] + t)
  {
    var r := [c] + t;
    forall k | 0 <= k < |r| - 1
      ensures !(IsSpace(r[k]) && IsOp(r[k + 1])) && !(IsOp(r[k]) && IsSpace(r[k + 1]))
    {
      if k > 0 {
        assert r[k] == t[k - 1] && r[k + 1] == t[k];
      }
    }
  }

  /** After the operator pass no operator character has white space beside it. */
  lemma {:induction false} StripOpSpacesUnspaced(s: string)
    ensures OpsUnspaced(StripOpSpaces(s))
    decreases |s|
  {
    if s != [] {
      if OpAhead(s) {
        StripOpSpacesUnspaced(AfterOp(s));
        UnspacedOpStep(s);
      } else {
        StripOpSpacesUnspaced(s[1..]);
        UnspacedPlainStep(s);
      }
    }
  }

  /** The operator pass at an operator keeps operators unspaced. */
  lemma UnspacedOpStep(s: string)
    requires OpAhead(s)
    requires OpsUnspaced(StripOpSpaces(AfterOp(s)))
    ensures OpsUnspaced(StripOpSpaces(s))
  {
    StripOpSpacesAt(s);
    SkippedHead(s[SpaceRun(s) + 1..], AfterOp(s));
    OpsUnspacedCons(s[SpaceRun(s)], StripOpSpaces(AfterOp(s)));
  }

  /** After a run of white space is skipped, the operator pass starts with no space. */
  lemma SkippedHead(rest: string, t: string)
    requires t == rest[SpaceRun(rest)..]
    ensures t != [] ==> !IsSpace(StripOpSpaces(t)[0])
  {
    StripOpSpacesHead(t);
    if t != [] {
      assert !IsSpace(t[0]);
      assert SpaceRun(t) == 0;
    }
  }

  /** The operator pass at any other character keeps operators unspaced. */
  lemma UnspacedPlainStep(s: string)
    requires s != [] && !OpAhead(s)
    requires OpsUnspaced(StripOpSpaces(s[1..]))
    ensures OpsUnspaced(StripOpSpaces(s))
  {
    StripOpSpacesSkip(s);
    PlainHead(s);
    OpsUnspacedCons(s[0], StripOpSpaces(s[1..]));
  }

  /** One step of the operator pass at a character that no operator follows
      after white space only. */
  lemma StripOpSpacesSkip(s: string)
    requires s != [] && !OpAhead(s)
    ensures StripOpSpaces(s) == [s[0]] + StripOpSpaces(s[1..])
  {
  }

  /** Where the operator pass keeps the first character, that character is
      no operator, and if it is white space the pass of the rest does not
      start with an operator. */
  lemma PlainHead(s: string)
    requires s != [] && !OpAhead(s)
    ensures !IsOp(s[0])
    ensures IsSpace(s[0]) && |s| > 1 ==> !IsOp(StripOpSpaces(s[1..])[0])
  {
    var t := s[1..];
    // an operator would start the run of length 0
    assert IsOp(s[0]) ==> SpaceRun(s) == 0;
    if IsSpace(s[0]) && t != [] {
      // the run continues, or ends before a character that is no operator
      assert SpaceRun(s) == 1 + SpaceRun(t);
      var m := SpaceRun(t);
      assert m < |t| ==> t[m] == s[SpaceRun(s)];
      StripOpSpacesHead(t);
      assert StripOpSpaces(t)[0] == t[0];
      if m > 0 {
        assert IsSpace(t[0]);
      }
    }
  }

  /** Putting a character in front keeps single spacing when that character is
      a plain space before a non-space, or no space at all. */
  lemma SingleSpacedCons(c: char, t: string)
    requires SingleSpaced(t)
    requires IsSpace(c) ==> c == ' ' && (t == [] || !IsSpace(t[0]))
    ensures SingleSpaced([c] + t)
  {
    var r := [c] + t;
    forall k | 0 <= k < |r| && IsSpace(r[k])
      ensures r[k] == ' ' && (k + 1 < |r| ==> !IsSpace(r[k + 1]))
    {
      if k > 0 {
        assert r[k] == t[k - 1];
      }
    }
  }

  /** A suffix of a single-spaced string is single-spaced. */
  lemma SingleSpacedSuffix(s: string, i: nat)
    requires SingleSpaced(s) && i <= |s|
    ensures SingleSpaced(s[i..])
  {
    var t := s[i..];
    forall k | 0 <= k < |t| && IsSpace(t[k]) ensures t[k] == ' ' && (k + 1 < |t| ==> !IsSpace(t[k + 1])) {
      assert t[k] == s[i + k];
      if k + 1 < |t| {
        assert t[k + 1] == s[i + k + 1];
      }
    }
  }

  /** The operator pass keeps single spacing. */
  lemma {:induction false} StripOpSpacesSingle(s: string)
    requires SingleSpaced(s)
    ensures SingleSpaced(StripOpSpaces(s))
    decreases |s|
  {
    if s != [] {
      if OpAhead(s) {
        SingleSpacedSuffix(s, |s| - |AfterOp(s)|);
        StripOpSpacesSingle(AfterOp(s));
        SingleOpStep(s);
      } else {
        SingleSpacedSuffix(s, 1);
        StripOpSpacesSingle(s[1..]);
        SinglePlainStep(s);
      }
    }
  }

  /** The operator pass at an operator keeps single spacing. */
  lemma SingleOpStep(s: string)
    requires OpAhead(s)
    requires SingleSpaced(StripOpSpaces(AfterOp(s)))
    ensures SingleSpaced(StripOpSpaces(s))
  {
    StripOpSpacesAt(s);
    assert !IsSpace(s[SpaceRun(s)]);
    SingleSpacedCons(s[SpaceRun(s)], StripOpSpaces(AfterOp(s)));
  }

  /** The operator pass at any other character keeps single spacing. */
  lemma SinglePlainStep(s: string)
    requires s != [] && !OpAhead(s) && SingleSpaced(s)
    requires SingleSpaced(StripOpSpaces(s[1..]))
    ensures SingleSpaced(StripOpSpaces(s))
  {
    StripOpSpacesSkip(s);
    var t := s[1..];
    if IsSpace(s[0]) && t != [] {
      assert !IsSpace(t[0]);
      assert SpaceRun(t) == 0;
      StripOpSpacesHead(t);
    }
    SingleSpacedCons(s[0], StripOpSpaces(t));
  }

  /** The operator pass removes white space and nothing else. */
  lemma {:induction false} StripOpSpacesNonSpace(s: string)
    ensures NonSpace(StripOpSpaces(s)) == NonSpace(s)
    decreases |s|
  {
    if s != [] {
      if OpAhead(s) {
        StripOpSpacesNonSpace(AfterOp(s));
        NonSpaceOpStep(s);
      } else {
        StripOpSpacesNonSpace(s[1..]);
        StripOpSpacesSkip(s);
        NonSpaceCons(s[0], StripOpSpaces(s[1..]));
      }
    }
  }

  /** `NonSpace` of a string with a given first character. */
  lemma NonSpaceCons(c: char, t: string)
    ensures NonSpace([c] + t) == (if IsSpace(c) then [] else [c]) + NonSpace(t)
  {
    assert ([c] + t)[1..] == t;
  }

  /** The operator pass at an operator drops only the white space around it. */
  lemma NonSpaceOpStep(s: string)
    requires OpAhead(s)
    requires NonSpace(StripOpSpaces(AfterOp(s))) == NonSpace(AfterOp(s))
    ensures NonSpace(StripOpSpaces(s)) == NonSpace(s)
  {
    var n := SpaceRun(s);
    var rest := s[n + 1..];
    StripOpSpacesAt(s);
    NonSpaceCons(s[n], StripOpSpaces(AfterOp(s)));
    NonSpaceSkip(s, n);
    NonSpaceSkip(rest, SpaceRun(rest));
    assert s[n..] == [s[n]] + rest;
    NonSpaceCons(s[n], rest);
  }

  /** Non-space characters distribute over concatenation. */
  lemma {:induction false} NonSpaceAppend(a: string, b: string)
    ensures NonSpace(a + b) == NonSpace(a) + NonSpace(b)
  {
    if a == [] {
      assert a + b == b;
    } else {
      var head := if IsSpace(a[0]) then [] else [a[0]];
      calc {
        NonSpace(a + b);
        { assert (a + b)[0] == a[0]; assert (a + b)[1..] == a[1..] + b; }
        head + NonSpace(a[1..] + b);
        { NonSpaceAppend(a[1..], b); }
        head + (NonSpace(a[1..]) + NonSpace(b));
        NonSpace(a) + NonSpace(b);
      }
    }
  }

  /** A string of white space has no non-space characters. */
  lemma {:induction false} NonSpaceAllSpace(s: string)
    requires forall k :: 0 <= k < |s| ==> IsSpace(s[k])
    ensures NonSpace(s) == []
  {
    if s != [] {
      NonSpaceAllSpace(s[1..]);
    }
  }

  /** `s` without its trailing white space. */
  function TrimEnd(s: string): (r: string)
    ensures |r| <= |s| && r == s[..|r|]
    ensures r == [] || !IsSpace(r[|r| - 1])
    ensures forall k :: |r| <= k < |s| ==> IsSpace(s[k])
  {
    if s != [] && IsSpace(s[|s| - 1]) then TrimEnd(s[..|s| - 1]) else s
  }

  /** `trim()`: the string between its leading and its trailing white space. */
  function Trim(s: string): (r: string)
    ensures Trimmed(r)
    ensures SpaceRun(s) + |r| <= |s| && r == s[SpaceRun(s)..SpaceRun(s) + |r|]
    ensures forall k :: 0 <= k < |s| && !(SpaceRun(s) <= k < SpaceRun(s) + |r|) ==> IsSpace(s[k])
  {
    TrimEnd(s[SpaceRun(s)..])
  }

  /** Trimming removes white space only. */
  lemma TrimNonSpace(s: string)
    ensures NonSpace(Trim(s)) == NonSpace(s)
  {
    var n, r := SpaceRun(s), Trim(s);
    assert s == s[..n] + r + s[n + |r|..];
    NonSpaceAppend(s[..n] + r, s[n + |r|..]);
    NonSpaceAppend(s[..n], r);
    NonSpaceAllSpace(s[..n]);
    NonSpaceAllSpace(s[n + |r|..]);
  }

  /** `normalizeCode`: line comments, then block comments are removed, white
      space is collapsed and dropped around operators, letters are lowered and
      the ends are trimmed. */
  function NormalizeCode(code: string): string {
    Trim(Lower(StripOpSpaces(CollapseSpaces(StripBlockComments(StripLineComments(code))))))
  }

  /** The shape of every normalised string: lower case, single plain spaces, no
      space next to an operator and none at either end. */
  predicate NormalForm(s: string) {
    NoUpper(s) && SingleSpaced(s) && OpsUnspaced(s) && Trimmed(s)
  }

  /** Lower-casing neither makes nor unmakes an operator; and a plain space stays one. */
  lemma LowerCharKeepsOp(c: char)
    ensures IsOp(LowerChar(c)) == IsOp(c)
    ensures IsSpace(LowerChar(c)) == IsSpace(c)
    ensures c == ' ' ==> LowerChar(c) == ' '
  {
    LowerCharKeepsSpace(c);
  }

  /** Lower-casing keeps the spacing shape. */
  lemma LowerKeepsShape(s: string)
    ensures SingleSpaced(s) ==> SingleSpaced(Lower(s))
    ensures OpsUnspaced(s) ==> OpsUnspaced(Lower(s))
  {
    forall k | 0 <= k < |s| {
      LowerCharKeepsOp(s[k]);
    }
  }

  /** Lower-casing commutes with dropping white space. */
  lemma {:induction false} NonSpaceLower(s: string)
    ensures NonSpace(Lower(s)) == Lower(NonSpace(s))
  {
    if s != [] {
      NonSpaceLower(s[1..]);
      LowerCharKeepsOp(s[0]);
      assert Lower(s) == [LowerChar(s[0])] + Lower(s[1..]);
    }
  }

  /** A slice keeps the pointwise shape properties. */
  lemma SliceKeepsShape(s: string, i: nat, j: nat)
    requires i <= j <= |s|
    ensures NoUpper(s) ==> NoUpper(s[i..j])
    ensures SingleSpaced(s) ==> SingleSpaced(s[i..j])
    ensures OpsUnspaced(s) ==> OpsUnspaced(s[i..j])
  {
  }

  /** Every normalised string is in normal form, and normalisation keeps the
      non-space characters the comment passes leave, lowered. */
  lemma NormalizeCodeForm(code: string)
    ensures NormalForm(NormalizeCode(code))
    ensures NonSpace(NormalizeCode(code)) == Lower(NonSpace(StripBlockComments(StripLineComments(code))))
  {
    var c := StripBlockComments(StripLineComments(code));
    var w := CollapseSpaces(c);
    var o := StripOpSpaces(w);
    StripOpSpacesUnspaced(w);
    StripOpSpacesSingle(w);
    StripOpSpacesNonSpace(w);
    var l := Lower(o);
    LowerKeepsShape(o);
    NonSpaceLower(o);
    TrimForm(l);
    TrimNonSpace(l);
  }

  /** Trimming lower-case, single-spaced text with unspaced operators gives
      the normal form. */
  lemma TrimForm(l: string)
    requires NoUpper(l) && SingleSpaced(l) && OpsUnspaced(l)
    ensures NormalForm(Trim(l))
  {
    var r, n := Trim(l), SpaceRun(l);
    SliceKeepsShape(l, n, n + |r|);
  }

  /** Collapsing leaves single-spaced text alone. */
  lemma {:induction false} CollapseSpacesFixes(s: string)
    requires SingleSpaced(s)
    ensures CollapseSpaces(s) == s
    decreases |s|
  {
    if s != [] {
      assert SingleSpaced(s[1..]);
      CollapseSpacesFixes(s[1..]);
      if IsSpace(s[0]) {
        assert SpaceRun(s) == 1;
      }
    }
  }

  /** The operator pass leaves text alone that has no space beside an operator
      and no two spaces in a row. */
  lemma {:induction false} StripOpSpacesFixes(s: string)
    requires SingleSpaced(s) && OpsUnspaced(s)
    ensures StripOpSpaces(s) == s
    decreases |s|
  {
    if s != [] {
      assert SingleSpaced(s[1..]) && OpsUnspaced(s[1..]);
      StripOpSpacesFixes(s[1..]);
      if IsSpace(s[0]) {
        assert SpaceRun(s) == 1;
      } else if IsOp(s[0]) {
        assert SpaceRun(s[1..]) == 0;
        assert s[1..][0..] == s[1..];
        assert AfterOp(s) == s[1..];
      }
    }
  }

  /** Lower-casing leaves text without upper-case letters alone. */
  lemma LowerFixes(s: string)
    requires NoUpper(s)
    ensures Lower(s) == s
  {
  }

  /** Normal-form text with no comment openers is its own normalisation. */
  lemma NormalizeCodeFixes(s: string)
    requires NormalForm(s) && NoPair(s, '/', '/') && NoPair(s, '/', '*')
    ensures NormalizeCode(s) == s
  {
    CollapseSpacesFixes(s);
    StripOpSpacesFixes(s);
    LowerFixes(s);
    assert SpaceRun(s) == 0;
  }

  /** The operator pass keeps a character that is neither space nor operator. */
  lemma StripOpSpacesPlain(c: char, t: string)
    requires !IsSpace(c) && !IsOp(c)
    ensures StripOpSpaces([c] + t) == [c] + StripOpSpaces(t)
  {
    assert ([c] + t)[1..] == t;
  }

  /** The white-space run at the front of a string that starts with a plain space. */
  lemma {:induction false} SpaceRunSpace(t: string)
    requires t == [] || !IsSpace(t[0])
    ensures SpaceRun(t) == 0
    ensures SpaceRun([' '] + t) == 1
  {
    assert ([' '] + t)[1..] == t;
  }

  /** One step of the operator pass at an operator that `n` spaces precede. */
  lemma StripOpSpacesAt(s: string)
    requires OpAhead(s)
    ensures StripOpSpaces(s) == [s[SpaceRun(s)]] + StripOpSpaces(AfterOp(s))
  {
  }

  /** No operator character is white space. */
  lemma OpNotSpace(c: char)
    requires IsOp(c)
    ensures !IsSpace(c)
  {
  }

  /** The operator pass keeps an operator that no white space follows. */
  lemma StripOpSpacesOp(c: char, t: string)
    requires IsOp(c) && (t == [] || !IsSpace(t[0]))
    ensures StripOpSpaces([c] + t) == [c] + StripOpSpaces(t)
  {
    OpNotSpace(c);
    SpaceRunSpace(t);
    var s1 := [c] + t;
    assert SpaceRun(s1) == 0;
    assert AfterOp(s1) == t by {
      assert s1[1..] == t && t[0..] == t;
    }
    StripOpSpacesAt(s1);
  }

  /** The operator pass keeps an operator and drops the spaces around it. */
  lemma StripOpSpacesSpacedOp(c: char, t: string)
    requires IsOp(c) && (t == [] || !IsSpace(t[0]))
    ensures StripOpSpaces([' ', c, ' '] + t) == [c] + StripOpSpaces(t)
  {
    OpNotSpace(c);
    var s3 := [' ', c, ' '] + t;
    var s2 := [c, ' '] + t;
    assert s3 == [' '] + s2 && s2[0] == c;
    SpaceRunSpace(s2);
    assert AfterOp(s3) == t by {
      SpaceRunSpace(t);
      assert s3[2..] == [' '] + t && s3[2..][1..] == t;
    }
    StripOpSpacesAt(s3);
  }

  // White space between two words survives normalisation: each pass
  // distributes over the break, which ends up as exactly one space.

  /** A character that is neither white space nor an operator. */
  predicate IsWordChar(c: char) {
    !IsSpace(c) && !IsOp(c)
  }

  /** A non-empty string whose last character is a word character. */
  predicate EndsInWord(a: string) {
    a != [] && IsWordChar(a[|a| - 1])
  }

  /** A non-empty string whose first character is a word character. */
  predicate StartsInWord(a: string) {
    a != [] && IsWordChar(a[0])
  }

  /** Dropping a prefix of the left part of a concatenation. */
  lemma DropAppend(x: string, t: string, n: nat)
    requires n <= |x|
    ensures (x + t)[n..] == x[n..] + t
  {
  }

  /** The leading white-space run is unchanged by what follows, unless it
      reaches the end of `x` and `t` continues it. */
  lemma {:induction false} SpaceRunAppend(x: string, t: string)
    requires SpaceRun(x) < |x| || t == [] || !IsSpace(t[0])
    ensures SpaceRun(x + t) == SpaceRun(x)
    decreases |x|
  {
    if x == [] {
      assert x + t == t;
    } else if IsSpace(x[0]) {
      DropAppend(x, t, 1);
      SpaceRunAppend(x[1..], t);
    } else {
      assert (x + t)[0] == x[0];
    }
  }

  /** The last character of a concatenation with a non-empty right part. */
  lemma LastAppend(x: string, y: string)
    requires y != []
    ensures (x + y)[|x + y| - 1] == y[|y| - 1]
  {
  }

  /** Concatenation is associative. */
  lemma AppendAssoc(x: string, y: string, z: string)
    ensures x + (y + z) == (x + y) + z
  {
  }

  /** `x + t` splits no run of white space. */
  predicate NoSplitRun(x: string, t: string) {
    x == [] || t == [] || !IsSpace(x[|x| - 1]) || !IsSpace(t[0])
  }

  /** One step of collapsing a concatenation that splits no run of white
      space: the head collapses as in `x` alone, and the rest still splits none. */
  lemma CollapseSpacesAppendStep(x: string, t: string) returns (head: string, rest: string)
    requires x != [] && NoSplitRun(x, t)
    ensures CollapseSpaces(x) == head + CollapseSpaces(rest)
    ensures CollapseSpaces(x + t) == head + CollapseSpaces(rest + t)
    ensures |rest| < |x| && NoSplitRun(rest, t)
  {
    if IsSpace(x[0]) {
      CollapseSpaceStep(x, t);
      head, rest := [' '], x[SpaceRun(x)..];
    } else {
      CollapseWordStep(x, t);
      head, rest := [x[0]], x[1..];
    }
  }

  /** The step at white space: the whole run becomes one space. */
  lemma CollapseSpaceStep(x: string, t: string)
    requires x != [] && NoSplitRun(x, t) && IsSpace(x[0])
    ensures CollapseSpaces(x + t) == [' '] + CollapseSpaces(x[SpaceRun(x)..] + t)
    ensures NoSplitRun(x[SpaceRun(x)..], t)
  {
    var n := SpaceRun(x);
    SpaceRunAppend(x, t);
    DropAppend(x, t, n);
    if n < |x| {
      assert x[n..][|x| - n - 1] == x[|x| - 1];
    }
  }

  /** The step at any other character: it is kept. */
  lemma CollapseWordStep(x: string, t: string)
    requires x != [] && NoSplitRun(x, t) && !IsSpace(x[0])
    ensures CollapseSpaces(x + t) == [x[0]] + CollapseSpaces(x[1..] + t)
    ensures NoSplitRun(x[1..], t)
  {
    DropAppend(x, t, 1);
    if |x| > 1 {
      assert x[1..][|x| - 2] == x[|x| - 1];
    }
  }

  /** Collapsing distributes over a concatenation that splits no run of white space. */
  lemma {:induction false} CollapseSpacesAppend(x: string, t: string)
    requires NoSplitRun(x, t)
    ensures CollapseSpaces(x + t) == CollapseSpaces(x) + CollapseSpaces(t)
    decreases |x|
  {
    if x == [] {
      assert x + t == t;
    } else {
      var head, rest := CollapseSpacesAppendStep(x, t);
      CollapseSpacesAppend(rest, t);
      AppendAssoc(head, CollapseSpaces(rest), CollapseSpaces(t));
    }
  }

  /** A non-empty run of white space before a non-space character collapses
      to one space. */
  lemma CollapseSpacesRun(w: string, y: string)
    requires w != [] && forall k :: 0 <= k < |w| ==> IsSpace(w[k])
    requires y != [] && !IsSpace(y[0])
    ensures CollapseSpaces(w + y) == [' '] + CollapseSpaces(y)
  {
    SpaceRunAppend(w, y);
    DropAppend(w, y, |w|);
    assert w[|w|..] + y == y;
  }

  /** A non-empty run of white space between two words collapses to one space. */
  lemma CollapseSpacesJoin(x: string, w: string, y: string)
    requires x != [] && !IsSpace(x[|x| - 1])
    requires w != [] && forall k :: 0 <= k < |w| ==> IsSpace(w[k])
    requires y != [] && !IsSpace(y[0])
    ensures CollapseSpaces(x + w + y) == CollapseSpaces(x) + [' '] + CollapseSpaces(y)
  {
    AppendAssoc(x, w, y);
    CollapseSpacesAppend(x, w + y);
    CollapseSpacesRun(w, y);
    AppendAssoc(CollapseSpaces(x), [' '], CollapseSpaces(y));
  }

  /** What follows the operator that a string ending in a word character
      starts with (after white space) still ends in that character. */
  lemma AfterOpLast(a: string)
    requires OpAhead(a) && EndsInWord(a)
    ensures AfterOp(a) != [] && AfterOp(a)[|AfterOp(a)| - 1] == a[|a| - 1]
    ensures EndsInWord(AfterOp(a))
  {
    var rest := a[SpaceRun(a) + 1..];
    assert rest != [] && rest[|rest| - 1] == a[|a| - 1];
  }

  /** The operator pass at an operator, in front of any continuation. */
  lemma AfterOpAppend(a: string, t: string)
    requires OpAhead(a) && EndsInWord(a)
    ensures OpAhead(a + t) && SpaceRun(a + t) == SpaceRun(a)
    ensures AfterOp(a + t) == AfterOp(a) + t
  {
    var n := SpaceRun(a);
    SpaceRunAppend(a, t);
    assert (a + t)[n] == a[n];
    var rest := a[n + 1..];
    DropAppend(a, t, n + 1);
    assert rest != [] && rest[|rest| - 1] == a[|a| - 1];
    var m := SpaceRun(rest);
    SpaceRunAppend(rest, t);
    DropAppend(rest, t, m);
  }

  /** One step of the operator pass over a concatenation whose left part ends
      in a word character: the head is kept as in `a` alone, and the rest
      still ends in that character or is empty. */
  lemma StripOpSpacesAppendStep(a: string, t: string) returns (head: string, rest: string)
    requires EndsInWord(a)
    ensures StripOpSpaces(a) == head + StripOpSpaces(rest)
    ensures StripOpSpaces(a + t) == head + StripOpSpaces(rest + t)
    ensures |rest| < |a| && (rest == [] || EndsInWord(rest))
  {
    if OpAhead(a) {
      AppendOpStep(a, t);
      head, rest := [a[SpaceRun(a)]], AfterOp(a);
    } else {
      AppendPlainStep(a, t);
      head, rest := [a[0]], a[1..];
    }
  }

  /** The step at an operator. */
  lemma AppendOpStep(a: string, t: string)
    requires EndsInWord(a) && OpAhead(a)
    ensures StripOpSpaces(a) == [a[SpaceRun(a)]] + StripOpSpaces(AfterOp(a))
    ensures StripOpSpaces(a + t) == [a[SpaceRun(a)]] + StripOpSpaces(AfterOp(a) + t)
    ensures |AfterOp(a)| < |a| && EndsInWord(AfterOp(a))
  {
    var n := SpaceRun(a);
    AfterOpLast(a);
    AfterOpAppend(a, t);
    assert (a + t)[n] == a[n];
    StripOpSpacesAt(a);
    StripOpSpacesAt(a + t);
  }

  /** The step at any other character. */
  lemma AppendPlainStep(a: string, t: string)
    requires EndsInWord(a) && !OpAhead(a)
    ensures StripOpSpaces(a) == [a[0]] + StripOpSpaces(a[1..])
    ensures StripOpSpaces(a + t) == [a[0]] + StripOpSpaces(a[1..] + t)
    ensures a[1..] == [] || EndsInWord(a[1..])
  {
    var n := SpaceRun(a);
    SpaceRunAppend(a, t);
    assert (a + t)[n] == a[n];
    StripOpSpacesSkip(a);
    StripOpSpacesSkip(a + t);
    DropAppend(a, t, 1);
  }

  /** The operator pass distributes over a concatenation whose left part ends
      in a character that is neither white space nor an operator. */
  lemma {:induction false} StripOpSpacesAppend(a: string, t: string)
    requires a == [] || EndsInWord(a)
    ensures StripOpSpaces(a + t) == StripOpSpaces(a) + StripOpSpaces(t)
    decreases |a|
  {
    if a == [] {
      assert a + t == t;
    } else {
      var head, rest := StripOpSpacesAppendStep(a, t);
      StripOpSpacesAppend(rest, t);
      AppendAssoc(head, StripOpSpaces(rest), StripOpSpaces(t));
    }
  }

  /** The operator pass keeps a last character that is neither white space
      nor an operator. */
  lemma {:induction false} StripOpSpacesLast(s: string)
    requires EndsInWord(s)
    ensures StripOpSpaces(s) != [] && StripOpSpaces(s)[|StripOpSpaces(s)| - 1] == s[|s| - 1]
    decreases |s|
  {
    var head, rest: string;
    if OpAhead(s) {
      StripOpSpacesAt(s);
      AfterOpLast(s);
      head, rest := [s[SpaceRun(s)]], AfterOp(s);
    } else {
      StripOpSpacesSkip(s);
      head, rest := [s[0]], s[1..];
      if |s| > 1 {
        EndsInWordTail(s);
      }
    }
    var sp, tl := StripOpSpaces(s), StripOpSpaces(rest);
    assert sp == head + tl;
    if rest == [] {
      assert tl == [] && head == [s[|s| - 1]];
    } else {
      StripOpSpacesLast(rest);
      assert tl[|tl| - 1] == s[|s| - 1];
      LastAppend(head, tl);
    }
  }

  /** Dropping the first character keeps a word character at the end. */
  lemma EndsInWordTail(s: string)
    requires EndsInWord(s) && |s| > 1
    ensures EndsInWord(s[1..]) && s[1..][|s| - 2] == s[|s| - 1]
  {
  }

  /** The operator pass keeps one space between two word characters. */
  lemma StripOpSpacesJoin(p: string, q: string)
    requires EndsInWord(p) && StartsInWord(q)
    ensures StripOpSpaces(p + [' '] + q) == StripOpSpaces(p) + [' '] + StripOpSpaces(q)
  {
    assert p + [' '] + q == p + ([' '] + q);
    StripOpSpacesAppend(p, [' '] + q);
    SpaceRunSpace(q);
    StripOpSpacesSkip([' '] + q);
    assert ([' '] + q)[1..] == q;
  }

  /** Trailing white space is all that `TrimEnd` removes, so a prefix stays. */
  lemma {:induction false} TrimEndAppend(x: string, y: string)
    requires y != [] && !IsSpace(y[0])
    ensures TrimEnd(x + y) == x + TrimEnd(y)
    decreases |y|
  {
    if IsSpace(y[|y| - 1]) {
      var init := y[..|y| - 1];
      assert (x + y)[..|x + y| - 1] == x + init;
      TrimEndAppend(x, init);
    }
  }

  /** Trimming leaves a space between two words alone. */
  lemma TrimJoin(l1: string, l2: string)
    requires l1 != [] && !IsSpace(l1[|l1| - 1])
    requires l2 != [] && !IsSpace(l2[0])
    ensures Trim(l1 + [' '] + l2) == Trim(l1) + [' '] + Trim(l2)
  {
    var n := SpaceRun(l1);
    assert l1 + [' '] + l2 == l1 + ([' '] + l2);
    SpaceRunAppend(l1, [' '] + l2);
    assert (l1 + ([' '] + l2))[n..] == (l1[n..] + [' ']) + l2;
    TrimEndAppend(l1[n..] + [' '], l2);
    assert SpaceRun(l2) == 0 && l2[0..] == l2;
  }

  /** A slice of text with no such pair has none either. */
  lemma NoPairSlice(s: string, i: nat, j: nat, x: char, y: char)
    requires i <= j <= |s| && NoPair(s, x, y)
    ensures NoPair(s[i..j], x, y)
  {
    forall k | 0 <= k < j - i - 1 ensures !(s[i..j][k] == x && s[i..j][k + 1] == y) {
      assert s[i..j][k] == s[i + k] && s[i..j][k + 1] == s[i + k + 1];
    }
  }

  /** Text without comment openers passes the comment passes unchanged. */
  lemma NormalizeCodeCommentFree(s: string)
    requires NoPair(s, '/', '/') && NoPair(s, '/', '*')
    ensures NormalizeCode(s) == Trim(Lower(StripOpSpaces(CollapseSpaces(s))))
  {
    assert StripLineComments(s) == s;
  }

  /** Collapsing keeps a word character at the end. */
  lemma CollapseEndsInWord(a: string, c: char)
    requires IsWordChar(c)
    ensures CollapseSpaces(a + [c]) == CollapseSpaces(a) + [c]
    ensures EndsInWord(CollapseSpaces(a + [c]))
  {
    CollapseSpacesAppend(a, [c]);
    assert CollapseSpaces([c]) == [c];
    LastAppend(CollapseSpaces(a), [c]);
  }

  /** Collapsing keeps a word character at the start. */
  lemma CollapseStartsInWord(d: char, b: string)
    requires IsWordChar(d)
    ensures CollapseSpaces([d] + b) == [d] + CollapseSpaces(b)
    ensures StartsInWord(CollapseSpaces([d] + b))
  {
    DropAppend([d], b, 1);
  }

  /** Collapsing keeps a word break as one space between the two sides. */
  lemma CollapseWordBreak(a: string, c: char, w: string, d: char, b: string)
    requires IsWordChar(c) && IsWordChar(d)
    requires w != [] && forall k :: 0 <= k < |w| ==> IsSpace(w[k])
    ensures CollapseSpaces(a + [c] + w + [d] + b) == CollapseSpaces(a + [c]) + [' '] + CollapseSpaces([d] + b)
    ensures EndsInWord(CollapseSpaces(a + [c])) && StartsInWord(CollapseSpaces([d] + b))
  {
    var x, y := a + [c], [d] + b;
    AppendAssoc(x + w, [d], b);
    CollapseEndsInWord(a, c);
    CollapseStartsInWord(d, b);
    assert x[|x| - 1] == c && y[0] == d;
    CollapseSpacesJoin(x, w, y);
  }

  /** Lower-casing keeps a plain space between two parts. */
  lemma LowerJoin(x: string, y: string)
    ensures Lower(x + [' '] + y) == Lower(x) + [' '] + Lower(y)
  {
    LowerCharKeepsOp(' ');
    assert forall k :: 0 <= k < |x + [' '] + y| ==> Lower(x + [' '] + y)[k] == (Lower(x) + [' '] + Lower(y))[k];
  }

  /** The operator pass, lower-casing and trimming keep one space between two
      word characters. */
  lemma PassesKeepWordBreak(p: string, q: string)
    requires EndsInWord(p) && StartsInWord(q)
    ensures Trim(Lower(StripOpSpaces(p + [' '] + q)))
      == Trim(Lower(StripOpSpaces(p))) + [' '] + Trim(Lower(StripOpSpaces(q)))
  {
    StripOpSpacesJoin(p, q);
    var sp, sq := StripOpSpaces(p), StripOpSpaces(q);
    StripOpSpacesLast(p);
    StripOpSpacesHead(q);
    LowerJoin(sp, sq);
    LowerCharKeepsOp(p[|p| - 1]);
    LowerCharKeepsOp(q[0]);
    TrimJoin(Lower(sp), Lower(sq));
  }

  /** With no comment opener in the whole text, the comment passes change
      neither the text nor the two sides of a break. */
  lemma CommentFreeSides(x: string, w: string, y: string)
    requires NoPair(x + w + y, '/', '/') && NoPair(x + w + y, '/', '*')
    ensures NormalizeCode(x + w + y) == Trim(Lower(StripOpSpaces(CollapseSpaces(x + w + y))))
    ensures NormalizeCode(x) == Trim(Lower(StripOpSpaces(CollapseSpaces(x))))
    ensures NormalizeCode(y) == Trim(Lower(StripOpSpaces(CollapseSpaces(y))))
  {
    var s := x + w + y;
    assert x == s[..|x|] && y == s[|x| + |w|..];
    NoPairSlice(s, 0, |x|, '/', '/');
    NoPairSlice(s, 0, |x|, '/', '*');
    NoPairSlice(s, |x| + |w|, |s|, '/', '/');
    NoPairSlice(s, |x| + |w|, |s|, '/', '*');
    NormalizeCodeCommentFree(s);
    NormalizeCodeCommentFree(x);
    NormalizeCodeCommentFree(y);
  }

  /** White space between two word characters (neither white space nor an
      operator) survives normalisation as exactly one space: the text on each
      side normalises on its own. */
  lemma NormalizeCodeKeepsWordBreak(a: string, c: char, w: string, d: char, b: string)
    requires IsWordChar(c) && IsWordChar(d)
    requires w != [] && forall k :: 0 <= k < |w| ==> IsSpace(w[k])
    requires NoPair(a + [c] + w + [d] + b, '/', '/') && NoPair(a + [c] + w + [d] + b, '/', '*')
    ensures NormalizeCode(a + [c] + w + [d] + b) == NormalizeCode(a + [c]) + [' '] + NormalizeCode([d] + b)
  {
    AppendAssoc(a + [c] + w, [d], b);
    CommentFreeSides(a + [c], w, [d] + b);
    CollapseWordBreak(a, c, w, d, b);
    PassesKeepWordBreak(CollapseSpaces(a + [c]), CollapseSpaces([d] + b));
  }

  /** The two examples below, built up from the right. */
  lemma SlashesShape(x: char, y: char)
    ensures [x, ' ', '/', ' ', '/', y] == [x] + ([' ', '/', ' '] + (['/'] + [y]))
    ensures [x] + (['/'] + (['/'] + [y])) == [x, '/', '/', y]
    ensures [y] + [] == [y]
  {
  }

  /** The operator pass joins two operators that only spaces separate. */
  lemma {:induction false} StripOpSpacesExample(x: char, y: char)
    requires !IsSpace(x) && !IsOp(x) && !IsSpace(y) && !IsOp(y)
    ensures StripOpSpaces([x, ' ', '/', ' ', '/', y]) == [x, '/', '/', y]
  {
    SlashesShape(x, y);
    var ty := [y];
    var t1 := ['/'] + ty;
    var t2 := [' ', '/', ' '] + t1;
    StripOpSpacesPlain(y, []);
    assert StripOpSpaces(ty) == ty;
    StripOpSpacesOp('/', ty);
    assert StripOpSpaces(t1) == t1;
    StripOpSpacesSpacedOp('/', t1);
    assert StripOpSpaces(t2) == ['/'] + t1;
    StripOpSpacesPlain(x, t2);
  }

  /** The line-comment pass on the joined example below. */
  lemma StripLineCommentsExample(x: char, y: char)
    requires x != '/' && !IsLineTerminator(y)
    ensures StripLineComments([x, '/', '/', y]) == [x]
  {
    var s := [x, '/', '/', y];
    assert s[1..] == ['/', '/', y] && StartsWith(s[1..], "//");
    assert LineLength(s[1..]) == 3;
  }

  /** The spaced example has no comment opener and is single-spaced. */
  lemma {:induction false} SpacedSlashesShape(x: char, y: char)
    requires 'a' <= x <= 'z' && 'a' <= y <= 'z'
    ensures NoPair([x, ' ', '/', ' ', '/', y], '/', '/')
    ensures NoPair([x, ' ', '/', ' ', '/', y], '/', '*')
    ensures SingleSpaced([x, ' ', '/', ' ', '/', y])
  {
    var s := [x, ' ', '/', ' ', '/', y];
    forall k | 0 <= k < |s| - 1 ensures s[k] == '/' ==> s[k + 1] != '/' && s[k + 1] != '*' {
    }
    forall k | 0 <= k < |s| && IsSpace(s[k]) ensures s[k] == ' ' && (k + 1 < |s| ==> !IsSpace(s[k + 1])) {
      assert k == 1 || k == 3;
    }
  }

  /** Lower-casing and trimming leave the joined example alone. */
  lemma {:induction false} JoinedSlashesFixed(x: char, y: char)
    requires 'a' <= x <= 'z' && 'a' <= y <= 'z'
    ensures Trim(Lower([x, '/', '/', y])) == [x, '/', '/', y]
  {
    var t := [x, '/', '/', y];
    LowerFixes(t);
    assert SpaceRun(t) == 0;
    assert t[0..] == t;
    assert TrimEnd(t) == t;
  }

  /** Normalising two slashes with spaces between them joins them. */
  lemma {:induction false} NormalizeCodeSpacedSlashes(x: char, y: char)
    requires 'a' <= x <= 'z' && 'a' <= y <= 'z'
    ensures NormalizeCode([x, ' ', '/', ' ', '/', y]) == [x, '/', '/', y]
  {
    var s := [x, ' ', '/', ' ', '/', y];
    SpacedSlashesShape(x, y);
    assert StripBlockComments(StripLineComments(s)) == s;
    CollapseSpacesFixes(s);
    StripOpSpacesExample(x, y);
    JoinedSlashesFixed(x, y);
  }

  /** Normalising two joined slashes drops them and the rest of the line. */
  lemma NormalizeCodeJoinedSlashes(x: char, y: char)
    requires 'a' <= x <= 'z' && 'a' <= y <= 'z'
    ensures NormalizeCode([x, '/', '/', y]) == [x]
  {
    StripLineCommentsExample(x, y);
    assert NoPair([x], '/', '*') && SingleSpaced([x]);
    CollapseSpacesFixes([x]);
    StripOpSpacesPlain(x, []);
    LowerFixes([x]);
    assert SpaceRun([x]) == 0;
  }

  /** Normalisation is not idempotent: removing the spaces around two slashes
      can make a line comment, which the next normalisation removes; so
      `normalizeCode(normalizeCode("a / /b"))` is `"a"`, not `"a//b"`. */
  lemma NormalizeCodeNotIdempotent(x: char, y: char)
    requires 'a' <= x <= 'z' && 'a' <= y <= 'z'
    ensures NormalizeCode(NormalizeCode([x, ' ', '/', ' ', '/', y])) == [x]
    ensures NormalizeCode([x, ' ', '/', ' ', '/', y]) != [x]
  {
    NormalizeCodeSpacedSlashes(x, y);
    NormalizeCodeJoinedSlashes(x, y);
  }

  // ---------------------------------------------------------------------------
  // Tokens
  // ---------------------------------------------------------------------------

  predicate IsDigit(c: char) {
    '0' <= c <= '9'
  }

  /** A character that can start an identifier: `[a-z_]` under the `i` flag. */
  predicate IsIdentStart(c: char) {
    'a' <= c <= 'z' || 'A' <= c <= 'Z' || c == '_'
  }

  /** A character that can continue an identifier: `[a-z0-9_]` under the `i` flag. */
  predicate IsIdentPart(c: char) {
    IsIdentStart(c) || IsDigit(c)
  }

  /** A character that belongs to some token. */
  predicate IsTokenChar(c: char) {
    IsIdentPart(c) || IsOp(c)
  }

  /** The number of identifier characters `s` starts with. */
  function IdentRun(s: string): (n: nat)
    ensures n <= |s|
    ensures forall k :: 0 <= k < n ==> IsIdentPart(s[k])
    ensures n < |s| ==> !IsIdentPart(s[n])
  {
    if s != [] && IsIdentPart(s[0]) then 1 + IdentRun(s[1..]) else 0
  }

  /** The number of digits `s` starts with. */
  function DigitRun(s: string): (n: nat)
    ensures n <= |s|
    ensures forall k :: 0 <= k < n ==> IsDigit(s[k])
    ensures n < |s| ==> !IsDigit(s[n])
  {
    if s != [] && IsDigit(s[0]) then 1 + DigitRun(s[1..]) else 0
  }

  /** A token the source's pattern produces: an identifier, a run of digits, or one operator. */
  predicate IsToken(t: string) {
    && t != []
    && ((IsIdentStart(t[0]) && forall k :: 0 <= k < |t| ==> IsIdentPart(t[k]))
        || (forall k :: 0 <= k < |t| ==> IsDigit(t[k]))
        || (|t| == 1 && IsOp(t[0])))
  }

  /** The global match of the token pattern: at each position the identifier
      alternative is tried first, then the digit run, then one operator; a
      character none of them matches is skipped. */
  function Tokenize(s: string): (r: seq<string>)
    ensures forall k :: 0 <= k < |r| ==> IsToken(r[k])
    decreases |s|
  {
    if s == [] then []
    else if IsIdentStart(s[0]) then
      var n := 1 + IdentRun(s[1..]);
      [s[..n]] + Tokenize(s[n..])
    else if IsDigit(s[0]) then
      var n := 1 + DigitRun(s[1..]);
      [s[..n]] + Tokenize(s[n..])
    else if IsOp(s[0]) then [[s[0]]] + Tokenize(s[1..])
    else Tokenize(s[1..])
  }

  /** The tokens laid end to end. */
  function Concat(ts: seq<string>): string {
    if ts == [] then [] else ts[0] + Concat(ts[1..])
  }

  /** The characters of `s` that belong to some token, in order. */
  function TokenChars(s: string): (r: string)
    ensures |r| <= |s|
  {
    if s == [] then [] else (if IsTokenChar(s[0]) then [s[0]] else []) + TokenChars(s[1..])
  }

  lemma {:induction false} TokenCharsAppend(a: string, b: string)
    ensures TokenChars(a + b) == TokenChars(a) + TokenChars(b)
  {
    if a == [] {
      assert a + b == b;
    } else {
      var head := if IsTokenChar(a[0]) then [a[0]] else [];
      calc {
        TokenChars(a + b);
        { assert (a + b)[0] == a[0]; assert (a + b)[1..] == a[1..] + b; }
        head + TokenChars(a[1..] + b);
        { TokenCharsAppend(a[1..], b); }
        head + (TokenChars(a[1..]) + TokenChars(b));
        TokenChars(a) + TokenChars(b);
      }
    }
  }

  lemma {:induction false} TokenCharsAll(s: string)
    requires forall k :: 0 <= k < |s| ==> IsTokenChar(s[k])
    ensures TokenChars(s) == s
  {
    if s != [] {
      TokenCharsAll(s[1..]);
    }
  }

  /** Tokenising loses exactly the characters that belong to no token: the
      tokens laid end to end are the token characters of the input. */
  lemma {:induction false} TokenizeKeepsTokenChars(s: string)
    ensures Concat(Tokenize(s)) == TokenChars(s)
    decreases |s|
  {
    if s != [] {
      var n := StepLength(s);
      var head := if IsTokenChar(s[0]) then [s[..n]] else [];
      TokenizeStep(s);
      TokenizeKeepsTokenChars(s[n..]);
      ConcatAppend(head, Tokenize(s[n..]));
      assert s == s[..n] + s[n..];
      TokenCharsAppend(s[..n], s[n..]);
      StepChars(s);
    }
  }

  /** The characters one step of the match passes over contribute exactly the
      token found there, or nothing. */
  lemma StepChars(s: string)
    requires s != []
    ensures TokenChars(s[..StepLength(s)]) == Concat(if IsTokenChar(s[0]) then [s[..StepLength(s)]] else [])
  {
    var n := StepLength(s);
    if IsTokenChar(s[0]) {
      TokenCharsAll(s[..n]);
      assert Concat([s[..n]]) == s[..n] + Concat([]);
    } else {
      assert s[..n] == [s[0]] && [s[0]][1..] == [];
    }
  }

  lemma ConcatAppend(a: seq<string>, b: seq<string>)
    requires |a| <= 1
    ensures Concat(a + b) == Concat(a) + Concat(b)
  {
    if a != [] {
      assert (a + b)[1..] == b && a[1..] == [];
    } else {
      assert a + b == b;
    }
  }

  /** Token `t` is matched at offset `p` of `s` and extends as far as its
      alternative allows: an identifier is not followed by an identifier
      character, and a digit run is not followed by a digit. */
  predicate MatchedAt(s: string, t: string, p: nat) {
    && t != []
    && p + |t| <= |s|
    && s[p..p + |t|] == t
    && (IsIdentStart(t[0]) && p + |t| < |s| ==> !IsIdentPart(s[p + |t|]))
    && (IsDigit(t[0]) && p + |t| < |s| ==> !IsDigit(s[p + |t|]))
  }

  /** Each token is a longest match at its offset, and the offsets run
      forward without overlap. */
  predicate LongestMatches(s: string, tokens: seq<string>, offsets: seq<nat>) {
    && |offsets| == |tokens|
    && (forall k :: 0 <= k < |tokens| ==> MatchedAt(s, tokens[k], offsets[k]))
    && (forall i, j :: 0 <= i < j < |tokens| ==> offsets[i] + |tokens[i]| <= offsets[j])
  }

  /** How far the global match moves on from the start of `s`: the length
      of the token found there, or one character skipped. */
  function StepLength(s: string): (n: nat)
    requires s != []
    ensures 1 <= n <= |s|
  {
    if IsIdentStart(s[0]) then 1 + IdentRun(s[1..])
    else if IsDigit(s[0]) then 1 + DigitRun(s[1..])
    else 1
  }

  /** The offsets at which the global match finds its tokens. */
  function TokenOffsets(s: string): seq<nat>
    decreases |s|
  {
    if s == [] then []
    else (if IsTokenChar(s[0]) then [0] else []) + Shift(TokenOffsets(s[StepLength(s)..]), StepLength(s))
  }

  function Shift(offsets: seq<nat>, n: nat): (r: seq<nat>)
    ensures |r| == |offsets| && forall k :: 0 <= k < |r| ==> r[k] == offsets[k] + n
  {
    seq(|offsets|, k requires 0 <= k < |offsets| => offsets[k] + n)
  }

  /** One step of the global match, for tokens and offsets alike. */
  lemma TokenizeStep(s: string)
    requires s != []
    ensures Tokenize(s) == (if IsTokenChar(s[0]) then [s[..StepLength(s)]] else []) + Tokenize(s[StepLength(s)..])
  {
    if !IsIdentPart(s[0]) {
      if IsOp(s[0]) {
        assert s[..1] == [s[0]];
      } else {
        assert [] + Tokenize(s[1..]) == Tokenize(s[1..]);
      }
    }
  }

  /** The regular expression is greedy: every identifier and digit token is
      as long as the text allows, so `"ab"` is the single token `"ab"`. */
  lemma {:induction false} TokenizeLongest(s: string)
    ensures LongestMatches(s, Tokenize(s), TokenOffsets(s))
    decreases |s|
  {
    if s != [] {
      var n := StepLength(s);
      var tokens, offsets := Tokenize(s[n..]), Shift(TokenOffsets(s[n..]), n);
      TokenizeStep(s);
      TokenizeLongest(s[n..]);
      ShiftMatches(s, n, tokens, TokenOffsets(s[n..]));
      if IsTokenChar(s[0]) {
        HeadMatched(s, n);
        ConsMatches(s, s[..n], tokens, offsets);
      } else {
        assert Tokenize(s) == tokens && TokenOffsets(s) == offsets;
      }
    }
  }

  /** `"ab"` is one token, not two. */
  lemma TokenizeGreedyExample()
    ensures Tokenize("ab") == ["ab"]
  {
    assert IdentRun("b") == 1 && StepLength("ab") == 2;
    TokenizeStep("ab");
    assert "ab"[..2] == "ab" && "ab"[2..] == [];
  }

  /** The first token of `s`, of length `n`, is a longest match at offset 0. */
  lemma HeadMatched(s: string, n: nat)
    requires s != [] && IsTokenChar(s[0]) && n == StepLength(s)
    ensures MatchedAt(s, s[..n], 0)
  {
    assert s[0..n] == s[..n];
    if n < |s| {
      assert s[n] == s[1..][n - 1];
    }
  }

  /** Matches in a suffix of `s` are matches in `s`, `n` characters further on. */
  lemma ShiftMatches(s: string, n: nat, tokens: seq<string>, offsets: seq<nat>)
    requires n <= |s|
    requires LongestMatches(s[n..], tokens, offsets)
    ensures LongestMatches(s, tokens, Shift(offsets, n))
  {
    forall k | 0 <= k < |tokens| ensures MatchedAt(s, tokens[k], offsets[k] + n) {
      var p, t := offsets[k], tokens[k];
      assert s[n..][p..p + |t|] == s[p + n..p + n + |t|];
      if p + |t| < |s[n..]| {
        assert s[n..][p + |t|] == s[p + n + |t|];
      }
    }
  }

  /** A longest match at offset 0 followed by matches that start after it. */
  lemma ConsMatches(s: string, t: string, tokens: seq<string>, offsets: seq<nat>)
    requires MatchedAt(s, t, 0)
    requires LongestMatches(s, tokens, offsets)
    requires forall k :: 0 <= k < |offsets| ==> |t| <= offsets[k]
    ensures LongestMatches(s, [t] + tokens, [0] + offsets)
  {
    var ts, ps := [t] + tokens, [0] + offsets;
    forall i, j | 0 <= i < j < |ts| ensures ps[i] + |ts[i]| <= ps[j] {
      if i > 0 {
        assert ts[i] == tokens[i - 1] && ps[i] == offsets[i - 1] && ps[j] == offsets[j - 1];
      }
    }
  }

  /** `tokenizeCode`: the tokens of the normalised code. */
  function TokenizeCode(code: string): (r: seq<string>)
    ensures forall k :: 0 <= k < |r| ==> IsToken(r[k])
  {
    Tokenize(NormalizeCode(code))
  }

  /** The set of distinct tokens (`new Set(tokens)`). */
  function TokenSet(ts: seq<string>): (r: set<string>)
    ensures forall t :: t in r <==> t in ts
  {
    set t | t in ts
  }

  /** A subset is no larger than its superset. */
  lemma {:induction false} SubsetCard<T>(a: set<T>, b: set<T>)
    requires a <= b
    ensures |a| <= |b|
    decreases |b|
  {
    if a != {} {
      var x :| x in a;
      SubsetCard(a - {x}, b - {x});
    }
  }

  /** Jaccard similarity of two token sets, 0 when both are empty. */
  function Jaccard(s1: set<string>, s2: set<string>): (r: real)
    ensures 0.0 <= r <= 1.0
    ensures r == 1.0 <==> s1 == s2 && s1 != {}
    ensures r == 0.0 <==> s1 * s2 == {}
  {
    var i, u := s1 * s2, s1 + s2;
    SubsetCard(i, u);
    SubsetEqualCard(i, u);
    assert i == u ==> s1 == s2;
    if |u| > 0 then
      RatioBounds(|i|, |u|);
      (|i| as real) / (|u| as real)
    else 0.0
  }

  /** A subset as large as its superset is the superset. */
  lemma {:induction false} SubsetEqualCard<T>(a: set<T>, b: set<T>)
    requires a <= b
    ensures |a| == |b| ==> a == b
    decreases |b|
  {
    if a != {} {
      var x :| x in a;
      assert |a - {x}| == |a| - 1 && |b - {x}| == |b| - 1;
      SubsetEqualCard(a - {x}, b - {x});
      if |a| == |b| {
        assert a == (a - {x}) + {x} && b == (b - {x}) + {x};
      }
    } else if b != {} {
      var y :| y in b;
      assert |b - {y}| + 1 == |b|;
    }
  }

  // ---------------------------------------------------------------------------
  // Similarity
  // ---------------------------------------------------------------------------

  /** `1 - distance / maxLength` for two non-empty strings. */
  function EditSimilarity(a: string, b: string): (r: real)
    requires a != [] && b != []
    ensures 0.0 <= r <= 1.0
    ensures r == 1.0 <==> a == b
  {
    EditDistanceFacts(a, b);
    EditDistanceZero(a, b);
    RatioBounds(EditDistance(a, b), Max(|a|, |b|));
    1.0 - (EditDistance(a, b) as real) / (Max(|a|, |b|) as real)
  }


  /** Only equal strings are at distance zero. */
  lemma {:induction false} EditDistanceZero(a: string, b: string)
    ensures EditDistance(a, b) == 0 <==> a == b
  {
    EditDistanceFacts(a, b);
    if EditDistance(a, b) == 0 {
      DistZero(a, b, |a|, |b|);
    }
  }

  lemma {:induction false} DistZero(a: string, b: string, i: int, j: int)
    requires 0 <= i <= |a| && 0 <= j <= |b| && Dist(a, b, i, j) == 0
    ensures i == j && a[..i] == b[..j]
    decreases i + j
  {
    DistBounds(a, b, i, j);
    if i >= 1 && j >= 1 {
      if a[i - 1] == b[j - 1] {
        DistZero(a, b, i - 1, j - 1);
        assert a[..i] == a[..i - 1] + [a[i - 1]];
        assert b[..j] == b[..j - 1] + [b[j - 1]];
      } else {
        DistBounds(a, b, i - 1, j - 1);
        DistBounds(a, b, i, j - 1);
        DistBounds(a, b, i - 1, j);
      }
    }
  }

  /** `calculateSimilarity(code1, code2)`: 0 when either normalised string is
      empty, otherwise 0.6 times the edit similarity of the normalised strings
      plus 0.4 times the Jaccard similarity of the token sets. */
  function Similarity(code1: string, code2: string): (r: real)
    ensures 0.0 <= r <= 1.0
  {
    var norm1, norm2 := NormalizeCode(code1), NormalizeCode(code2);
    if |norm1| == 0 || |norm2| == 0 then 0.0
    else (EditSimilarity(norm1, norm2) * 0.6
          + Jaccard(TokenSet(TokenizeCode(code1)), TokenSet(TokenizeCode(code2))) * 0.4)
  }

  /** Code with nothing left after normalisation is similar to nothing. */
  lemma SimilarityEmpty(code1: string, code2: string)
    requires NormalizeCode(code1) == [] || NormalizeCode(code2) == []
    ensures Similarity(code1, code2) == 0.0
  {
  }

  /** Code whose normalisation is non-empty is fully similar to itself when it
      has a token; with no token at all only the edit part counts, giving 0.6. */
  lemma SimilaritySelf(code: string)
    requires NormalizeCode(code) != []
    ensures Similarity(code, code) == if TokenizeCode(code) == [] then 0.6 else 1.0
  {
    var ts := TokenSet(TokenizeCode(code));
    if TokenizeCode(code) != [] {
      assert TokenizeCode(code)[0] in ts;
    }
  }

  /** Similarity 1 means equal normalisations with the same, non-empty, token sets. */
  lemma SimilarityOne(code1: string, code2: string)
    requires Similarity(code1, code2) == 1.0
    ensures NormalizeCode(code1) == NormalizeCode(code2) != []
    ensures TokenSet(TokenizeCode(code1)) == TokenSet(TokenizeCode(code2)) != {}
  {
  }

  /** `calculateSimilarity`, which runs the edit-distance matrix. */
  method CalculateSimilarity(code1: string, code2: string) returns (r: real)
    ensures r == Similarity(code1, code2)
  {
    var norm1, norm2 := NormalizeCode(code1), NormalizeCode(code2);
    if |norm1| == 0 || |norm2| == 0 {
      return 0.0;
    }
    var distance := LevenshteinDistance(norm1, norm2);
    var maxLength := Max(|norm1|, |norm2|);
    var levenshteinSimilarity := 1.0 - (distance as real) / (maxLength as real);
    var tokenSet1, tokenSet2 := TokenSet(TokenizeCode(code1)), TokenSet(TokenizeCode(code2));
    var tokenSimilarity := Jaccard(tokenSet1, tokenSet2);
    r := levenshteinSimilarity * 0.6 + tokenSimilarity * 0.4;
  }

  // ---------------------------------------------------------------------------
  // The corpus scan
  // ---------------------------------------------------------------------------

  /** The similarity above which a known solution is reported. */
  const ReportThreshold: real := 0.6

  /** The score from which code counts as plagiarised. */
  const PlagiarismThreshold: real := 0.85

  /** The label every reported match carries. */
  const KnownSolutionSource: string := "Known Solution Database"

  datatype Match = Match(similarity: real, source: string)

  function MatchSimilarity(m: Match): real {
    m.similarity
  }

  /** The similarity of the code to each known solution, in corpus order. */
  function Scores(code: string, solutions: seq<string>): (r: seq<real>)
    ensures |r| == |solutions|
    ensures forall k :: 0 <= k < |r| ==> r[k] == Similarity(code, solutions[k]) && 0.0 <= r[k] <= 1.0
  {
    seq(|solutions|, k requires 0 <= k < |solutions| => Similarity(code, solutions[k]))
  }

  /** The matches the scan pushes for the similarities `sims`, in order: one
      per similarity above the reporting threshold. */
  function Collect(sims: seq<real>): (r: seq<Match>)
    ensures |r| <= |sims|
    ensures forall m :: m in r ==> m.similarity > ReportThreshold && m.source == KnownSolutionSource
    ensures forall m :: m in r ==> m.similarity in sims
  {
    if sims == [] then []
    else
      var rest := Collect(sims[..|sims| - 1]);
      var sim := sims[|sims| - 1];
      if sim > ReportThreshold then rest + [Match(sim, KnownSolutionSource)] else rest
  }

  /** Every similarity above the threshold is collected. */
  lemma {:induction false} CollectComplete(sims: seq<real>, k: nat)
    requires k < |sims| && sims[k] > ReportThreshold
    ensures Match(sims[k], KnownSolutionSource) in Collect(sims)
  {
    var init := sims[..|sims| - 1];
    if k < |init| {
      assert init[k] == sims[k];
      CollectComplete(init, k);
    }
  }

  /** The matches the scan pushes, in corpus order. */
  function Reported(code: string, solutions: seq<string>): (r: seq<Match>)
    ensures |r| <= |solutions|
    ensures forall m :: m in r ==> ReportThreshold < m.similarity <= 1.0 && m.source == KnownSolutionSource
  {
    Collect(Scores(code, solutions))
  }

  /** A match is reported exactly when some known solution has its
      similarity and that similarity exceeds the threshold. */
  lemma ReportedExactly(code: string, solutions: seq<string>, m: Match)
    ensures m in Reported(code, solutions)
        <==> m.source == KnownSolutionSource && m.similarity > ReportThreshold
             && exists k :: 0 <= k < |solutions| && Similarity(code, solutions[k]) == m.similarity
  {
    var sims := Scores(code, solutions);
    if m.source == KnownSolutionSource && m.similarity > ReportThreshold {
      if k :| 0 <= k < |solutions| && Similarity(code, solutions[k]) == m.similarity {
        CollectComplete(sims, k);
      }
    }
  }

  /** The largest similarity among the matches, 0 when there are none
      (`Math.max(...similarities)` behind a length test). */
  function MaxSimilarity(ms: seq<Match>): (r: real)
    ensures ms == [] ==> r == 0.0
    ensures ms != [] ==> exists k :: 0 <= k < |ms| && r == ms[k].similarity
    ensures forall k :: 0 <= k < |ms| ==> ms[k].similarity <= r
  {
    if ms == [] then 0.0
    else if |ms| == 1 then ms[0].similarity
    else
      var rest := MaxSimilarity(ms[1..]);
      if ms[0].similarity >= rest then ms[0].similarity else rest
  }

  /** The built-in database of known solutions, by lower-case language name. */
  const KnownSolutions: map<string, seq<string>> := map[
    "javascript" := [
      "function fibonacci(n) { if (n <= 1) return n; return fibonacci(n - 1) + fibonacci(n - 2); }",
      "function isPalindrome(str) { const cleaned = str.toLowerCase().replace(/[^a-z0-9]/g, ''); return cleaned === cleaned.split('').reverse().join(''); }"],
    "python" := [
      "def fibonacci(n):\n    if n <= 1:\n        return n\n    return fibonacci(n - 1) + fibonacci(n - 2)",
      "def is_palindrome(s):\n    cleaned = ''.join(c.lower() for c in s if c.isalnum())\n    return cleaned == cleaned[::-1]"]]

  /** `language.toLowerCase()` looked up in the corpus; a missing entry is the empty list. */
  function Solutions(corpus: map<string, seq<string>>, language: string): (r: seq<string>)
    ensures Lower(language) !in corpus ==> r == []
  {
    var key := Lower(language);
    if key in corpus then corpus[key] else []
  }

  /** Only JavaScript and Python code is compared (in any letter case);
      code in another language always scores 0 with no matches. */
  lemma KnownLanguages(language: string)
    ensures Lower(language) in KnownSolutions <==> Lower(language) in {"javascript", "python"}
    ensures Lower(language) !in {"javascript", "python"} ==> Solutions(KnownSolutions, language) == []
  {
    assert KnownSolutions.Keys == {"javascript", "python"};
  }

  /** `checkPlagiarism(code, language)` against `corpus`: every known solution
      for the language is scored, those above 0.6 are collected, the score is
      the largest collected similarity (0 if none), and the matches come back
      sorted by non-increasing similarity. */
  method CheckPlagiarism(code: string, language: string, corpus: map<string, seq<string>>)
    returns (score: real, matches: seq<Match>)
    ensures matches == SortDesc(Reported(code, Solutions(corpus, language)), MatchSimilarity)
    ensures |matches| <= |Solutions(corpus, language)|
    ensures multiset(matches) == multiset(Reported(code, Solutions(corpus, language)))
    ensures SortedDesc(matches, MatchSimilarity)
    ensures forall m :: m in matches ==> ReportThreshold < m.similarity <= 1.0 && m.source == KnownSolutionSource
    ensures matches == [] ==> score == 0.0
    ensures matches != [] ==> score == matches[0].similarity
    ensures forall m :: m in matches ==> m.similarity <= score
    ensures 0.0 <= score <= 1.0
    ensures Solutions(corpus, language) == [] ==> score == 0.0 && matches == []
  {
    var solutions := Solutions(corpus, language);
    var found := ScanSolutions(code, solutions);
    score := MaxSimilarity(found);
    matches := SortDesc(found, MatchSimilarity);
    ReportFacts(code, solutions);
  }

  /** The scan loop of `checkPlagiarism`: each solution is scored in turn
      and a match is pushed for every similarity above 0.6. */
  method ScanSolutions(code: string, solutions: seq<string>) returns (found: seq<Match>)
    ensures found == Reported(code, solutions)
  {
    ghost var sims := Scores(code, solutions);
    found := [];
    for i := 0 to |solutions|
      invariant found == Collect(sims[..i])
    {
      var similarity := CalculateSimilarity(code, solutions[i]);
      assert similarity == sims[i];
      CollectStep(sims, i);
      if similarity > ReportThreshold {
        found := found + [Match(similarity, KnownSolutionSource)];
      }
    }
    assert sims[..|solutions|] == sims;
  }

  /** One more similarity scanned. */
  lemma CollectStep(sims: seq<real>, i: nat)
    requires i < |sims|
    ensures Collect(sims[..i + 1]) == Collect(sims[..i])
      + (if sims[i] > ReportThreshold then [Match(sims[i], KnownSolutionSource)] else [])
  {
    assert sims[..i + 1][..i] == sims[..i];
  }

  /** What the sorted report and its score satisfy. */
  lemma ReportFacts(code: string, solutions: seq<string>)
    ensures var found := Reported(code, solutions);
      var matches := SortDesc(found, MatchSimilarity);
      var score := MaxSimilarity(found);
      && |matches| <= |solutions|
      && multiset(matches) == multiset(found)
      && SortedDesc(matches, MatchSimilarity)
      && (forall m :: m in matches ==> ReportThreshold < m.similarity <= 1.0 && m.source == KnownSolutionSource)
      && (matches == [] ==> score == 0.0)
      && (matches != [] ==> score == matches[0].similarity)
      && (forall m :: m in matches ==> m.similarity <= score)
      && 0.0 <= score <= 1.0
      && (solutions == [] ==> score == 0.0 && matches == [])
  {
    ReportShape(Reported(code, solutions));
  }

  /** The same facts for any list of matches above the threshold. */
  lemma ReportShape(found: seq<Match>)
    requires forall m :: m in found ==> ReportThreshold < m.similarity <= 1.0 && m.source == KnownSolutionSource
    ensures var matches := SortDesc(found, MatchSimilarity);
      var score := MaxSimilarity(found);
      && |matches| == |found|
      && multiset(matches) == multiset(found)
      && SortedDesc(matches, MatchSimilarity)
      && (forall m :: m in matches ==> ReportThreshold < m.similarity <= 1.0 && m.source == KnownSolutionSource)
      && (matches == [] ==> score == 0.0)
      && (matches != [] ==> score == matches[0].similarity)
      && (forall m :: m in matches ==> m.similarity <= score)
      && 0.0 <= score <= 1.0
  {
    var matches := SortDesc(found, MatchSimilarity);
    SortedScan(found);
    forall m | m in matches ensures m.similarity <= MaxSimilarity(found) {
      var k :| 0 <= k < |found| && found[k] == m;
    }
    if found != [] {
      assert found[0] in found;
    }
  }

  /** Sorting the collected matches keeps them, orders them, and puts the
      largest similarity first. */
  lemma SortedScan(found: seq<Match>)
    ensures |SortDesc(found, MatchSimilarity)| == |found|
    ensures multiset(SortDesc(found, MatchSimilarity)) == multiset(found)
    ensures SortedDesc(SortDesc(found, MatchSimilarity), MatchSimilarity)
    ensures forall m :: m in SortDesc(found, MatchSimilarity) <==> m in found
    ensures found != [] ==> SortDesc(found, MatchSimilarity)[0].similarity == MaxSimilarity(found)
  {
    var sorted := SortDesc(found, MatchSimilarity);
    SortDescCorrect(found, MatchSimilarity);
    forall m ensures m in sorted <==> m in found {
      assert m in sorted <==> m in multiset(sorted);
    }
    if found != [] {
      var k :| 0 <= k < |found| && MaxSimilarity(found) == found[k].similarity;
      assert found[k] in sorted;
      var j :| 0 <= j < |sorted| && sorted[j] == found[k];
      assert sorted[0] in found;
      assert MatchSimilarity(sorted[0]) >= MatchSimilarity(sorted[j]) || j == 0;
    }
  }

  /** `isPlagiarized`: the score reaches 0.85. */
  predicate IsPlagiarized(score: real) {
    score >= PlagiarismThreshold
  }

  /** The threshold is inclusive, and a higher score is never less plagiarised. */
  lemma IsPlagiarizedThreshold(x: real, y: real)
    ensures !IsPlagiarized(0.84) && IsPlagiarized(0.85)
    ensures IsPlagiarized(x) && x <= y ==> IsPlagiarized(y)
  {
  }

  /** Code with nothing left after normalisation is never reported and never plagiarised. */
  lemma {:induction false} EmptyCodeNotReported(code: string, solutions: seq<string>)
    requires NormalizeCode(code) == []
    ensures Reported(code, solutions) == []
    ensures !IsPlagiarized(MaxSimilarity(Reported(code, solutions)))
  {
    var sims := Scores(code, solutions);
    forall k | 0 <= k < |sims| ensures sims[k] <= ReportThreshold {
      SimilarityEmpty(code, solutions[k]);
    }
    CollectNone(sims);
  }

  /** Nothing is collected when no similarity exceeds the threshold. */
  lemma {:induction false} CollectNone(sims: seq<real>)
    requires forall k :: 0 <= k < |sims| ==> sims[k] <= ReportThreshold
    ensures Collect(sims) == []
  {
    if sims != [] {
      CollectNone(sims[..|sims| - 1]);
    }
  }
}
