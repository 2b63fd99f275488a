/** The parts of Go's `strings` package that the picker code relies on:
    TrimSpace, Split, Join and the "first field" idiom `strings.Split(s, d)[0]`.
    Strings are sequences of Unicode code points (one `char` per rune). */
module Text {
  import opened Base

  /** Go's unicode.IsSpace: the Latin-1 spaces '\t', '\n', '\v', '\f', '\r', ' ', U+0085 and
      U+00A0, and beyond Latin-1 the rest of Unicode's White_Space property. */
  predicate IsSpace(c: char) {
    ('\t' <= c <= '\r') || c == ' ' || c == '\U{0085}' || c == '\U{00A0}' || c == '\U{1680}' ||
    ('\U{2000}' <= c <= '\U{200A}') || c == '\U{2028}' || c == '\U{2029}' || c == '\U{202F}' ||
    c == '\U{205F}' || c == '\U{3000}'
  }

  predicate AllSpace(s: string) {
    forall i :: 0 <= i < |s| ==> IsSpace(s[i])
  }

  /** A string with no white space at either end. */
  predicate IsTrimmed(s: string) {
    |s| == 0 || (!IsSpace(s[0]) && !IsSpace(s[|s| - 1]))
  }

  /** strings.TrimSpace: leading and trailing white space removed. */
  function TrimSpace(s: string): (r: string)
    ensures IsTrimmed(r)
    ensures |r| <= |s|
    decreases |s|
  {
    if |s| == 0 then s
    else if IsSpace(s[0]) then TrimSpace(s[1..])
    else if IsSpace(s[|s| - 1]) then TrimSpace(s[..|s| - 1])
    else s
  }

  /** Trimming an already trimmed string changes nothing, so TrimSpace is idempotent. */
  lemma {:induction false} TrimSpaceFixesTrimmed(s: string)
    requires IsTrimmed(s)
    ensures TrimSpace(s) == s
  {
  }

  lemma {:induction false} TrimSpaceIdempotent(s: string)
    ensures TrimSpace(TrimSpace(s)) == TrimSpace(s)
  {
    TrimSpaceFixesTrimmed(TrimSpace(s));
  }

  /** TrimSpace yields "" exactly for strings made only of white space. */
  lemma {:induction false} TrimSpaceEmptyIff(s: string)
    ensures |TrimSpace(s)| == 0 <==> AllSpace(s)
    decreases |s|
  {
    if |s| > 0 {
      if IsSpace(s[0]) {
        TrimSpaceEmptyIff(s[1..]);
        if AllSpace(s[1..]) {
          forall i | 0 <= i < |s| ensures IsSpace(s[i]) {
            if i > 0 { assert s[i] == s[1..][i - 1]; }
          }
        }
      } else if IsSpace(s[|s| - 1]) {
        TrimSpaceEmptyIff(s[..|s| - 1]);
        assert s[..|s| - 1][0] == s[0];
      }
    }
  }

  /** `d` starts at position `i` of `s`. */
  predicate OccursAt(s: string, d: string, i: int) {
    0 <= i && i + |d| <= |s| && s[i..i + |d|] == d
  }

  /** Moving the start of `s` one place right moves every occurrence one place left. */
  lemma {:induction false} OccursShift(s: string, d: string)
    requires |s| > 0
    ensures forall j :: 1 <= j ==> (OccursAt(s, d, j) <==> OccursAt(s[1..], d, j - 1))
  {
    forall j | 1 <= j
      ensures OccursAt(s, d, j) <==> OccursAt(s[1..], d, j - 1)
    {
      if j + |d| <= |s| {
        var here := s[j..j + |d|];
        var there := s[1..][j - 1..j - 1 + |d|];
        assert forall k :: 0 <= k < |d| ==> here[k] == s[j + k] == there[k];
        assert here == there;
      }
    }
  }

  /** strings.Index for a non-empty separator: the first position where `d` starts
      (IndexOfFirst states that it is the first). */
  function IndexOf(s: string, d: string): (r: Option<nat>)
    requires |d| > 0
    ensures r.Some? ==> r.value + |d| <= |s|
    decreases |s|
  {
    if |s| < |d| then None
    else if s[..|d|] == d then Some(0)
    else
      match IndexOf(s[1..], d)
      case None => None
      case Some(i) => Some(i + 1)
  }

  /** IndexOf finds the leftmost occurrence, and finds none only when there is none. */
  lemma {:induction false} IndexOfFirst(s: string, d: string)
    requires |d| > 0
    ensures var r := IndexOf(s, d);
      (r.Some? ==> OccursAt(s, d, r.value) && forall j :: 0 <= j < r.value ==> !OccursAt(s, d, j)) &&
      (r.None? ==> forall j :: !OccursAt(s, d, j))
    decreases |s|
  {
    var r := IndexOf(s, d);
    if |s| < |d| {
      assert r.None?;
    } else if s[..|d|] == d {
      assert r == Some(0) && OccursAt(s, d, 0);
    } else {
      IndexOfFirst(s[1..], d);
      OccursShift(s, d);
      assert !OccursAt(s, d, 0);
      match IndexOf(s[1..], d)
      case None =>
        assert r.None?;
      case Some(i) =>
        assert r == Some(i + 1);
        assert OccursAt(s[1..], d, i);
    }
  }

  /** strings.Split with an empty separator: one string per code point, none for "". */
  function Explode(s: string): (r: seq<string>)
    ensures |r| == |s|
  {
    if |s| == 0 then [] else [[s[0]]] + Explode(s[1..])
  }

  /** strings.Split: the pieces between successive leftmost occurrences of `d`. */
  function Split(s: string, d: string): (r: seq<string>)
    ensures |d| > 0 ==> |r| >= 1
    ensures |d| == 0 ==> |r| == |s|
    decreases |s|
  {
    if |d| == 0 then Explode(s)
    else
      match IndexOf(s, d)
      case None => [s]
      case Some(i) => [s[..i]] + Split(s[i + |d|..], d)
  }

  /** strings.Join. */
  function Join(parts: seq<string>, d: string): (r: string)
    ensures |parts| == 1 ==> r == parts[0]
  {
    if |parts| == 0 then []
    else if |parts| == 1 then parts[0]
    else parts[0] + d + Join(parts[1..], d)
  }

  /** `strings.Split(s, d)[0]`; Go panics when the split is empty, which happens only
      for an empty `s` with an empty `d`. */
  function FirstField(s: string, d: string): (r: string)
    requires |d| > 0 || |s| > 0
    ensures |r| <= |s| && r == s[..|r|]
    ensures |d| == 0 ==> |r| == 1
    ensures |d| > 0 ==> (|r| == |s| || OccursAt(s, d, |r|)) && forall j :: 0 <= j < |r| ==> !OccursAt(s, d, j)
  {
    if |d| > 0 then
      IndexOfFirst(s, d);
      SplitStep(s, d);
      Split(s, d)[0]
    else Split(s, d)[0]
  }

  lemma {:induction false} JoinExplode(s: string)
    ensures Join(Explode(s), []) == s
    decreases |s|
  {
    if |s| > 1 {
      assert Explode(s)[1..] == Explode(s[1..]);
      JoinExplode(s[1..]);
      assert s == [s[0]] + s[1..];
    }
  }

  /** Joining the pieces of a split restores the string, for every separator. */
  lemma {:induction false} JoinSplit(s: string, d: string)
    ensures Join(Split(s, d), d) == s
  {
    if |d| == 0 {
      JoinExplode(s);
    } else {
      JoinSplitSeparator(s, d);
    }
  }

  lemma {:induction false} JoinSplitSeparator(s: string, d: string)
    requires |d| > 0
    ensures Join(Split(s, d), d) == s
    decreases |s|
  {
    var idx := IndexOf(s, d);
    IndexOfFirst(s, d);
    if idx.Some? {
      var i := idx.value;
      var rest := s[i + |d|..];
      SplitStep(s, d);
      JoinSplitSeparator(rest, d);
      JoinCons(s[..i], Split(rest, d), d);
      SplitAround(s, d, i);
    } else {
      SplitStep(s, d);
    }
  }

  /** One step of strings.Split with a non-empty separator. */
  lemma {:induction false} SplitStep(s: string, d: string)
    requires |d| > 0
    ensures IndexOf(s, d).None? ==> Split(s, d) == [s]
    ensures IndexOf(s, d).Some? ==>
      Split(s, d) == [s[..IndexOf(s, d).value]] + Split(s[IndexOf(s, d).value + |d|..], d)
  {
    match IndexOf(s, d)
    case None =>
    case Some(i) =>
      var rest := s[i + |d|..];
      var tail := Split(rest, d);
      assert Split(s, d) == [s[..i]] + tail;
  }

  lemma {:induction false} SplitAround(s: string, d: string, i: nat)
    requires OccursAt(s, d, i)
    ensures s == s[..i] + d + s[i + |d|..]
  {
    assert s[i..i + |d|] == d;
  }

  lemma {:induction false} JoinCons(head: string, tail: seq<string>, d: string)
    requires |tail| > 0
    ensures Join([head] + tail, d) == head + d + Join(tail, d)
  {
    assert ([head] + tail)[1..] == tail;
  }

  /** The first field of `x + d + y` is `x` when no occurrence of `d` starts inside `x`. */
  lemma {:induction false} FirstFieldOfJoined(x: string, d: string, y: string)
    requires |d| > 0
    requires forall j :: 0 <= j < |x| ==> !OccursAt(x + d + y, d, j)
    ensures FirstField(x + d + y, d) == x
  {
    var s := x + d + y;
    assert s[|x|..|x| + |d|] == d;
    assert OccursAt(s, d, |x|);
  }

  /** With a one-character separator that does not occur in `x`, the first field of
      `x + d + y` is `x`. */
  lemma {:induction false} FirstFieldSingleChar(x: string, d: string, y: string)
    requires |d| == 1 && d[0] !in x
    ensures FirstField(x + d + y, d) == x
  {
    forall j | 0 <= j < |x| ensures !OccursAt(x + d + y, d, j) {
      assert (x + d + y)[j] == x[j];
    }
    FirstFieldOfJoined(x, d, y);
  }

  /** A one-character separator occurs exactly where its character does. */
  lemma {:induction false} WithoutCharNoOccurrence(s: string, d: string)
    requires |d| == 1 && d[0] !in s
    ensures forall j :: !OccursAt(s, d, j)
  {
    forall j | 0 <= j && j + 1 <= |s| ensures !OccursAt(s, d, j) {
      assert s[j..j + 1] == [s[j]];
    }
  }

  /** A string without the separator is its own first field. */
  lemma {:induction false} FirstFieldNoSeparator(s: string, d: string)
    requires |d| > 0
    requires forall j :: !OccursAt(s, d, j)
    ensures FirstField(s, d) == s
  {
    IndexOfFirst(s, d);
    SplitStep(s, d);
  }

  /** The first piece of `x + d + y` is `x` when the one-character separator is not in
      `x`; the rest is the split of `y`. */
  lemma {:induction false} SplitConsSingleChar(x: string, d: string, y: string)
    requires |d| == 1 && d[0] !in x
    ensures Split(x + d + y, d) == [x] + Split(y, d)
  {
    var s := x + d + y;
    FirstFieldSingleChar(x, d, y);
    SplitStep(s, d);
    var i := IndexOf(s, d).value;
    assert s[i + 1..] == y;
  }

  /** Splitting at a one-character separator that occurs in none of the parts gives the
      joined parts back. */
  lemma {:induction false} SplitJoin(parts: seq<string>, d: string)
    requires |d| == 1 && |parts| > 0
    requires forall k :: 0 <= k < |parts| ==> d[0] !in parts[k]
    ensures Split(Join(parts, d), d) == parts
  {
    if |parts| == 1 {
      WithoutCharNoOccurrence(parts[0], d);
      IndexOfFirst(parts[0], d);
      SplitStep(parts[0], d);
    } else {
      SplitConsSingleChar(parts[0], d, Join(parts[1..], d));
      SplitJoin(parts[1..], d);
      assert parts == [parts[0]] + parts[1..];
    }
  }

  /** Joining one more part appends the separator and the part. */
  lemma {:induction false} JoinAppend(front: seq<string>, x: string, d: string)
    requires |front| > 0
    ensures Join(front + [x], d) == Join(front, d) + d + x
  {
    if |front| == 1 {
      assert front + [x] == [front[0]] + [x];
      JoinCons(front[0], [x], d);
    } else {
      var rest := front[1..];
      assert front + [x] == [front[0]] + (rest + [x]);
      JoinCons(front[0], rest + [x], d);
      JoinAppend(rest, x, d);
      assert front == [front[0]] + rest;
      JoinCons(front[0], rest, d);
      var a, b := Join(rest, d), front[0] + d;
      assert b + (a + d + x) == (b + a) + d + x;
    }
  }
}
