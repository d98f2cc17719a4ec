/** The pieces of Go's `strings` package that the resolvers rely on:
    `ToLower`, `ReplaceAll` of one character, `Split`, `Join`, `TrimSpace`
    and `EqualFold`, over strings as sequences of Unicode scalar values. */
module Text {
  import opened Wrappers

  /** `unicode.ToLower` on one character. Besides the ASCII letters, Go maps
      exactly two non-ASCII characters onto ASCII letters: the dotted capital
      I (U+0130) and the Kelvin sign (U+212A). Other non-ASCII letters keep
      their case here. */
  function LowerChar(c: char): char {
    if 'A' <= c <= 'Z' then (c as int + 32) as char
    else if c == '\U{0130}' then 'i'
    else if c == '\U{212A}' then 'k'
    else c
  }

  /** `strings.ToLower`. */
  function Lower(s: string): (r: string)
    ensures |r| == |s|
  {
    seq(|s|, i requires 0 <= i < |s| => LowerChar(s[i]))
  }

  predicate IsLower(s: string) {
    Lower(s) == s
  }

  /** Lowering twice is lowering once, so lowered keys are stable. */
  lemma LowerIdempotent(s: string)
    ensures IsLower(Lower(s))
  {
  }

  lemma LowerAppend(s: string, t: string)
    ensures Lower(s + t) == Lower(s) + Lower(t)
  {
  }

  /** `strings.ReplaceAll(s, string(from), string(to))` for single characters. */
  function ReplaceChar(s: string, from: char, to: char): (r: string)
    ensures |r| == |s|
    ensures forall i :: 0 <= i < |s| ==> r[i] == (if s[i] == from then to else s[i])
  {
    seq(|s|, i requires 0 <= i < |s| => if s[i] == from then to else s[i])
  }

  // ---------------------------------------------------------------- Split

  predicate OccursAt(s: string, sep: string, k: nat) {
    k + |sep| <= |s| && s[k..k + |sep|] == sep
  }

  ghost predicate Contains(s: string, sep: string) {
    exists k: nat :: OccursAt(s, sep, k)
  }

  /** The first occurrence of `sep` in `s` at or after position `from`. */
  function IndexFrom(s: string, sep: string, from: nat): (r: Option<nat>)
    requires |sep| > 0
    ensures r.None? ==> forall j: nat :: from <= j ==> !OccursAt(s, sep, j)
    ensures r.Some? ==> from <= r.value && OccursAt(s, sep, r.value)
    ensures r.Some? ==> forall j: nat :: from <= j < r.value ==> !OccursAt(s, sep, j)
    decreases |s| - from
  {
    if from + |sep| > |s| then None
    else if s[from..from + |sep|] == sep then Some(from)
    else IndexFrom(s, sep, from + 1)
  }

  /** `strings.Split(s, sep)` for a non-empty separator: the pieces between
      the non-overlapping occurrences of `sep`, scanned left to right. There
      is always one more piece than there are occurrences, so splitting the
      empty string gives `[""]` and adjacent separators give empty pieces. */
  function Split(s: string, sep: string): (r: seq<string>)
    requires |sep| > 0
    ensures |r| >= 1
    decreases |s|
  {
    match IndexFrom(s, sep, 0)
    case None => [s]
    case Some(k) => [s[..k]] + Split(s[k + |sep|..], sep)
  }

  /** `strings.Join(parts, sep)`. */
  function Join(parts: seq<string>, sep: string): string
    decreases |parts|
  {
    if |parts| == 0 then ""
    else if |parts| == 1 then parts[0]
    else parts[0] + sep + Join(parts[1..], sep)
  }

  /** Joining the pieces of a split with the same separator gives back the
      original string: splitting loses nothing. */
  lemma {:induction false} JoinSplit(s: string, sep: string)
    requires |sep| > 0
    ensures Join(Split(s, sep), sep) == s
    decreases |s|
  {
    var idx := IndexFrom(s, sep, 0);
    if idx.Some? {
      var k := idx.value;
      var rest := s[k + |sep|..];
      var tail := Split(rest, sep);
      assert Split(s, sep) == [s[..k]] + tail;
      JoinSplit(rest, sep);
      JoinCons(s[..k], tail, sep);
      assert s[k..k + |sep|] == sep;
      assert s == s[..k] + s[k..k + |sep|] + rest;
    }
  }

  lemma JoinCons(p: string, tail: seq<string>, sep: string)
    requires |tail| >= 1
    ensures Join([p] + tail, sep) == p + sep + Join(tail, sep)
  {
    assert ([p] + tail)[1..] == tail;
  }

  lemma OccursInPrefix(s: string, sep: string, k: nat, j: nat)
    requires k <= |s| && OccursAt(s[..k], sep, j)
    ensures OccursAt(s, sep, j)
  {
    assert s[..k][j..j + |sep|] == s[j..j + |sep|];
  }

  /** No piece of a split contains the separator. */
  lemma {:induction false} SplitPiecesAvoidSeparator(s: string, sep: string)
    requires |sep| > 0
    ensures forall i :: 0 <= i < |Split(s, sep)| ==> !Contains(Split(s, sep)[i], sep)
    decreases |s|
  {
    match IndexFrom(s, sep, 0)
    case None =>
    case Some(k) =>
      var rest := s[k + |sep|..];
      SplitPiecesAvoidSeparator(rest, sep);
      forall j: nat | OccursAt(s[..k], sep, j)
        ensures false
      {
        OccursInPrefix(s, sep, k, j);
      }
      assert Split(s, sep) == [s[..k]] + Split(rest, sep);
  }

  /** A string without the separator splits into itself. */
  lemma SplitWithoutSeparator(s: string, sep: string)
    requires |sep| > 0
    ensures !Contains(s, sep) ==> Split(s, sep) == [s]
  {
  }

  /** `last` is all of `s`, or what follows a final `sep` in `s`. */
  predicate FinalPiece(s: string, sep: string, last: string) {
    last == s || (|sep| + |last| <= |s| && s[|s| - |last| - |sep|..] == sep + last)
  }

  /** The last piece of a split is the whole string, or what follows the
      separator at the very end of it. */
  lemma {:induction false} SplitLastPiece(s: string, sep: string)
    requires |sep| > 0
    ensures FinalPiece(s, sep, Split(s, sep)[|Split(s, sep)| - 1])
    decreases |s|
  {
    var idx := IndexFrom(s, sep, 0);
    if idx.Some? {
      var k := idx.value;
      var rest := s[k + |sep|..];
      var tail := Split(rest, sep);
      SplitLastPiece(rest, sep);
      var parts := Split(s, sep);
      assert parts == [s[..k]] + tail;
      assert parts[|parts| - 1] == tail[|tail| - 1];
      SuffixAfterSeparator(s, sep, k, tail[|tail| - 1]);
    }
  }

  lemma SuffixAfterSeparator(s: string, sep: string, k: nat, last: string)
    requires OccursAt(s, sep, k)
    requires FinalPiece(s[k + |sep|..], sep, last)
    ensures |sep| + |last| <= |s| && s[|s| - |last| - |sep|..] == sep + last
  {
    var rest := s[k + |sep|..];
    if last == rest {
      assert s[|s| - |last| - |sep|..] == s[k..k + |sep|] + rest;
    } else {
      assert s[|s| - |last| - |sep|..] == rest[|rest| - |last| - |sep|..];
    }
  }

  /** A one-character separator never occurs inside a piece as a character. */
  lemma SplitPiecesAvoidChar(s: string, c: char)
    ensures forall i :: 0 <= i < |Split(s, [c])| ==> c !in Split(s, [c])[i]
  {
    SplitPiecesAvoidSeparator(s, [c]);
    forall i | 0 <= i < |Split(s, [c])|
      ensures c !in Split(s, [c])[i]
    {
      var p := Split(s, [c])[i];
      if c in p {
        var j :| 0 <= j < |p| && p[j] == c;
        assert OccursAt(p, [c], j);
      }
    }
  }

  /** Every character of every piece is a character of the split string. */
  lemma {:induction false} SplitPiecesChars(s: string, sep: string)
    requires |sep| > 0
    ensures forall i, x :: 0 <= i < |Split(s, sep)| && x in Split(s, sep)[i] ==> x in s
    decreases |s|
  {
    match IndexFrom(s, sep, 0)
    case None =>
    case Some(k) =>
      var rest := s[k + |sep|..];
      SplitPiecesChars(rest, sep);
      assert Split(s, sep) == [s[..k]] + Split(rest, sep);
      forall i, x | 0 <= i < |Split(s, sep)| && x in Split(s, sep)[i]
        ensures x in s
      {
        if i == 0 {
          assert x in s[..k];
        } else {
          assert x in Split(rest, sep)[i - 1];
          assert x in rest;
        }
      }
  }

  /** Splitting on a one-character separator peels off the text before its
      first occurrence. */
  lemma SplitAtFirst(w: string, rest: string, c: char)
    requires c !in w
    ensures Split(w + [c] + rest, [c]) == [w] + Split(rest, [c])
  {
    var s := w + [c] + rest;
    assert OccursAt(s, [c], |w|);
    forall j: nat | j < |w|
      ensures !OccursAt(s, [c], j)
    {
      assert s[j..j + 1] == [w[j]];
    }
    assert IndexFrom(s, [c], 0) == Some(|w|);
    assert s[..|w|] == w;
    assert s[|w| + 1..] == rest;
  }

  lemma SplitWithout(w: string, c: char)
    requires c !in w
    ensures Split(w, [c]) == [w]
  {
    forall j: nat | j < |w|
      ensures !OccursAt(w, [c], j)
    {
      assert w[j..j + 1] == [w[j]];
    }
  }

  /** For a one-character separator that occurs in none of the pieces,
      splitting undoes joining. Together with `JoinSplit` this makes the two
      inverse to each other. */
  lemma {:induction false} SplitJoin(parts: seq<string>, c: char)
    requires |parts| >= 1
    requires forall i :: 0 <= i < |parts| ==> c !in parts[i]
    ensures Split(Join(parts, [c]), [c]) == parts
    decreases |parts|
  {
    if |parts| == 1 {
      SplitWithout(parts[0], c);
    } else {
      var tail := parts[1..];
      SplitJoin(tail, c);
      SplitAtFirst(parts[0], Join(tail, [c]), c);
      assert parts == [parts[0]] + tail;
    }
  }

  // ---------------------------------------------------------------- TrimSpace

  /** `unicode.IsSpace`: the ASCII white space, NEL, NO-BREAK SPACE and the
      remaining characters of Unicode's White_Space property. */
  predicate IsSpace(c: char) {
    || c == ' ' || c == '\t' || c == '\n' || c == '\U{000B}' || c == '\U{000C}' || c == '\r'
    || c == '\U{0085}' || c == '\U{00A0}' || c == '\U{1680}'
    || ('\U{2000}' <= c <= '\U{200A}')
    || c == '\U{2028}' || c == '\U{2029}' || c == '\U{202F}' || c == '\U{205F}' || c == '\U{3000}'
  }

  function TrimLeft(s: string): (r: string)
    ensures |r| <= |s| && r == s[|s| - |r|..]
    ensures forall i :: 0 <= i < |s| - |r| ==> IsSpace(s[i])
    ensures r == [] || !IsSpace(r[0])
    decreases |s|
  {
    if |s| > 0 && IsSpace(s[0]) then TrimLeft(s[1..]) else s
  }

  function TrimRight(s: string): (r: string)
    ensures |r| <= |s| && r == s[..|r|]
    ensures forall i :: |r| <= i < |s| ==> IsSpace(s[i])
    ensures r == [] || !IsSpace(r[|r| - 1])
    decreases |s|
  {
    if |s| > 0 && IsSpace(s[|s| - 1]) then TrimRight(s[..|s| - 1]) else s
  }

  /** `strings.TrimSpace`: the longest infix of `s` that neither starts nor
      ends with white space, obtained by dropping only white space. */
  function TrimSpace(s: string): (r: string)
    ensures r == [] || (!IsSpace(r[0]) && !IsSpace(r[|r| - 1]))
    ensures forall x :: x in r ==> x in s
    ensures (forall x :: x in s ==> IsSpace(x)) ==> r == []
    ensures exists a, b :: Trimmed(s, a, b) && r == s[a..b]
  {
    var l := TrimLeft(s);
    var r := TrimRight(l);
    TrimmedFromBothEnds(s, l, r);
    r
  }

  lemma SliceChars(s: string, a: nat, b: nat)
    requires a <= b <= |s|
    ensures forall x :: x in s[a..b] ==> x in s
  {
  }

  /** `s[a..b]` is an infix of `s` with only white space around it. */
  predicate Trimmed(s: string, a: int, b: int) {
    && 0 <= a <= b <= |s|
    && (forall i :: 0 <= i < a ==> IsSpace(s[i]))
    && (forall i :: b <= i < |s| ==> IsSpace(s[i]))
  }

  lemma TrimmedFromBothEnds(s: string, l: string, r: string)
    requires l == TrimLeft(s) && r == TrimRight(l)
    ensures r == [] || (!IsSpace(r[0]) && !IsSpace(r[|r| - 1]))
    ensures forall x :: x in r ==> x in s
    ensures (forall x :: x in s ==> IsSpace(x)) ==> r == []
    ensures exists a, b :: Trimmed(s, a, b) && r == s[a..b]
  {
    SliceChars(l, 0, |r|);
    SliceChars(s, |s| - |l|, |s|);
    if r != [] {
      assert r[0] == l[0];
    }
    TrimmedInfix(s, l, r);
  }

  lemma TrimmedInfix(s: string, l: string, r: string)
    requires |l| <= |s| && l == s[|s| - |l|..]
    requires forall i :: 0 <= i < |s| - |l| ==> IsSpace(s[i])
    requires |r| <= |l| && r == l[..|r|]
    requires forall i :: |r| <= i < |l| ==> IsSpace(l[i])
    ensures Trimmed(s, |s| - |l|, |s| - |l| + |r|) && r == s[|s| - |l|..|s| - |l| + |r|]
  {
    var a := |s| - |l|;
    forall i | a + |r| <= i < |s|
      ensures IsSpace(s[i])
    {
      assert s[i] == l[i - a];
    }
  }

  /** Trimming a trimmed string changes nothing. */
  lemma TrimSpaceIdempotent(s: string)
    ensures TrimSpace(TrimSpace(s)) == TrimSpace(s)
  {
    var t := TrimSpace(s);
    assert TrimLeft(t) == t;
    assert TrimRight(t) == t;
  }

  // ---------------------------------------------------------------- EqualFold

  function FoldChar(c: char): char {
    if 'A' <= c <= 'Z' then (c as int + 32) as char else c
  }

  /** `strings.EqualFold`, case-insensitive equality, for ASCII letters. */
  predicate EqualFold(a: string, b: string) {
    |a| == |b| && forall i :: 0 <= i < |a| ==> FoldChar(a[i]) == FoldChar(b[i])
  }
}
