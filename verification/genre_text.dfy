/** The two pure text-mining steps of the genre resolver
    (genre/genreLookup.go): recognising genre names in an event's free-text
    genre description, and splitting an event title into artist names. */
module GenreText {
  import opened Text

  /** The longest n-gram, in tokens, that is looked up in the vocabulary. */
  const MaxTokens: nat := 4

  // ---------------------------------------------------------------- normalisation

  /** Characters that survive the deletion of everything outside `[a-z0-9 ]`. */
  predicate Kept(c: char) {
    ('a' <= c <= 'z') || ('0' <= c <= '9') || c == ' '
  }

  /** Deletes every character outside `[a-z0-9 ]`, keeping the order of the
      others. */
  function DropUnkept(s: string): (r: string)
    ensures forall c :: c in r ==> Kept(c) && c in s
    ensures forall c :: c in s && Kept(c) ==> c in r
    ensures |r| <= |s|
    ensures |s| == 1 ==> r == if Kept(s[0]) then s else ""
  {
    if |s| == 0 then ""
    else (if Kept(s[0]) then [s[0]] else []) + DropUnkept(s[1..])
  }

  /** Every kept character survives as often as it occurs, and no other
      character survives. */
  lemma {:induction false} DropUnkeptCounts(s: string)
    ensures forall c :: multiset(DropUnkept(s))[c] == if Kept(c) then multiset(s)[c] else 0
    decreases |s|
  {
    if |s| > 0 {
      DropUnkeptCounts(s[1..]);
      assert s == [s[0]] + s[1..];
    }
  }

  /** Hyphens become spaces, the text is lowered, and everything outside
      `[a-z0-9 ]` is deleted (runs of deleted characters leave no trace). */
  function Normalize(text: string): string {
    DropUnkept(Lower(ReplaceChar(text, '-', ' ')))
  }

  /** The text split on single spaces: two spaces in a row give an empty
      token between them. */
  function Tokens(text: string): seq<string> {
    Split(Normalize(text), " ")
  }

  /** Deletion works character by character, so it distributes over
      concatenation. */
  lemma {:induction false} DropUnkeptAppend(a: string, b: string)
    ensures DropUnkept(a + b) == DropUnkept(a) + DropUnkept(b)
  {
    if |a| > 0 {
      assert (a + b)[0] == a[0];
      assert (a + b)[1..] == a[1..] + b;
      DropUnkeptAppend(a[1..], b);
      var h: string := if Kept(a[0]) then [a[0]] else [];
      assert DropUnkept(a + b) == h + (DropUnkept(a[1..]) + DropUnkept(b));
      assert DropUnkept(a) == h + DropUnkept(a[1..]);
    } else {
      assert a + b == b;
    }
  }

  lemma DropUnkeptAllKept(s: string)
    requires forall c :: c in s ==> Kept(c)
    ensures DropUnkept(s) == s
  {
    if |s| > 0 {
      assert s[0] in s;
      assert forall c :: c in s[1..] ==> c in s;
    }
  }

  /** Every token is a non-space run of lower-case ASCII letters and digits. */
  lemma TokensAreAlphanumeric(text: string)
    ensures forall k, c :: 0 <= k < |Tokens(text)| && c in Tokens(text)[k] ==>
      ('a' <= c <= 'z') || ('0' <= c <= '9')
  {
    SplitPiecesChars(Normalize(text), " ");
    SplitPiecesAvoidChar(Normalize(text), ' ');
    forall k, c | 0 <= k < |Tokens(text)| && c in Tokens(text)[k]
      ensures ('a' <= c <= 'z') || ('0' <= c <= '9')
    {
      assert c in Normalize(text);
      assert Kept(c);
    }
  }

  /** Normalisation works character by character, so it distributes over
      concatenation. */
  lemma NormalizeAppend(a: string, b: string)
    ensures Normalize(a + b) == Normalize(a) + Normalize(b)
  {
    assert ReplaceChar(a + b, '-', ' ') == ReplaceChar(a, '-', ' ') + ReplaceChar(b, '-', ' ');
    LowerAppend(ReplaceChar(a, '-', ' '), ReplaceChar(b, '-', ' '));
    DropUnkeptAppend(Lower(ReplaceChar(a, '-', ' ')), Lower(ReplaceChar(b, '-', ' ')));
  }

  /** A word without spaces or hyphens normalises to a word without spaces. */
  lemma NormalizedWordHasNoSpace(w: string)
    requires ' ' !in w && '-' !in w
    ensures ' ' !in Normalize(w)
  {
    var low := Lower(ReplaceChar(w, '-', ' '));
    forall i | 0 <= i < |low|
      ensures low[i] != ' '
    {
      assert w[i] in w;
    }
  }

  function NormalizeAll(words: seq<string>): (r: seq<string>)
    ensures |r| == |words|
    ensures forall i :: 0 <= i < |words| ==> r[i] == Normalize(words[i])
  {
    seq(|words|, i requires 0 <= i < |words| => Normalize(words[i]))
  }

  lemma {:induction false} NormalizeJoin(words: seq<string>)
    ensures Normalize(Join(words, " ")) == Join(NormalizeAll(words), " ")
    decreases |words|
  {
    if |words| > 1 {
      var tail := words[1..];
      NormalizeJoin(tail);
      assert Join(words, " ") == (words[0] + " ") + Join(tail, " ");
      NormalizeAppend(words[0] + " ", Join(tail, " "));
      NormalizeAppend(words[0], " ");
      NormalizeSpace();
      var normalized := NormalizeAll(words);
      assert normalized[1..] == NormalizeAll(tail);
      assert Join(normalized, " ") == normalized[0] + " " + Join(normalized[1..], " ");
    } else if |words| == 0 {
      assert Normalize("") == "";
    }
  }

  lemma NormalizeSpace()
    ensures Normalize(" ") == " "
  {
    assert ReplaceChar(" ", '-', ' ') == " ";
    assert Lower(" ") == " ";
  }

  /** The tokens of space-separated words without hyphens are exactly the
      words, each normalised on its own: normalising never creates or removes
      a token boundary, although a word of deleted characters leaves an empty
      token. */
  lemma TokensOfWords(words: seq<string>)
    requires |words| >= 1
    requires forall i :: 0 <= i < |words| ==> ' ' !in words[i] && '-' !in words[i]
    ensures Tokens(Join(words, " ")) == NormalizeAll(words)
  {
    NormalizeJoin(words);
    forall i | 0 <= i < |words|
      ensures ' ' !in NormalizeAll(words)[i]
    {
      NormalizedWordHasNoSpace(words[i]);
    }
    SplitJoin(NormalizeAll(words), ' ');
  }

  // ---------------------------------------------------------------- the scan

  /** The candidate genre made of tokens `i` up to, not including, `j`. */
  function NGram(tokens: seq<string>, i: nat, j: nat): string
    requires i < j <= |tokens|
  {
    Join(tokens[i..j], " ")
  }

  /** A recognised genre: tokens `start` up to, not including, `end`. */
  datatype Match = Match(start: nat, end: nat, genre: string)

  /** The inner loop at scan position `i`: `j` is the next token to try and
      `prev` the last vocabulary hit so far ("" for none). Misses before the
      first hit are passed over; after a hit, the first miss ends the
      extension. Returns the last hit and the position where the extension
      stopped. */
  function Extend(tokens: seq<string>, vocab: set<string>, i: nat, j: nat, prev: string): (r: (string, nat))
    requires i <= j <= |tokens| && j <= i + MaxTokens
    requires prev != "" ==> i < j
    ensures j <= r.1 <= |tokens| && r.1 <= i + MaxTokens
    ensures r.0 != "" ==> i < r.1
    decreases i + MaxTokens - j
  {
    if j < i + MaxTokens && j < |tokens| then
      var pot := NGram(tokens, i, j + 1);
      if pot !in vocab then
        if prev != "" then (prev, j) else Extend(tokens, vocab, i, j + 1, prev)
      else Extend(tokens, vocab, i, j + 1, pot)
    else (prev, j)
  }

  /** The inner loop's result read declaratively: no hit at all, or the last
      hit of the first run of hits, which ends at the first miss, the end of
      the text or the four-token limit. */
  ghost predicate ExtendMeans(tokens: seq<string>, vocab: set<string>, i: nat, r: (string, nat))
    requires i <= r.1 <= |tokens|
  {
    && (r.0 == "" ==> NoMatchAt(tokens, vocab, i))
    && (r.0 != "" ==> i < r.1 && LongestRunAt(tokens, vocab, i, r.1 - i) && r.0 == NGram(tokens, i, r.1))
  }

  /** The loop invariant of the inner loop: no hit yet, or a run of hits
      whose last one is `prev`. */
  ghost predicate ExtendInvariant(tokens: seq<string>, vocab: set<string>, i: nat, j: nat, prev: string)
    requires i <= j <= |tokens|
  {
    && (prev == "" ==> forall n :: 1 <= n <= j - i ==> !Hit(tokens, vocab, i, n))
    && (prev != "" ==> RunSoFar(tokens, vocab, i, j - i) && prev == NGram(tokens, i, j))
  }

  lemma {:induction false} ExtendSound(tokens: seq<string>, vocab: set<string>, i: nat, j: nat, prev: string)
    requires i <= j <= |tokens| && j <= i + MaxTokens
    requires ExtendInvariant(tokens, vocab, i, j, prev)
    ensures ExtendMeans(tokens, vocab, i, Extend(tokens, vocab, i, j, prev))
    decreases i + MaxTokens - j, 1
  {
    if j < i + MaxTokens && j < |tokens| {
      var pot := NGram(tokens, i, j + 1);
      if pot !in vocab && prev != "" {
        assert Extend(tokens, vocab, i, j, prev) == (prev, j);
        RunEndsAtMiss(tokens, vocab, i, j);
      } else if pot !in vocab {
        ExtendSoundPastMiss(tokens, vocab, i, j);
      } else {
        ExtendSoundOnHit(tokens, vocab, i, j, prev);
      }
    } else {
      assert Extend(tokens, vocab, i, j, prev) == (prev, j);
      RunEndsAtLimit(tokens, vocab, i, j, prev);
    }
  }

  /** Before the first hit, a miss moves the extension on. */
  lemma {:induction false} ExtendSoundPastMiss(tokens: seq<string>, vocab: set<string>, i: nat, j: nat)
    requires i <= j < |tokens| && j < i + MaxTokens
    requires ExtendInvariant(tokens, vocab, i, j, "")
    requires NGram(tokens, i, j + 1) !in vocab
    ensures ExtendMeans(tokens, vocab, i, Extend(tokens, vocab, i, j, ""))
    decreases i + MaxTokens - j, 0
  {
    assert Extend(tokens, vocab, i, j, "") == Extend(tokens, vocab, i, j + 1, "");
    assert !Hit(tokens, vocab, i, j + 1 - i);
    ExtendSound(tokens, vocab, i, j + 1, "");
  }

  /** A vocabulary entry becomes the last hit and the extension goes on. */
  lemma {:induction false} ExtendSoundOnHit(tokens: seq<string>, vocab: set<string>, i: nat, j: nat, prev: string)
    requires i <= j < |tokens| && j < i + MaxTokens
    requires ExtendInvariant(tokens, vocab, i, j, prev)
    requires NGram(tokens, i, j + 1) in vocab
    ensures ExtendMeans(tokens, vocab, i, Extend(tokens, vocab, i, j, prev))
    decreases i + MaxTokens - j, 0
  {
    var pot := NGram(tokens, i, j + 1);
    NGramNonEmpty(tokens, i, j + 1);
    assert Extend(tokens, vocab, i, j, prev) == Extend(tokens, vocab, i, j + 1, pot);
    if pot == "" {
      assert !Hit(tokens, vocab, i, j + 1 - i);
    } else {
      RunGrows(tokens, vocab, i, j, prev);
    }
    ExtendSound(tokens, vocab, i, j + 1, pot);
  }

  /** A run of hits followed by a miss is the run the scan takes. */
  lemma RunEndsAtMiss(tokens: seq<string>, vocab: set<string>, i: nat, j: nat)
    requires i < j < |tokens| && j < i + MaxTokens
    requires RunSoFar(tokens, vocab, i, j - i)
    requires NGram(tokens, i, j + 1) !in vocab
    ensures LongestRunAt(tokens, vocab, i, j - i)
  {
    assert !Hit(tokens, vocab, i, j - i + 1);
  }

  /** A hit after misses starts a run; a hit after a run extends it. */
  lemma RunGrows(tokens: seq<string>, vocab: set<string>, i: nat, j: nat, prev: string)
    requires i <= j < |tokens| && j < i + MaxTokens
    requires prev == "" ==> forall n :: 1 <= n <= j - i ==> !Hit(tokens, vocab, i, n)
    requires prev != "" ==> RunSoFar(tokens, vocab, i, j - i)
    requires NGram(tokens, i, j + 1) in vocab && NGram(tokens, i, j + 1) != ""
    ensures RunSoFar(tokens, vocab, i, j + 1 - i)
  {
    assert Hit(tokens, vocab, i, j + 1 - i);
  }

  /** When the text or the four-token limit ends the extension, a run so far
      is the run the scan takes, and no hit so far means no match at all. */
  lemma RunEndsAtLimit(tokens: seq<string>, vocab: set<string>, i: nat, j: nat, prev: string)
    requires i <= j <= |tokens| && j <= i + MaxTokens
    requires !(j < i + MaxTokens && j < |tokens|)
    requires prev == "" ==> forall n :: 1 <= n <= j - i ==> !Hit(tokens, vocab, i, n)
    requires prev != "" ==> RunSoFar(tokens, vocab, i, j - i)
    ensures prev == "" ==> NoMatchAt(tokens, vocab, i)
    ensures prev != "" ==> LongestRunAt(tokens, vocab, i, j - i)
  {
    assert Reach(tokens, i) == j - i;
  }

  /** The outer loop: scans from token `i` to the end, collecting matches.
      After a match the scan resumes right after it; without one it moves on
      by one token. */
  function Scan(tokens: seq<string>, vocab: set<string>, i: nat): seq<Match>
    requires i <= |tokens|
    decreases |tokens| - i
  {
    if i == |tokens| then []
    else
      var (prev, j) := Extend(tokens, vocab, i, i, "");
      if prev != "" then [Match(i, j, prev)] + Scan(tokens, vocab, j)
      else Scan(tokens, vocab, i + 1)
  }

  /** `extractGenresFromText`: the genres recognised in the text, as a set
      (the source returns the keys of a map, in no particular order). */
  /** The distinct genres named by a list of matches, in no order. */
  function GenresOf(ms: seq<Match>): set<string> {
    set m | m in ms :: m.genre
  }

  function ExtractGenres(text: string, vocab: set<string>): set<string> {
    GenresOf(Scan(Tokens(text), vocab, 0))
  }

  // ---------------------------------------------------------------- the declarative reading

  /** The `n`-token candidate at `i` exists and counts as a hit. A hit on the
      empty string cannot be told apart from "no hit yet" in the source, so it
      is not one. */
  predicate Hit(tokens: seq<string>, vocab: set<string>, i: nat, n: nat) {
    1 <= n && i + n <= |tokens| && NGram(tokens, i, i + n) != "" && NGram(tokens, i, i + n) in vocab
  }

  /** How many tokens a candidate starting at `i` may span. */
  function Reach(tokens: seq<string>, i: nat): nat
    requires i <= |tokens|
  {
    if |tokens| - i < MaxTokens then |tokens| - i else MaxTokens
  }

  /** The candidates of length 1 to `n` at `i` consist of misses followed by
      a non-empty run of hits ending at length `n`. */
  ghost predicate RunSoFar(tokens: seq<string>, vocab: set<string>, i: nat, n: nat) {
    && 1 <= n
    && Hit(tokens, vocab, i, n)
    && forall m, m' :: 1 <= m' < m < n && Hit(tokens, vocab, i, m') ==> Hit(tokens, vocab, i, m)
  }

  /** No candidate starting at `p` is a hit. */
  ghost predicate NoMatchAt(tokens: seq<string>, vocab: set<string>, p: nat)
    requires p <= |tokens|
  {
    forall n :: 1 <= n <= Reach(tokens, p) ==> !Hit(tokens, vocab, p, n)
  }

  /** The match at `p` spans `e` tokens: the first run of hits at `p` ends
      at length `e`, either because the next candidate misses or because the
      text or the four-token limit ends there. */
  ghost predicate LongestRunAt(tokens: seq<string>, vocab: set<string>, p: nat, e: nat)
    requires p <= |tokens|
  {
    && e <= Reach(tokens, p)
    && RunSoFar(tokens, vocab, p, e)
    && (e < Reach(tokens, p) ==> !Hit(tokens, vocab, p, e + 1))
  }

  ghost predicate IsMatch(tokens: seq<string>, vocab: set<string>, m: Match) {
    && m.start < m.end <= |tokens|
    && LongestRunAt(tokens, vocab, m.start, m.end - m.start)
    && m.genre == NGram(tokens, m.start, m.end)
  }

  /** Where the stretch of unmatched tokens before match `k` (or, for
      `k == |ms|`, after the last match) begins and ends. */
  function GapStart(i: nat, ms: seq<Match>, k: nat): nat
    requires k <= |ms|
  {
    if k == 0 then i else ms[k - 1].end
  }

  function GapEnd(n: nat, ms: seq<Match>, k: nat): nat
    requires k <= |ms|
  {
    if k < |ms| then ms[k].start else n
  }

  predicate InGap(tokens: seq<string>, i: nat, ms: seq<Match>, k: nat, p: nat) {
    k <= |ms| && GapStart(i, ms, k) <= p < GapEnd(|tokens|, ms, k)
  }

  ghost predicate AllMatches(tokens: seq<string>, vocab: set<string>, ms: seq<Match>) {
    forall k :: 0 <= k < |ms| ==> IsMatch(tokens, vocab, ms[k])
  }

  /** Each match starts no earlier than the end of the one before it (the
      first no earlier than `i`). */
  predicate Ordered(i: nat, ms: seq<Match>) {
    forall k :: 0 <= k < |ms| ==> GapStart(i, ms, k) <= ms[k].start
  }

  ghost predicate GapsClear(tokens: seq<string>, vocab: set<string>, i: nat, ms: seq<Match>) {
    forall k: nat, p: nat :: InGap(tokens, i, ms, k, p) ==> p <= |tokens| && NoMatchAt(tokens, vocab, p)
  }

  /** `ms` is a left-to-right, non-overlapping list of matches from token `i`
      on, and no candidate starting at an unmatched token is a hit. */
  ghost predicate ValidScanFrom(tokens: seq<string>, vocab: set<string>, i: nat, ms: seq<Match>) {
    && i <= |tokens|
    && AllMatches(tokens, vocab, ms)
    && Ordered(i, ms)
    && GapsClear(tokens, vocab, i, ms)
  }

  // ---------------------------------------------------------------- proofs

  lemma NGramOne(tokens: seq<string>, p: nat)
    requires p + 1 <= |tokens|
    ensures NGram(tokens, p, p + 1) == tokens[p]
  {
    assert tokens[p..p + 1] == [tokens[p]];
  }

  lemma NGramCons(tokens: seq<string>, p: nat, q: nat)
    requires p + 1 < q <= |tokens|
    ensures NGram(tokens, p, q) == tokens[p] + " " + NGram(tokens, p + 1, q)
  {
    assert tokens[p..q] == [tokens[p]] + tokens[p + 1..q];
    JoinCons(tokens[p], tokens[p + 1..q], " ");
  }

  /** The candidates at `p`, spelled out. */
  lemma NGramsAt(tokens: seq<string>, p: nat)
    ensures p + 1 <= |tokens| ==> NGram(tokens, p, p + 1) == tokens[p]
    ensures p + 2 <= |tokens| ==> NGram(tokens, p, p + 2) == tokens[p] + " " + tokens[p + 1]
    ensures p + 3 <= |tokens| ==> NGram(tokens, p, p + 3) == tokens[p] + " " + tokens[p + 1] + " " + tokens[p + 2]
    ensures p + 4 <= |tokens| ==>
      NGram(tokens, p, p + 4) == tokens[p] + " " + tokens[p + 1] + " " + tokens[p + 2] + " " + tokens[p + 3]
  {
    if p + 1 <= |tokens| {
      NGramOne(tokens, p);
    }
    if p + 2 <= |tokens| {
      NGramOne(tokens, p + 1);
      NGramCons(tokens, p, p + 2);
    }
    if p + 3 <= |tokens| {
      NGramOne(tokens, p + 2);
      NGramCons(tokens, p + 1, p + 3);
      NGramCons(tokens, p, p + 3);
    }
    if p + 4 <= |tokens| {
      NGramOne(tokens, p + 3);
      NGramCons(tokens, p + 2, p + 4);
      NGramCons(tokens, p + 1, p + 4);
      NGramCons(tokens, p, p + 4);
    }
  }


  lemma JoinTwoOrMoreNonEmpty(parts: seq<string>, sep: string)
    requires |parts| >= 2 && |sep| > 0
    ensures Join(parts, sep) != ""
  {
  }

  /** Two or more tokens always join to a non-empty candidate. */
  lemma NGramNonEmpty(tokens: seq<string>, i: nat, j: nat)
    requires i < j <= |tokens|
    ensures j - i >= 2 ==> NGram(tokens, i, j) != ""
  {
    if j - i >= 2 {
      JoinTwoOrMoreNonEmpty(tokens[i..j], " ");
    }
  }

  /** Only one span can be the match at a position. */
  lemma LongestRunUnique(tokens: seq<string>, vocab: set<string>, p: nat, e1: nat, e2: nat)
    requires p <= |tokens|
    requires LongestRunAt(tokens, vocab, p, e1) && LongestRunAt(tokens, vocab, p, e2)
    ensures e1 == e2
  {
    var next1 := Hit(tokens, vocab, p, e1 + 1);
    var next2 := Hit(tokens, vocab, p, e2 + 1);
  }

  lemma NotBoth(tokens: seq<string>, vocab: set<string>, p: nat, e: nat)
    requires p <= |tokens|
    requires LongestRunAt(tokens, vocab, p, e)
    ensures !NoMatchAt(tokens, vocab, p)
  {
    assert Hit(tokens, vocab, p, e);
  }

  lemma ValidScanAtEnd(tokens: seq<string>, vocab: set<string>, ms: seq<Match>)
    ensures ValidScanFrom(tokens, vocab, |tokens|, ms) <==> ms == []
  {
    if ms != [] {
      var first := GapStart(|tokens|, ms, 0);
      var m := IsMatch(tokens, vocab, ms[0]);
    }
  }

  /** A position without a match may be put in front of a valid scan. */
  lemma SkipPosition(tokens: seq<string>, vocab: set<string>, i: nat, ms: seq<Match>)
    requires i < |tokens| && NoMatchAt(tokens, vocab, i)
    requires ValidScanFrom(tokens, vocab, i + 1, ms)
    ensures ValidScanFrom(tokens, vocab, i, ms)
  {
    var next := i + 1;
    assert Ordered(next, ms);
    forall k | 0 <= k < |ms|
      ensures GapStart(i, ms, k) <= ms[k].start
    {
      assert GapStart(next, ms, k) <= ms[k].start;
    }
    assert GapsClear(tokens, vocab, next, ms);
    forall k: nat, p: nat | InGap(tokens, i, ms, k, p)
      ensures p <= |tokens| && NoMatchAt(tokens, vocab, p)
    {
      if p != i {
        assert InGap(tokens, next, ms, k, p);
      }
    }
  }

  lemma ConsMatches(tokens: seq<string>, vocab: set<string>, m: Match, ms: seq<Match>)
    requires IsMatch(tokens, vocab, m) && AllMatches(tokens, vocab, ms)
    ensures AllMatches(tokens, vocab, [m] + ms)
  {
    var ms' := [m] + ms;
    forall k | 0 <= k < |ms'|
      ensures IsMatch(tokens, vocab, ms'[k])
    {
      if k > 0 {
        assert ms'[k] == ms[k - 1];
      }
    }
  }

  lemma ConsOrdered(m: Match, ms: seq<Match>)
    requires m.start <= m.end && Ordered(m.end, ms)
    ensures Ordered(m.start, [m] + ms)
  {
    var ms' := [m] + ms;
    forall k | 0 <= k < |ms'|
      ensures GapStart(m.start, ms', k) <= ms'[k].start
    {
      if k > 0 {
        assert ms'[k] == ms[k - 1];
        assert GapStart(m.start, ms', k) == GapStart(m.end, ms, k - 1);
      }
    }
  }

  lemma ConsGapsClear(tokens: seq<string>, vocab: set<string>, m: Match, ms: seq<Match>)
    requires GapsClear(tokens, vocab, m.end, ms)
    ensures GapsClear(tokens, vocab, m.start, [m] + ms)
  {
    var ms' := [m] + ms;
    forall k: nat, p: nat | InGap(tokens, m.start, ms', k, p)
      ensures p <= |tokens| && NoMatchAt(tokens, vocab, p)
    {
      assert k >= 1;
      assert GapStart(m.start, ms', k) == GapStart(m.end, ms, k - 1);
      assert GapEnd(|tokens|, ms', k) == GapEnd(|tokens|, ms, k - 1);
      assert InGap(tokens, m.end, ms, k - 1, p);
    }
  }

  /** A match at `i` may be put in front of a valid scan from its end. */
  lemma TakeMatch(tokens: seq<string>, vocab: set<string>, i: nat, m: Match, ms: seq<Match>)
    requires IsMatch(tokens, vocab, m) && m.start == i
    requires ValidScanFrom(tokens, vocab, m.end, ms)
    ensures ValidScanFrom(tokens, vocab, i, [m] + ms)
  {
    ConsMatches(tokens, vocab, m, ms);
    ConsOrdered(m, ms);
    ConsGapsClear(tokens, vocab, m, ms);
  }

  /** Conversely, a valid scan from `i` that does not start with a match at
      `i` has a gap there and is a valid scan from `i + 1` ... */
  lemma ValidScanGapHead(tokens: seq<string>, vocab: set<string>, i: nat, ms: seq<Match>)
    requires i < |tokens| && ValidScanFrom(tokens, vocab, i, ms)
    requires |ms| == 0 || ms[0].start > i
    ensures ValidScanFrom(tokens, vocab, i + 1, ms)
  {
    var next := i + 1;
    assert GapsClear(tokens, vocab, i, ms);
    forall k: nat, p: nat | InGap(tokens, next, ms, k, p)
      ensures p <= |tokens| && NoMatchAt(tokens, vocab, p)
    {
      assert InGap(tokens, i, ms, k, p);
    }
    assert Ordered(i, ms);
    forall k | 0 <= k < |ms|
      ensures GapStart(next, ms, k) <= ms[k].start
    {
      assert GapStart(i, ms, k) <= ms[k].start;
    }
  }

  /** ... and one that does is a valid scan from the end of that match on. */
  lemma ValidScanMatchHead(tokens: seq<string>, vocab: set<string>, i: nat, ms: seq<Match>)
    requires ValidScanFrom(tokens, vocab, i, ms)
    requires |ms| > 0 && ms[0].start == i
    ensures IsMatch(tokens, vocab, ms[0])
    ensures ValidScanFrom(tokens, vocab, ms[0].end, ms[1..])
  {
    var rest := ms[1..];
    var e := ms[0].end;
    assert AllMatches(tokens, vocab, ms);
    assert IsMatch(tokens, vocab, ms[0]);
    forall k | 0 <= k < |rest|
      ensures IsMatch(tokens, vocab, rest[k])
    {
      assert rest[k] == ms[k + 1];
    }
    assert Ordered(i, ms);
    forall k | 0 <= k < |rest|
      ensures GapStart(e, rest, k) <= rest[k].start
    {
      assert rest[k] == ms[k + 1];
      assert GapStart(e, rest, k) == GapStart(i, ms, k + 1);
    }
    assert GapsClear(tokens, vocab, i, ms);
    forall k: nat, p: nat | InGap(tokens, e, rest, k, p)
      ensures p <= |tokens| && NoMatchAt(tokens, vocab, p)
    {
      assert GapStart(e, rest, k) == GapStart(i, ms, k + 1);
      assert GapEnd(|tokens|, rest, k) == GapEnd(|tokens|, ms, k + 1);
      assert InGap(tokens, i, ms, k + 1, p);
    }
  }

  /** Where no candidate hits, a valid scan cannot have a match... */
  lemma NoMatchMeansGap(tokens: seq<string>, vocab: set<string>, i: nat, ms: seq<Match>)
    requires i < |tokens| && ValidScanFrom(tokens, vocab, i, ms) && NoMatchAt(tokens, vocab, i)
    ensures |ms| == 0 || ms[0].start > i
  {
    if |ms| > 0 {
      var m := ms[0];
      assert AllMatches(tokens, vocab, ms);
      assert Ordered(i, ms);
      assert IsMatch(tokens, vocab, m);
      var h := Hit(tokens, vocab, m.start, m.end - m.start);
    }
  }

  /** ... and where one does, a valid scan has its next match right there. */
  lemma HitMeansMatch(tokens: seq<string>, vocab: set<string>, i: nat, ms: seq<Match>)
    requires i < |tokens| && ValidScanFrom(tokens, vocab, i, ms) && !NoMatchAt(tokens, vocab, i)
    ensures |ms| > 0 && ms[0].start == i
  {
    assert GapsClear(tokens, vocab, i, ms);
    assert Ordered(i, ms);
    var g := InGap(tokens, i, ms, 0, i);
  }

  /** The scan produces a valid scan: ordered, non-overlapping matches, each
      the first run of vocabulary hits at its position, and no hit at any
      position it passed over. */
  lemma {:induction false} ScanSound(tokens: seq<string>, vocab: set<string>, i: nat)
    requires i <= |tokens|
    ensures ValidScanFrom(tokens, vocab, i, Scan(tokens, vocab, i))
    decreases |tokens| - i
  {
    if i == |tokens| {
      ValidScanAtEnd(tokens, vocab, []);
    } else {
      var (prev, j) := Extend(tokens, vocab, i, i, "");
      ExtendSound(tokens, vocab, i, i, "");
      if prev != "" {
        ScanSound(tokens, vocab, j);
        TakeMatch(tokens, vocab, i, Match(i, j, prev), Scan(tokens, vocab, j));
      } else {
        ScanSound(tokens, vocab, i + 1);
        SkipPosition(tokens, vocab, i, Scan(tokens, vocab, i + 1));
      }
    }
  }

  /** There is only one valid scan, so the declarative reading pins down the
      scan completely. */
  lemma {:induction false} ScanUnique(tokens: seq<string>, vocab: set<string>, i: nat, ms: seq<Match>)
    requires ValidScanFrom(tokens, vocab, i, ms)
    ensures ms == Scan(tokens, vocab, i)
    decreases |tokens| - i, 1
  {
    if i == |tokens| {
      ValidScanAtEnd(tokens, vocab, ms);
    } else if Extend(tokens, vocab, i, i, "").0 != "" {
      ScanUniqueAtMatch(tokens, vocab, i, ms);
    } else {
      ScanUniqueAtGap(tokens, vocab, i, ms);
    }
  }

  lemma {:induction false} ScanUniqueAtMatch(tokens: seq<string>, vocab: set<string>, i: nat, ms: seq<Match>)
    requires i < |tokens| && ValidScanFrom(tokens, vocab, i, ms)
    requires Extend(tokens, vocab, i, i, "").0 != ""
    ensures ms == Scan(tokens, vocab, i)
    decreases |tokens| - i, 0
  {
    var r := Extend(tokens, vocab, i, i, "");
    assert Scan(tokens, vocab, i) == [Match(i, r.1, r.0)] + Scan(tokens, vocab, r.1);
    FirstMatchAgrees(tokens, vocab, i, ms);
    ScanUnique(tokens, vocab, r.1, ms[1..]);
    assert ms == [ms[0]] + ms[1..];
  }

  lemma {:induction false} ScanUniqueAtGap(tokens: seq<string>, vocab: set<string>, i: nat, ms: seq<Match>)
    requires i < |tokens| && ValidScanFrom(tokens, vocab, i, ms)
    requires Extend(tokens, vocab, i, i, "").0 == ""
    ensures ms == Scan(tokens, vocab, i)
    decreases |tokens| - i, 0
  {
    assert Scan(tokens, vocab, i) == Scan(tokens, vocab, i + 1);
    ExtendSound(tokens, vocab, i, i, "");
    NoMatchMeansGap(tokens, vocab, i, ms);
    ValidScanGapHead(tokens, vocab, i, ms);
    ScanUnique(tokens, vocab, i + 1, ms);
  }

  /** Where the scan finds a match, a valid scan has the same match first. */
  lemma FirstMatchAgrees(tokens: seq<string>, vocab: set<string>, i: nat, ms: seq<Match>)
    requires i < |tokens| && ValidScanFrom(tokens, vocab, i, ms)
    requires Extend(tokens, vocab, i, i, "").0 != ""
    ensures |ms| > 0 && ms[0] == Match(i, Extend(tokens, vocab, i, i, "").1, Extend(tokens, vocab, i, i, "").0)
    ensures ValidScanFrom(tokens, vocab, ms[0].end, ms[1..])
  {
    var r := Extend(tokens, vocab, i, i, "");
    ExtendSound(tokens, vocab, i, i, "");
    NotBoth(tokens, vocab, i, r.1 - i);
    HitMeansMatch(tokens, vocab, i, ms);
    ValidScanMatchHead(tokens, vocab, i, ms);
    LongestRunUnique(tokens, vocab, i, r.1 - i, ms[0].end - i);
  }

  /** What the scan promises about the matches it returns: each lies within
      the text, spans one to four tokens, is a non-empty vocabulary entry made
      of exactly those tokens, and comes strictly after the previous one. */
  lemma ScanMatches(tokens: seq<string>, vocab: set<string>)
    ensures forall k :: 0 <= k < |Scan(tokens, vocab, 0)| ==>
      var m := Scan(tokens, vocab, 0)[k];
      && m.start < m.end <= |tokens| && m.end - m.start <= MaxTokens
      && m.genre == NGram(tokens, m.start, m.end) && m.genre in vocab && m.genre != ""
    ensures forall k :: 0 < k < |Scan(tokens, vocab, 0)| ==>
      Scan(tokens, vocab, 0)[k - 1].end <= Scan(tokens, vocab, 0)[k].start
  {
    var ms := Scan(tokens, vocab, 0);
    ScanSound(tokens, vocab, 0);
    forall k | 0 < k < |ms|
      ensures ms[k - 1].end <= ms[k].start
    {
      assert GapStart(0, ms, k) <= ms[k].start;
    }
    forall k | 0 <= k < |ms|
      ensures ms[k].genre in vocab && ms[k].genre != ""
    {
      assert Hit(tokens, vocab, ms[k].start, ms[k].end - ms[k].start);
    }
  }

  /** Every extracted genre is a non-empty vocabulary entry; so an empty
      vocabulary yields nothing. */
  lemma ExtractedGenresInVocabulary(text: string, vocab: set<string>)
    ensures ExtractGenres(text, vocab) <= vocab
    ensures "" !in ExtractGenres(text, vocab)
    ensures vocab == {} ==> ExtractGenres(text, vocab) == {}
  {
    ScanMatches(Tokens(text), vocab);
  }

  // ---------------------------------------------------------------- artists

  /** Every segment with surrounding white space removed. */
  function TrimAll(segments: seq<string>): (r: seq<string>)
    ensures |r| == |segments|
    ensures forall i :: 0 <= i < |r| ==> r[i] == TrimSpace(segments[i])
  {
    seq(|segments|, i requires 0 <= i < |segments| => TrimSpace(segments[i]))
  }

  /** The non-empty strings of `xs`, in order. */
  function DropEmpty(xs: seq<string>): (r: seq<string>)
    ensures forall x :: x in r ==> x in xs && x != ""
  {
    if |xs| == 0 then []
    else (if xs[0] != "" then [xs[0]] else []) + DropEmpty(xs[1..])
  }

  /** The part of `extractArtistsFromTitle` after the separator regex: lower
      the text whose separators are already commas, split on commas, trim,
      and drop empty names. */
  function SplitArtists(separated: string): seq<string> {
    DropEmpty(TrimAll(Split(Lower(separated), ",")))
  }

  /** `extractArtistsFromTitle`. The regex that rewrites every separator
      (",", ":", "&", "feat.", "vs", "presents", bracketed spans, ...) to a
      comma is the parameter `separate`. */
  function ExtractArtists(title: string, separate: string -> string): seq<string> {
    SplitArtists(separate(title))
  }

  lemma LowerCharsAreLower(s: string)
    ensures forall c :: c in Lower(s) ==> LowerChar(c) == c
  {
  }

  lemma IsLowerFromChars(s: string)
    requires forall c :: c in s ==> LowerChar(c) == c
    ensures IsLower(s)
  {
    assert forall i :: 0 <= i < |s| ==> s[i] in s;
  }

  /** A well-formed artist name: non-empty, trimmed, lower-case, comma-free. */
  predicate WellFormedArtist(a: string) {
    a != "" && TrimSpace(a) == a && IsLower(a) && ',' !in a
  }

  lemma TrimmedSegmentWellFormed(seg: string, low: string)
    requires ',' !in seg
    requires forall x :: x in seg ==> x in low
    requires forall c :: c in low ==> LowerChar(c) == c
    requires TrimSpace(seg) != ""
    ensures WellFormedArtist(TrimSpace(seg))
  {
    var a := TrimSpace(seg);
    TrimSpaceIdempotent(seg);
    IsLowerFromChars(a);
  }

  /** Every artist name is non-empty, trimmed, lower-case and free of
      commas. */
  lemma ArtistsWellFormed(separated: string)
    ensures forall a :: a in SplitArtists(separated) ==> WellFormedArtist(a)
  {
    var low := Lower(separated);
    var segs := Split(low, ",");
    SplitPiecesAvoidChar(low, ',');
    SplitPiecesChars(low, ",");
    LowerCharsAreLower(separated);
    var trimmed := TrimAll(segs);
    forall a | a in SplitArtists(separated)
      ensures WellFormedArtist(a)
    {
      var i :| 0 <= i < |trimmed| && trimmed[i] == a;
      TrimmedSegmentWellFormed(segs[i], low);
    }
  }

  /** `DropEmpty` keeps exactly the non-empty strings, in their original
      order: `idx` says where each kept string came from. */
  lemma {:induction false} DropEmptyInOrder(xs: seq<string>) returns (idx: seq<nat>)
    ensures |idx| == |DropEmpty(xs)|
    ensures forall k :: 0 <= k < |idx| ==> idx[k] < |xs| && DropEmpty(xs)[k] == xs[idx[k]]
    ensures forall k, l :: 0 <= k < l < |idx| ==> idx[k] < idx[l]
    ensures forall j :: 0 <= j < |xs| && xs[j] != "" ==> j in idx
    decreases |xs|
  {
    if |xs| == 0 {
      idx := [];
    } else {
      var rest := DropEmptyInOrder(xs[1..]);
      var shifted := ShiftPositions(xs, DropEmpty(xs[1..]), rest);
      if xs[0] != "" {
        idx := PrependFirst(xs, shifted);
      } else {
        SkipEmptyFirst(xs, shifted);
        idx := shifted;
      }
    }
  }

  /** The position of a non-empty head put in front of the tail's kept
      positions. */
  lemma PrependFirst(xs: seq<string>, shifted: seq<nat>) returns (idx: seq<nat>)
    requires |xs| > 0 && xs[0] != ""
    requires |shifted| == |DropEmpty(xs[1..])|
    requires forall k :: 0 <= k < |shifted| ==> 1 <= shifted[k] < |xs| && DropEmpty(xs[1..])[k] == xs[shifted[k]]
    requires forall k, l :: 0 <= k < l < |shifted| ==> shifted[k] < shifted[l]
    requires forall j :: 1 <= j < |xs| && xs[j] != "" ==> j in shifted
    ensures |idx| == |DropEmpty(xs)|
    ensures forall k :: 0 <= k < |idx| ==> idx[k] < |xs| && DropEmpty(xs)[k] == xs[idx[k]]
    ensures forall k, l :: 0 <= k < l < |idx| ==> idx[k] < idx[l]
    ensures forall j :: 0 <= j < |xs| && xs[j] != "" ==> j in idx
  {
    idx := [0] + shifted;
    var kept := DropEmpty(xs);
    assert kept == [xs[0]] + DropEmpty(xs[1..]);
    forall k | 1 <= k < |idx|
      ensures idx[k] == shifted[k - 1] && kept[k] == DropEmpty(xs[1..])[k - 1]
    {
    }
    forall j | 0 <= j < |xs| && xs[j] != ""
      ensures j in idx
    {
      if j > 0 {
        var k :| 0 <= k < |shifted| && shifted[k] == j;
        assert idx[k + 1] == j;
      }
    }
  }

  /** An empty head adds no position. */
  lemma SkipEmptyFirst(xs: seq<string>, shifted: seq<nat>)
    requires |xs| > 0 && xs[0] == ""
    requires |shifted| == |DropEmpty(xs[1..])|
    requires forall k :: 0 <= k < |shifted| ==> 1 <= shifted[k] < |xs| && DropEmpty(xs[1..])[k] == xs[shifted[k]]
    requires forall j :: 1 <= j < |xs| && xs[j] != "" ==> j in shifted
    ensures |shifted| == |DropEmpty(xs)|
    ensures forall k :: 0 <= k < |shifted| ==> shifted[k] < |xs| && DropEmpty(xs)[k] == xs[shifted[k]]
    ensures forall j :: 0 <= j < |xs| && xs[j] != "" ==> j in shifted
  {
    assert DropEmpty(xs) == DropEmpty(xs[1..]);
  }

  /** Positions in the tail of `xs`, moved to positions in `xs`; `kept`
      lists the strings found at them. */
  lemma ShiftPositions(xs: seq<string>, kept: seq<string>, rest: seq<nat>) returns (shifted: seq<nat>)
    requires |xs| > 0
    requires |rest| == |kept|
    requires forall k :: 0 <= k < |rest| ==> rest[k] < |xs| - 1 && kept[k] == xs[1..][rest[k]]
    requires forall k, l :: 0 <= k < l < |rest| ==> rest[k] < rest[l]
    requires forall j :: 0 <= j < |xs| - 1 && xs[1..][j] != "" ==> j in rest
    ensures |shifted| == |rest|
    ensures forall k :: 0 <= k < |shifted| ==> 1 <= shifted[k] < |xs| && kept[k] == xs[shifted[k]]
    ensures forall k, l :: 0 <= k < l < |shifted| ==> shifted[k] < shifted[l]
    ensures forall j :: 1 <= j < |xs| && xs[j] != "" ==> j in shifted
  {
    var tail := xs[1..];
    shifted := seq(|rest|, k requires 0 <= k < |rest| => rest[k] + 1);
    forall k | 0 <= k < |shifted|
      ensures 1 <= shifted[k] < |xs| && kept[k] == xs[shifted[k]]
    {
      assert tail[rest[k]] == xs[rest[k] + 1];
    }
    forall k, l | 0 <= k < l < |shifted|
      ensures shifted[k] < shifted[l]
    {
      assert rest[k] < rest[l];
    }
    forall j | 1 <= j < |xs| && xs[j] != ""
      ensures j in shifted
    {
      assert tail[j - 1] == xs[j];
      assert j - 1 in rest;
      var k :| 0 <= k < |rest| && rest[k] == j - 1;
      assert shifted[k] == j;
    }
  }

  /** The artists are the trimmed, non-blank comma-separated segments of the
      lowered text, in their order of appearance. */
  lemma ArtistsInOrder(separated: string) returns (idx: seq<nat>)
    ensures var segs := Split(Lower(separated), ",");
      && |idx| == |SplitArtists(separated)|
      && (forall k :: 0 <= k < |idx| ==> idx[k] < |segs| && SplitArtists(separated)[k] == TrimSpace(segs[idx[k]]))
      && (forall k, l :: 0 <= k < l < |idx| ==> idx[k] < idx[l])
      && (forall j :: 0 <= j < |segs| && TrimSpace(segs[j]) != "" ==> j in idx)
  {
    var segs := Split(Lower(separated), ",");
    idx := DropEmptyInOrder(TrimAll(segs));
  }
}
