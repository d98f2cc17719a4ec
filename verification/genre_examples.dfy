/** The five literal cases of genre/genreLookup_test.go, with its eight-genre
    vocabulary, proved about the model of the genre scan. Each text is given
    as its list of space-separated words, which join with single spaces to
    the test's literal text; for the three short texts the case lemma states
    that join as well. */
module GenreExamples {
  import opened Text
  import opened GenreText

  const Vocab: set<string> := {"elektro", "house", "tech house", "techno", "jazz", "jazz fusion", "disco", "deep house"}

  /** How one space-free, hyphen-free word of a test text normalises: either
      to its lowered form, when that consists of kept characters only, or to
      the empty token, when every character is deleted. */
  predicate WordForm(w: string, t: string) {
    && ' ' !in w && '-' !in w
    && ((Lower(w) == t && forall c :: c in t ==> Kept(c))
        || (t == "" && forall c :: c in w ==> !Kept(LowerChar(c))))
  }

  predicate WordForms(ws: seq<string>, ts: seq<string>) {
    |ws| == |ts| && forall i :: 0 <= i < |ws| ==> WordForm(ws[i], ts[i])
  }

  lemma WordFormNormalizes(w: string, t: string)
    requires WordForm(w, t)
    ensures Normalize(w) == t
  {
    assert ReplaceChar(w, '-', ' ') == w;
    if Lower(w) == t && forall c :: c in t ==> Kept(c) {
      DropUnkeptAllKept(t);
    } else {
      DropUnkeptNoneKept(Lower(w));
    }
  }

  lemma {:induction false} DropUnkeptNoneKept(s: string)
    requires forall c :: c in s ==> !Kept(c)
    ensures DropUnkept(s) == ""
    decreases |s|
  {
    if |s| > 0 {
      assert s[0] in s;
      assert forall c :: c in s[1..] ==> c in s;
      DropUnkeptNoneKept(s[1..]);
    }
  }

  /** The tokens of a text made of words in known forms. */
  lemma TokensOfWordForms(ws: seq<string>, ts: seq<string>)
    requires |ws| >= 1 && WordForms(ws, ts)
    ensures Tokens(Join(ws, " ")) == ts
  {
    TokensOfWords(ws);
    forall i | 0 <= i < |ws|
      ensures NormalizeAll(ws)[i] == ts[i]
    {
      WordFormNormalizes(ws[i], ts[i]);
    }
  }

  /** `g` is neither the word `t` nor begins with `t` and a space. */
  predicate Unled(g: string, t: string)
    decreases |t|
  {
    if |t| == 0 then |g| > 0 && g[0] != ' '
    else |g| == 0 || g[0] != t[0] || Unled(g[1..], t[1..])
  }

  lemma {:induction false} UnledMeans(g: string, t: string)
    requires Unled(g, t)
    ensures g != t && !(t + " " <= g)
    decreases |t|
  {
    if |t| > 0 && |g| > 0 && g[0] == t[0] {
      UnledMeans(g[1..], t[1..]);
      assert (t + " ")[1..] == t[1..] + " ";
    }
  }

  /** Every candidate at `p` is the token `t` there, alone or followed by a
      space and more; so when no genre is `t` or begins with `t` and a space,
      nothing matches at `p`. */
  lemma NoMatchByFirstToken(tokens: seq<string>, vocab: set<string>, p: nat, t: string)
    requires p < |tokens| && tokens[p] == t
    requires forall g :: g in vocab ==> Unled(g, t)
    ensures NoMatchAt(tokens, vocab, p)
  {
    forall n | 1 <= n <= Reach(tokens, p)
      ensures !Hit(tokens, vocab, p, n)
    {
      if n == 1 {
        NGramOne(tokens, p);
      } else {
        var parts := tokens[p..p + n];
        assert parts[0] == tokens[p];
        assert NGram(tokens, p, p + n) == tokens[p] + " " + Join(parts[1..], " ");
      }
      var gram := NGram(tokens, p, p + n);
      if gram in vocab {
        UnledMeans(gram, t);
      }
    }
  }

  /** The common case of the above: no genre begins with the first
      character of `t`. */
  lemma NoMatchByFirstChar(tokens: seq<string>, vocab: set<string>, p: nat, t: string)
    requires p < |tokens| && tokens[p] == t && |t| > 0
    requires forall g :: g in vocab ==> |g| > 0 && g[0] != t[0]
    ensures NoMatchAt(tokens, vocab, p)
  {
    NoMatchByFirstToken(tokens, vocab, p, t);
  }

  /** The candidates at `p` are those of the window `w` of tokens starting
      there. */
  lemma WindowHits(tokens: seq<string>, vocab: set<string>, p: nat, w: seq<string>, n: nat)
    requires p + |w| <= |tokens| && w == tokens[p..p + |w|]
    requires 1 <= n <= |w|
    ensures NGram(tokens, p, p + n) == NGram(w, 0, n)
    ensures Hit(tokens, vocab, p, n) <==> Hit(w, vocab, 0, n)
  {
    assert tokens[p..p + n] == w[0..n];
  }

  /** A run of hits ending at length `e` in the window `w`, followed by a
      miss or by the end of the candidates, is the match at `p`. */
  lemma MatchInWindow(tokens: seq<string>, vocab: set<string>, p: nat, w: seq<string>, e: nat)
    requires p + |w| <= |tokens| && w == tokens[p..p + |w|]
    requires 1 <= e <= |w| <= Reach(tokens, p)
    requires e < Reach(tokens, p) ==> e < |w|
    requires RunSoFar(w, vocab, 0, e)
    requires e < |w| ==> !Hit(w, vocab, 0, e + 1)
    ensures IsMatch(tokens, vocab, Match(p, p + e, NGram(w, 0, e)))
  {
    forall n | 1 <= n <= |w|
      ensures Hit(tokens, vocab, p, n) <==> Hit(w, vocab, 0, n)
    {
      WindowHits(tokens, vocab, p, w, n);
    }
    WindowHits(tokens, vocab, p, w, e);
  }

  /** One step of the scan past an unmatched position, with the next
      position named. */
  lemma SkipTo(tokens: seq<string>, vocab: set<string>, i: nat, next: nat, ms: seq<Match>)
    requires next == i + 1 && i < |tokens| && NoMatchAt(tokens, vocab, i)
    requires ValidScanFrom(tokens, vocab, next, ms)
    ensures ValidScanFrom(tokens, vocab, i, ms)
  {
    SkipPosition(tokens, vocab, i, ms);
  }

  /** One step of the scan over the match of tokens `i` up to `e`. */
  lemma TakeMatchTo(tokens: seq<string>, vocab: set<string>, i: nat, e: nat, genre: string, ms: seq<Match>, all: seq<Match>)
    requires IsMatch(tokens, vocab, Match(i, e, genre))
    requires ValidScanFrom(tokens, vocab, e, ms)
    requires all == [Match(i, e, genre)] + ms
    ensures ValidScanFrom(tokens, vocab, i, all)
  {
    TakeMatch(tokens, vocab, i, Match(i, e, genre), ms);
  }

  lemma FormOfHash()
    ensures WordForm("#", "")
  {
  }

  lemma FormOf2025()
    ensures WordForm("2025", "2025")
  {
  }

  lemma FormOfDeep()
    ensures WordForm("Deep", "deep")
  {
  }

  lemma FormOfDisco()
    ensures WordForm("Disco", "disco")
  {
  }

  lemma FormOfDiva()
    ensures WordForm("Diva", "diva")
  {
  }

  lemma FormOfElektro()
    ensures WordForm("Elektro", "elektro")
  {
  }

  lemma FormOfEnergy()
    ensures WordForm("Energy", "energy")
  {
  }

  lemma FormOfHouse()
    ensures WordForm("House", "house")
  {
  }

  lemma FormOfIcon()
    ensures WordForm("Icon", "icon")
  {
  }

  lemma FormOfQueer()
    ensures WordForm("Queer", "queer")
  {
  }

  lemma FormOfResident()
    ensures WordForm("Resident", "resident")
  {
  }

  lemma FormOfShow()
    ensures WordForm("Show", "show")
  {
  }

  lemma FormOfSpecial()
    ensures WordForm("Special", "special")
  {
  }

  lemma FormOfTech()
    ensures WordForm("Tech", "tech")
  {
  }

  lemma FormOfTechno()
    ensures WordForm("Techno", "techno")
  {
  }

  lemma FormOfThis()
    ensures WordForm("This", "this")
  {
  }

  lemma FormOfAnd()
    ensures WordForm("and", "and")
  {
  }

  lemma FormOfBand()
    ensures WordForm("band", "band")
  {
  }

  lemma FormOfCool()
    ensures WordForm("cool", "cool")
  {
  }

  lemma FormOfFusion()
    ensures WordForm("fusion", "fusion")
  {
  }

  lemma FormOfIs()
    ensures WordForm("is", "is")
  {
  }

  lemma FormOfJazz()
    ensures WordForm("jazz", "jazz")
  {
  }

  lemma FormOfPays()
    ensures WordForm("pays", "pays")
  {
  }

  // ---------------------------------------------------------------- case 1
  const Words1: seq<string> := ["2025", "#", "Elektro", "#", "Resident", "#", "Show", "#", "Tech", "House", "#", "Techno"]
  const Tokens1: seq<string> := ["2025", "", "elektro", "", "resident", "", "show", "", "tech", "house", "", "techno"]
  const Matches1: seq<Match> := [Match(2, 3, "elektro"), Match(8, 10, "tech house"), Match(11, 12, "techno")]

  lemma FormsCase1From0()
    ensures forall i :: 0 <= i < 6 ==> WordForm(Words1[i], Tokens1[i])
  {
    forall i | 0 <= i < 6
      ensures WordForm(Words1[i], Tokens1[i])
    {
      if i == 0 { FormOf2025(); }
      else if i == 1 { FormOfHash(); }
      else if i == 2 { FormOfElektro(); }
      else if i == 3 { FormOfHash(); }
      else if i == 4 { FormOfResident(); }
      else if i == 5 { FormOfHash(); }
    }
  }

  lemma FormsCase1From6()
    ensures forall i :: 6 <= i < 12 ==> WordForm(Words1[i], Tokens1[i])
  {
    forall i | 6 <= i < 12
      ensures WordForm(Words1[i], Tokens1[i])
    {
      if i == 6 { FormOfShow(); }
      else if i == 7 { FormOfHash(); }
      else if i == 8 { FormOfTech(); }
      else if i == 9 { FormOfHouse(); }
      else if i == 10 { FormOfHash(); }
      else if i == 11 { FormOfTechno(); }
    }
  }

  lemma TokensCase1()
    ensures Tokens(Join(Words1, " ")) == Tokens1
  {
    FormsCase1From0();
    FormsCase1From6();
    TokensOfWordForms(Words1, Tokens1);
  }

  lemma GramsCase1At11()
    ensures NGram(["techno"], 0, 1) == "techno"
  {
    NGramsAt(["techno"], 0);
  }

  lemma MatchCase1At11()
    ensures IsMatch(Tokens1, Vocab, Match(11, 12, "techno"))
  {
    var w := ["techno"];
    assert Tokens1[11] == "techno";
    assert Tokens1[11..12] == w;
    GramsCase1At11();
    MatchInWindow(Tokens1, Vocab, 11, w, 1);
  }

  lemma ScanCase1From11()
    ensures ValidScanFrom(Tokens1, Vocab, 11, [Match(11, 12, "techno")])
  {
    ValidScanAtEnd(Tokens1, Vocab, []);
    MatchCase1At11();
    TakeMatchTo(Tokens1, Vocab, 11, 12, "techno", [], [Match(11, 12, "techno")]);
  }

  lemma NoMatchCase1At10()
    ensures NoMatchAt(Tokens1, Vocab, 10)
  {
    NoMatchByFirstToken(Tokens1, Vocab, 10, "");
  }

  lemma ScanCase1From10()
    ensures ValidScanFrom(Tokens1, Vocab, 10, [Match(11, 12, "techno")])
  {
    ScanCase1From11();
    NoMatchCase1At10();
    SkipTo(Tokens1, Vocab, 10, 11, [Match(11, 12, "techno")]);
  }

  lemma GramsCase1At8()
    ensures NGram(["tech", "house", ""], 0, 1) == "tech"
    ensures NGram(["tech", "house", ""], 0, 2) == "tech house"
    ensures NGram(["tech", "house", ""], 0, 3) == "tech house "
  {
    NGramsAt(["tech", "house", ""], 0);
  }

  lemma MatchCase1At8()
    ensures IsMatch(Tokens1, Vocab, Match(8, 10, "tech house"))
  {
    var w := ["tech", "house", ""];
    assert Tokens1[8] == "tech" && Tokens1[9] == "house" && Tokens1[10] == "";
    assert Tokens1[8..11] == w;
    GramsCase1At8();
    MatchInWindow(Tokens1, Vocab, 8, w, 2);
  }

  lemma ScanCase1From8()
    ensures ValidScanFrom(Tokens1, Vocab, 8, [Match(8, 10, "tech house"), Match(11, 12, "techno")])
  {
    ScanCase1From10();
    MatchCase1At8();
    TakeMatchTo(Tokens1, Vocab, 8, 10, "tech house", [Match(11, 12, "techno")], [Match(8, 10, "tech house"), Match(11, 12, "techno")]);
  }

  lemma NoMatchCase1At7()
    ensures NoMatchAt(Tokens1, Vocab, 7)
  {
    NoMatchByFirstToken(Tokens1, Vocab, 7, "");
  }

  lemma ScanCase1From7()
    ensures ValidScanFrom(Tokens1, Vocab, 7, [Match(8, 10, "tech house"), Match(11, 12, "techno")])
  {
    ScanCase1From8();
    NoMatchCase1At7();
    SkipTo(Tokens1, Vocab, 7, 8, [Match(8, 10, "tech house"), Match(11, 12, "techno")]);
  }

  lemma NoMatchCase1At6()
    ensures NoMatchAt(Tokens1, Vocab, 6)
  {
    NoMatchByFirstChar(Tokens1, Vocab, 6, "show");
  }

  lemma ScanCase1From6()
    ensures ValidScanFrom(Tokens1, Vocab, 6, [Match(8, 10, "tech house"), Match(11, 12, "techno")])
  {
    ScanCase1From7();
    NoMatchCase1At6();
    SkipTo(Tokens1, Vocab, 6, 7, [Match(8, 10, "tech house"), Match(11, 12, "techno")]);
  }

  lemma NoMatchCase1At5()
    ensures NoMatchAt(Tokens1, Vocab, 5)
  {
    NoMatchByFirstToken(Tokens1, Vocab, 5, "");
  }

  lemma ScanCase1From5()
    ensures ValidScanFrom(Tokens1, Vocab, 5, [Match(8, 10, "tech house"), Match(11, 12, "techno")])
  {
    ScanCase1From6();
    NoMatchCase1At5();
    SkipTo(Tokens1, Vocab, 5, 6, [Match(8, 10, "tech house"), Match(11, 12, "techno")]);
  }

  lemma NoMatchCase1At4()
    ensures NoMatchAt(Tokens1, Vocab, 4)
  {
    NoMatchByFirstChar(Tokens1, Vocab, 4, "resident");
  }

  lemma ScanCase1From4()
    ensures ValidScanFrom(Tokens1, Vocab, 4, [Match(8, 10, "tech house"), Match(11, 12, "techno")])
  {
    ScanCase1From5();
    NoMatchCase1At4();
    SkipTo(Tokens1, Vocab, 4, 5, [Match(8, 10, "tech house"), Match(11, 12, "techno")]);
  }

  lemma NoMatchCase1At3()
    ensures NoMatchAt(Tokens1, Vocab, 3)
  {
    NoMatchByFirstToken(Tokens1, Vocab, 3, "");
  }

  lemma ScanCase1From3()
    ensures ValidScanFrom(Tokens1, Vocab, 3, [Match(8, 10, "tech house"), Match(11, 12, "techno")])
  {
    ScanCase1From4();
    NoMatchCase1At3();
    SkipTo(Tokens1, Vocab, 3, 4, [Match(8, 10, "tech house"), Match(11, 12, "techno")]);
  }

  lemma GramsCase1At2()
    ensures NGram(["elektro", ""], 0, 1) == "elektro"
    ensures NGram(["elektro", ""], 0, 2) == "elektro "
  {
    NGramsAt(["elektro", ""], 0);
  }

  lemma MatchCase1At2()
    ensures IsMatch(Tokens1, Vocab, Match(2, 3, "elektro"))
  {
    var w := ["elektro", ""];
    assert Tokens1[2] == "elektro" && Tokens1[3] == "";
    assert Tokens1[2..4] == w;
    GramsCase1At2();
    MatchInWindow(Tokens1, Vocab, 2, w, 1);
  }

  lemma ScanCase1From2()
    ensures ValidScanFrom(Tokens1, Vocab, 2, [Match(2, 3, "elektro"), Match(8, 10, "tech house"), Match(11, 12, "techno")])
  {
    ScanCase1From3();
    MatchCase1At2();
    TakeMatchTo(Tokens1, Vocab, 2, 3, "elektro", [Match(8, 10, "tech house"), Match(11, 12, "techno")], [Match(2, 3, "elektro"), Match(8, 10, "tech house"), Match(11, 12, "techno")]);
  }

  lemma NoMatchCase1At1()
    ensures NoMatchAt(Tokens1, Vocab, 1)
  {
    NoMatchByFirstToken(Tokens1, Vocab, 1, "");
  }

  lemma ScanCase1From1()
    ensures ValidScanFrom(Tokens1, Vocab, 1, [Match(2, 3, "elektro"), Match(8, 10, "tech house"), Match(11, 12, "techno")])
  {
    ScanCase1From2();
    NoMatchCase1At1();
    SkipTo(Tokens1, Vocab, 1, 2, [Match(2, 3, "elektro"), Match(8, 10, "tech house"), Match(11, 12, "techno")]);
  }

  lemma NoMatchCase1At0()
    ensures NoMatchAt(Tokens1, Vocab, 0)
  {
    NoMatchByFirstChar(Tokens1, Vocab, 0, "2025");
  }

  lemma ScanCase1From0()
    ensures ValidScanFrom(Tokens1, Vocab, 0, [Match(2, 3, "elektro"), Match(8, 10, "tech house"), Match(11, 12, "techno")])
  {
    ScanCase1From1();
    NoMatchCase1At0();
    SkipTo(Tokens1, Vocab, 0, 1, [Match(2, 3, "elektro"), Match(8, 10, "tech house"), Match(11, 12, "techno")]);
  }

  lemma ScanCase1()
    ensures Scan(Tokens1, Vocab, 0) == Matches1
  {
    ScanCase1From0();
    ScanUnique(Tokens1, Vocab, 0, Matches1);
  }

  lemma GenresCase1()
    ensures GenresOf(Matches1) == {"elektro", "tech house", "techno"}
  {
  }

  /** The text "2025 # Elektro # Resident # Show # Tech House # Techno", extracted with the test vocabulary, yields {elektro, tech house, techno}
      (genre/genreLookup_test.go:25-28). "tech house" is taken whole, so "house" is not reported on its own. */
  lemma Case1()
    ensures ExtractGenres(Join(Words1, " "), Vocab) == {"elektro", "tech house", "techno"}
  {
    TokensCase1();
    ScanCase1();
    GenresCase1();
  }

  // ---------------------------------------------------------------- case 2
  const Words2: seq<string> := ["This", "band", "pays", "jazz", "fusion"]
  const Tokens2: seq<string> := ["this", "band", "pays", "jazz", "fusion"]
  const Matches2: seq<Match> := [Match(3, 5, "jazz fusion")]

  lemma FormsCase2From0()
    ensures forall i :: 0 <= i < 5 ==> WordForm(Words2[i], Tokens2[i])
  {
    forall i | 0 <= i < 5
      ensures WordForm(Words2[i], Tokens2[i])
    {
      if i == 0 { FormOfThis(); }
      else if i == 1 { FormOfBand(); }
      else if i == 2 { FormOfPays(); }
      else if i == 3 { FormOfJazz(); }
      else if i == 4 { FormOfFusion(); }
    }
  }

  lemma TokensCase2()
    ensures Tokens(Join(Words2, " ")) == Tokens2
  {
    FormsCase2From0();
    TokensOfWordForms(Words2, Tokens2);
  }

  lemma GramsCase2At3()
    ensures NGram(["jazz", "fusion"], 0, 1) == "jazz"
    ensures NGram(["jazz", "fusion"], 0, 2) == "jazz fusion"
  {
    NGramsAt(["jazz", "fusion"], 0);
  }

  lemma MatchCase2At3()
    ensures IsMatch(Tokens2, Vocab, Match(3, 5, "jazz fusion"))
  {
    var w := ["jazz", "fusion"];
    assert Tokens2[3] == "jazz" && Tokens2[4] == "fusion";
    assert Tokens2[3..5] == w;
    GramsCase2At3();
    MatchInWindow(Tokens2, Vocab, 3, w, 2);
  }

  lemma ScanCase2From3()
    ensures ValidScanFrom(Tokens2, Vocab, 3, [Match(3, 5, "jazz fusion")])
  {
    ValidScanAtEnd(Tokens2, Vocab, []);
    MatchCase2At3();
    TakeMatchTo(Tokens2, Vocab, 3, 5, "jazz fusion", [], [Match(3, 5, "jazz fusion")]);
  }

  lemma NoMatchCase2At2()
    ensures NoMatchAt(Tokens2, Vocab, 2)
  {
    NoMatchByFirstChar(Tokens2, Vocab, 2, "pays");
  }

  lemma ScanCase2From2()
    ensures ValidScanFrom(Tokens2, Vocab, 2, [Match(3, 5, "jazz fusion")])
  {
    ScanCase2From3();
    NoMatchCase2At2();
    SkipTo(Tokens2, Vocab, 2, 3, [Match(3, 5, "jazz fusion")]);
  }

  lemma NoMatchCase2At1()
    ensures NoMatchAt(Tokens2, Vocab, 1)
  {
    NoMatchByFirstChar(Tokens2, Vocab, 1, "band");
  }

  lemma ScanCase2From1()
    ensures ValidScanFrom(Tokens2, Vocab, 1, [Match(3, 5, "jazz fusion")])
  {
    ScanCase2From2();
    NoMatchCase2At1();
    SkipTo(Tokens2, Vocab, 1, 2, [Match(3, 5, "jazz fusion")]);
  }

  lemma NoMatchCase2At0()
    ensures NoMatchAt(Tokens2, Vocab, 0)
  {
    NoMatchByFirstToken(Tokens2, Vocab, 0, "this");
  }

  lemma ScanCase2From0()
    ensures ValidScanFrom(Tokens2, Vocab, 0, [Match(3, 5, "jazz fusion")])
  {
    ScanCase2From1();
    NoMatchCase2At0();
    SkipTo(Tokens2, Vocab, 0, 1, [Match(3, 5, "jazz fusion")]);
  }

  lemma ScanCase2()
    ensures Scan(Tokens2, Vocab, 0) == Matches2
  {
    ScanCase2From0();
    ScanUnique(Tokens2, Vocab, 0, Matches2);
  }

  lemma GenresCase2()
    ensures GenresOf(Matches2) == {"jazz fusion"}
  {
  }

  /** The words join to the test's literal text. */
  lemma Text2()
    ensures Join(Words2, " ") == "This band pays jazz fusion"
  {
  }

  /** The text "This band pays jazz fusion", extracted with the test vocabulary, yields {jazz fusion}
      (genre/genreLookup_test.go:40-43). The run of hits at "jazz" goes on to "jazz fusion", and only the last hit is kept. */
  lemma Case2()
    ensures Join(Words2, " ") == "This band pays jazz fusion"
    ensures ExtractGenres(Join(Words2, " "), Vocab) == {"jazz fusion"}
  {
    Text2();
    TokensCase2();
    ScanCase2();
    GenresCase2();
  }

  // ---------------------------------------------------------------- case 3
  const Words3: seq<string> := ["This", "band", "pays", "jazz"]
  const Tokens3: seq<string> := ["this", "band", "pays", "jazz"]
  const Matches3: seq<Match> := [Match(3, 4, "jazz")]

  lemma FormsCase3From0()
    ensures forall i :: 0 <= i < 4 ==> WordForm(Words3[i], Tokens3[i])
  {
    forall i | 0 <= i < 4
      ensures WordForm(Words3[i], Tokens3[i])
    {
      if i == 0 { FormOfThis(); }
      else if i == 1 { FormOfBand(); }
      else if i == 2 { FormOfPays(); }
      else if i == 3 { FormOfJazz(); }
    }
  }

  lemma TokensCase3()
    ensures Tokens(Join(Words3, " ")) == Tokens3
  {
    FormsCase3From0();
    TokensOfWordForms(Words3, Tokens3);
  }

  lemma GramsCase3At3()
    ensures NGram(["jazz"], 0, 1) == "jazz"
  {
    NGramsAt(["jazz"], 0);
  }

  lemma MatchCase3At3()
    ensures IsMatch(Tokens3, Vocab, Match(3, 4, "jazz"))
  {
    var w := ["jazz"];
    assert Tokens3[3] == "jazz";
    assert Tokens3[3..4] == w;
    GramsCase3At3();
    MatchInWindow(Tokens3, Vocab, 3, w, 1);
  }

  lemma ScanCase3From3()
    ensures ValidScanFrom(Tokens3, Vocab, 3, [Match(3, 4, "jazz")])
  {
    ValidScanAtEnd(Tokens3, Vocab, []);
    MatchCase3At3();
    TakeMatchTo(Tokens3, Vocab, 3, 4, "jazz", [], [Match(3, 4, "jazz")]);
  }

  lemma NoMatchCase3At2()
    ensures NoMatchAt(Tokens3, Vocab, 2)
  {
    NoMatchByFirstChar(Tokens3, Vocab, 2, "pays");
  }

  lemma ScanCase3From2()
    ensures ValidScanFrom(Tokens3, Vocab, 2, [Match(3, 4, "jazz")])
  {
    ScanCase3From3();
    NoMatchCase3At2();
    SkipTo(Tokens3, Vocab, 2, 3, [Match(3, 4, "jazz")]);
  }

  lemma NoMatchCase3At1()
    ensures NoMatchAt(Tokens3, Vocab, 1)
  {
    NoMatchByFirstChar(Tokens3, Vocab, 1, "band");
  }

  lemma ScanCase3From1()
    ensures ValidScanFrom(Tokens3, Vocab, 1, [Match(3, 4, "jazz")])
  {
    ScanCase3From2();
    NoMatchCase3At1();
    SkipTo(Tokens3, Vocab, 1, 2, [Match(3, 4, "jazz")]);
  }

  lemma NoMatchCase3At0()
    ensures NoMatchAt(Tokens3, Vocab, 0)
  {
    NoMatchByFirstToken(Tokens3, Vocab, 0, "this");
  }

  lemma ScanCase3From0()
    ensures ValidScanFrom(Tokens3, Vocab, 0, [Match(3, 4, "jazz")])
  {
    ScanCase3From1();
    NoMatchCase3At0();
    SkipTo(Tokens3, Vocab, 0, 1, [Match(3, 4, "jazz")]);
  }

  lemma ScanCase3()
    ensures Scan(Tokens3, Vocab, 0) == Matches3
  {
    ScanCase3From0();
    ScanUnique(Tokens3, Vocab, 0, Matches3);
  }

  lemma GenresCase3()
    ensures GenresOf(Matches3) == {"jazz"}
  {
  }

  /** The words join to the test's literal text. */
  lemma Text3()
    ensures Join(Words3, " ") == "This band pays jazz"
  {
  }

  /** The text "This band pays jazz", extracted with the test vocabulary, yields {jazz}
      (genre/genreLookup_test.go:55-58). */
  lemma Case3()
    ensures Join(Words3, " ") == "This band pays jazz"
    ensures ExtractGenres(Join(Words3, " "), Vocab) == {"jazz"}
  {
    Text3();
    TokensCase3();
    ScanCase3();
    GenresCase3();
  }

  // ---------------------------------------------------------------- case 4
  const Words4: seq<string> := ["This", "band", "pays", "jazz", "and", "is", "cool"]
  const Tokens4: seq<string> := ["this", "band", "pays", "jazz", "and", "is", "cool"]
  const Matches4: seq<Match> := [Match(3, 4, "jazz")]

  lemma FormsCase4From0()
    ensures forall i :: 0 <= i < 6 ==> WordForm(Words4[i], Tokens4[i])
  {
    forall i | 0 <= i < 6
      ensures WordForm(Words4[i], Tokens4[i])
    {
      if i == 0 { FormOfThis(); }
      else if i == 1 { FormOfBand(); }
      else if i == 2 { FormOfPays(); }
      else if i == 3 { FormOfJazz(); }
      else if i == 4 { FormOfAnd(); }
      else if i == 5 { FormOfIs(); }
    }
  }

  lemma FormsCase4From6()
    ensures forall i :: 6 <= i < 7 ==> WordForm(Words4[i], Tokens4[i])
  {
    forall i | 6 <= i < 7
      ensures WordForm(Words4[i], Tokens4[i])
    {
      if i == 6 { FormOfCool(); }
    }
  }

  lemma TokensCase4()
    ensures Tokens(Join(Words4, " ")) == Tokens4
  {
    FormsCase4From0();
    FormsCase4From6();
    TokensOfWordForms(Words4, Tokens4);
  }

  lemma NoMatchCase4At6()
    ensures NoMatchAt(Tokens4, Vocab, 6)
  {
    NoMatchByFirstChar(Tokens4, Vocab, 6, "cool");
  }

  lemma ScanCase4From6()
    ensures ValidScanFrom(Tokens4, Vocab, 6, [])
  {
    ValidScanAtEnd(Tokens4, Vocab, []);
    NoMatchCase4At6();
    SkipTo(Tokens4, Vocab, 6, 7, []);
  }

  lemma NoMatchCase4At5()
    ensures NoMatchAt(Tokens4, Vocab, 5)
  {
    NoMatchByFirstChar(Tokens4, Vocab, 5, "is");
  }

  lemma ScanCase4From5()
    ensures ValidScanFrom(Tokens4, Vocab, 5, [])
  {
    ScanCase4From6();
    NoMatchCase4At5();
    SkipTo(Tokens4, Vocab, 5, 6, []);
  }

  lemma NoMatchCase4At4()
    ensures NoMatchAt(Tokens4, Vocab, 4)
  {
    NoMatchByFirstChar(Tokens4, Vocab, 4, "and");
  }

  lemma ScanCase4From4()
    ensures ValidScanFrom(Tokens4, Vocab, 4, [])
  {
    ScanCase4From5();
    NoMatchCase4At4();
    SkipTo(Tokens4, Vocab, 4, 5, []);
  }

  lemma GramsCase4At3()
    ensures NGram(["jazz", "and"], 0, 1) == "jazz"
    ensures NGram(["jazz", "and"], 0, 2) == "jazz and"
  {
    NGramsAt(["jazz", "and"], 0);
  }

  lemma MatchCase4At3()
    ensures IsMatch(Tokens4, Vocab, Match(3, 4, "jazz"))
  {
    var w := ["jazz", "and"];
    assert Tokens4[3] == "jazz" && Tokens4[4] == "and";
    assert Tokens4[3..5] == w;
    GramsCase4At3();
    MatchInWindow(Tokens4, Vocab, 3, w, 1);
  }

  lemma ScanCase4From3()
    ensures ValidScanFrom(Tokens4, Vocab, 3, [Match(3, 4, "jazz")])
  {
    ScanCase4From4();
    MatchCase4At3();
    TakeMatchTo(Tokens4, Vocab, 3, 4, "jazz", [], [Match(3, 4, "jazz")]);
  }

  lemma NoMatchCase4At2()
    ensures NoMatchAt(Tokens4, Vocab, 2)
  {
    NoMatchByFirstChar(Tokens4, Vocab, 2, "pays");
  }

  lemma ScanCase4From2()
    ensures ValidScanFrom(Tokens4, Vocab, 2, [Match(3, 4, "jazz")])
  {
    ScanCase4From3();
    NoMatchCase4At2();
    SkipTo(Tokens4, Vocab, 2, 3, [Match(3, 4, "jazz")]);
  }

  lemma NoMatchCase4At1()
    ensures NoMatchAt(Tokens4, Vocab, 1)
  {
    NoMatchByFirstChar(Tokens4, Vocab, 1, "band");
  }

  lemma ScanCase4From1()
    ensures ValidScanFrom(Tokens4, Vocab, 1, [Match(3, 4, "jazz")])
  {
    ScanCase4From2();
    NoMatchCase4At1();
    SkipTo(Tokens4, Vocab, 1, 2, [Match(3, 4, "jazz")]);
  }

  lemma NoMatchCase4At0()
    ensures NoMatchAt(Tokens4, Vocab, 0)
  {
    NoMatchByFirstToken(Tokens4, Vocab, 0, "this");
  }

  lemma ScanCase4From0()
    ensures ValidScanFrom(Tokens4, Vocab, 0, [Match(3, 4, "jazz")])
  {
    ScanCase4From1();
    NoMatchCase4At0();
    SkipTo(Tokens4, Vocab, 0, 1, [Match(3, 4, "jazz")]);
  }

  lemma ScanCase4()
    ensures Scan(Tokens4, Vocab, 0) == Matches4
  {
    ScanCase4From0();
    ScanUnique(Tokens4, Vocab, 0, Matches4);
  }

  lemma GenresCase4()
    ensures GenresOf(Matches4) == {"jazz"}
  {
  }

  /** The words join to the test's literal text. */
  lemma Text4()
    ensures Join(Words4, " ") == "This band pays jazz and is cool"
  {
  }

  /** The text "This band pays jazz and is cool", extracted with the test vocabulary, yields {jazz}
      (genre/genreLookup_test.go:70-73). The extension stops at the miss "jazz and". */
  lemma Case4()
    ensures Join(Words4, " ") == "This band pays jazz and is cool"
    ensures ExtractGenres(Join(Words4, " "), Vocab) == {"jazz"}
  {
    Text4();
    TokensCase4();
    ScanCase4();
    GenresCase4();
  }

  // ---------------------------------------------------------------- case 5
  const Words5: seq<string> := ["2025", "#", "Deep", "House", "#", "Disco", "#", "Diva", "Energy", "#", "Elektro", "#", "Queer", "Icon", "#", "Resident", "#", "Special", "#", "Tech", "House"]
  const Tokens5: seq<string> := ["2025", "", "deep", "house", "", "disco", "", "diva", "energy", "", "elektro", "", "queer", "icon", "", "resident", "", "special", "", "tech", "house"]
  const Matches5: seq<Match> := [Match(2, 4, "deep house"), Match(5, 6, "disco"), Match(10, 11, "elektro"), Match(19, 21, "tech house")]

  lemma FormsCase5From0()
    ensures forall i :: 0 <= i < 6 ==> WordForm(Words5[i], Tokens5[i])
  {
    forall i | 0 <= i < 6
      ensures WordForm(Words5[i], Tokens5[i])
    {
      if i == 0 { FormOf2025(); }
      else if i == 1 { FormOfHash(); }
      else if i == 2 { FormOfDeep(); }
      else if i == 3 { FormOfHouse(); }
      else if i == 4 { FormOfHash(); }
      else if i == 5 { FormOfDisco(); }
    }
  }

  lemma FormsCase5From6()
    ensures forall i :: 6 <= i < 12 ==> WordForm(Words5[i], Tokens5[i])
  {
    forall i | 6 <= i < 12
      ensures WordForm(Words5[i], Tokens5[i])
    {
      if i == 6 { FormOfHash(); }
      else if i == 7 { FormOfDiva(); }
      else if i == 8 { FormOfEnergy(); }
      else if i == 9 { FormOfHash(); }
      else if i == 10 { FormOfElektro(); }
      else if i == 11 { FormOfHash(); }
    }
  }

  lemma FormsCase5From12()
    ensures forall i :: 12 <= i < 18 ==> WordForm(Words5[i], Tokens5[i])
  {
    forall i | 12 <= i < 18
      ensures WordForm(Words5[i], Tokens5[i])
    {
      if i == 12 { FormOfQueer(); }
      else if i == 13 { FormOfIcon(); }
      else if i == 14 { FormOfHash(); }
      else if i == 15 { FormOfResident(); }
      else if i == 16 { FormOfHash(); }
      else if i == 17 { FormOfSpecial(); }
    }
  }

  lemma FormsCase5From18()
    ensures forall i :: 18 <= i < 21 ==> WordForm(Words5[i], Tokens5[i])
  {
    forall i | 18 <= i < 21
      ensures WordForm(Words5[i], Tokens5[i])
    {
      if i == 18 { FormOfHash(); }
      else if i == 19 { FormOfTech(); }
      else if i == 20 { FormOfHouse(); }
    }
  }

  lemma TokensCase5()
    ensures Tokens(Join(Words5, " ")) == Tokens5
  {
    FormsCase5From0();
    FormsCase5From6();
    FormsCase5From12();
    FormsCase5From18();
    TokensOfWordForms(Words5, Tokens5);
  }

  lemma GramsCase5At19()
    ensures NGram(["tech", "house"], 0, 1) == "tech"
    ensures NGram(["tech", "house"], 0, 2) == "tech house"
  {
    NGramsAt(["tech", "house"], 0);
  }

  lemma MatchCase5At19()
    ensures IsMatch(Tokens5, Vocab, Match(19, 21, "tech house"))
  {
    var w := ["tech", "house"];
    assert Tokens5[19] == "tech" && Tokens5[20] == "house";
    assert Tokens5[19..21] == w;
    GramsCase5At19();
    MatchInWindow(Tokens5, Vocab, 19, w, 2);
  }

  lemma ScanCase5From19()
    ensures ValidScanFrom(Tokens5, Vocab, 19, [Match(19, 21, "tech house")])
  {
    ValidScanAtEnd(Tokens5, Vocab, []);
    MatchCase5At19();
    TakeMatchTo(Tokens5, Vocab, 19, 21, "tech house", [], [Match(19, 21, "tech house")]);
  }

  lemma NoMatchCase5At18()
    ensures NoMatchAt(Tokens5, Vocab, 18)
  {
    NoMatchByFirstToken(Tokens5, Vocab, 18, "");
  }

  lemma ScanCase5From18()
    ensures ValidScanFrom(Tokens5, Vocab, 18, [Match(19, 21, "tech house")])
  {
    ScanCase5From19();
    NoMatchCase5At18();
    SkipTo(Tokens5, Vocab, 18, 19, [Match(19, 21, "tech house")]);
  }

  lemma NoMatchCase5At17()
    ensures NoMatchAt(Tokens5, Vocab, 17)
  {
    NoMatchByFirstChar(Tokens5, Vocab, 17, "special");
  }

  lemma ScanCase5From17()
    ensures ValidScanFrom(Tokens5, Vocab, 17, [Match(19, 21, "tech house")])
  {
    ScanCase5From18();
    NoMatchCase5At17();
    SkipTo(Tokens5, Vocab, 17, 18, [Match(19, 21, "tech house")]);
  }

  lemma NoMatchCase5At16()
    ensures NoMatchAt(Tokens5, Vocab, 16)
  {
    NoMatchByFirstToken(Tokens5, Vocab, 16, "");
  }

  lemma ScanCase5From16()
    ensures ValidScanFrom(Tokens5, Vocab, 16, [Match(19, 21, "tech house")])
  {
    ScanCase5From17();
    NoMatchCase5At16();
    SkipTo(Tokens5, Vocab, 16, 17, [Match(19, 21, "tech house")]);
  }

  lemma NoMatchCase5At15()
    ensures NoMatchAt(Tokens5, Vocab, 15)
  {
    NoMatchByFirstChar(Tokens5, Vocab, 15, "resident");
  }

  lemma ScanCase5From15()
    ensures ValidScanFrom(Tokens5, Vocab, 15, [Match(19, 21, "tech house")])
  {
    ScanCase5From16();
    NoMatchCase5At15();
    SkipTo(Tokens5, Vocab, 15, 16, [Match(19, 21, "tech house")]);
  }

  lemma NoMatchCase5At14()
    ensures NoMatchAt(Tokens5, Vocab, 14)
  {
    NoMatchByFirstToken(Tokens5, Vocab, 14, "");
  }

  lemma ScanCase5From14()
    ensures ValidScanFrom(Tokens5, Vocab, 14, [Match(19, 21, "tech house")])
  {
    ScanCase5From15();
    NoMatchCase5At14();
    SkipTo(Tokens5, Vocab, 14, 15, [Match(19, 21, "tech house")]);
  }

  lemma NoMatchCase5At13()
    ensures NoMatchAt(Tokens5, Vocab, 13)
  {
    NoMatchByFirstChar(Tokens5, Vocab, 13, "icon");
  }

  lemma ScanCase5From13()
    ensures ValidScanFrom(Tokens5, Vocab, 13, [Match(19, 21, "tech house")])
  {
    ScanCase5From14();
    NoMatchCase5At13();
    SkipTo(Tokens5, Vocab, 13, 14, [Match(19, 21, "tech house")]);
  }

  lemma NoMatchCase5At12()
    ensures NoMatchAt(Tokens5, Vocab, 12)
  {
    NoMatchByFirstChar(Tokens5, Vocab, 12, "queer");
  }

  lemma ScanCase5From12()
    ensures ValidScanFrom(Tokens5, Vocab, 12, [Match(19, 21, "tech house")])
  {
    ScanCase5From13();
    NoMatchCase5At12();
    SkipTo(Tokens5, Vocab, 12, 13, [Match(19, 21, "tech house")]);
  }

  lemma NoMatchCase5At11()
    ensures NoMatchAt(Tokens5, Vocab, 11)
  {
    NoMatchByFirstToken(Tokens5, Vocab, 11, "");
  }

  lemma ScanCase5From11()
    ensures ValidScanFrom(Tokens5, Vocab, 11, [Match(19, 21, "tech house")])
  {
    ScanCase5From12();
    NoMatchCase5At11();
    SkipTo(Tokens5, Vocab, 11, 12, [Match(19, 21, "tech house")]);
  }

  lemma GramsCase5At10()
    ensures NGram(["elektro", ""], 0, 1) == "elektro"
    ensures NGram(["elektro", ""], 0, 2) == "elektro "
  {
    NGramsAt(["elektro", ""], 0);
  }

  lemma MatchCase5At10()
    ensures IsMatch(Tokens5, Vocab, Match(10, 11, "elektro"))
  {
    var w := ["elektro", ""];
    assert Tokens5[10] == "elektro" && Tokens5[11] == "";
    assert Tokens5[10..12] == w;
    GramsCase5At10();
    MatchInWindow(Tokens5, Vocab, 10, w, 1);
  }

  lemma ScanCase5From10()
    ensures ValidScanFrom(Tokens5, Vocab, 10, [Match(10, 11, "elektro"), Match(19, 21, "tech house")])
  {
    ScanCase5From11();
    MatchCase5At10();
    TakeMatchTo(Tokens5, Vocab, 10, 11, "elektro", [Match(19, 21, "tech house")], [Match(10, 11, "elektro"), Match(19, 21, "tech house")]);
  }

  lemma NoMatchCase5At9()
    ensures NoMatchAt(Tokens5, Vocab, 9)
  {
    NoMatchByFirstToken(Tokens5, Vocab, 9, "");
  }

  lemma ScanCase5From9()
    ensures ValidScanFrom(Tokens5, Vocab, 9, [Match(10, 11, "elektro"), Match(19, 21, "tech house")])
  {
    ScanCase5From10();
    NoMatchCase5At9();
    SkipTo(Tokens5, Vocab, 9, 10, [Match(10, 11, "elektro"), Match(19, 21, "tech house")]);
  }

  lemma NoMatchCase5At8()
    ensures NoMatchAt(Tokens5, Vocab, 8)
  {
    NoMatchByFirstToken(Tokens5, Vocab, 8, "energy");
  }

  lemma ScanCase5From8()
    ensures ValidScanFrom(Tokens5, Vocab, 8, [Match(10, 11, "elektro"), Match(19, 21, "tech house")])
  {
    ScanCase5From9();
    NoMatchCase5At8();
    SkipTo(Tokens5, Vocab, 8, 9, [Match(10, 11, "elektro"), Match(19, 21, "tech house")]);
  }

  lemma NoMatchCase5At7()
    ensures NoMatchAt(Tokens5, Vocab, 7)
  {
    NoMatchByFirstToken(Tokens5, Vocab, 7, "diva");
  }

  lemma ScanCase5From7()
    ensures ValidScanFrom(Tokens5, Vocab, 7, [Match(10, 11, "elektro"), Match(19, 21, "tech house")])
  {
    ScanCase5From8();
    NoMatchCase5At7();
    SkipTo(Tokens5, Vocab, 7, 8, [Match(10, 11, "elektro"), Match(19, 21, "tech house")]);
  }

  lemma NoMatchCase5At6()
    ensures NoMatchAt(Tokens5, Vocab, 6)
  {
    NoMatchByFirstToken(Tokens5, Vocab, 6, "");
  }

  lemma ScanCase5From6()
    ensures ValidScanFrom(Tokens5, Vocab, 6, [Match(10, 11, "elektro"), Match(19, 21, "tech house")])
  {
    ScanCase5From7();
    NoMatchCase5At6();
    SkipTo(Tokens5, Vocab, 6, 7, [Match(10, 11, "elektro"), Match(19, 21, "tech house")]);
  }

  lemma GramsCase5At5()
    ensures NGram(["disco", ""], 0, 1) == "disco"
    ensures NGram(["disco", ""], 0, 2) == "disco "
  {
    NGramsAt(["disco", ""], 0);
  }

  lemma MatchCase5At5()
    ensures IsMatch(Tokens5, Vocab, Match(5, 6, "disco"))
  {
    var w := ["disco", ""];
    assert Tokens5[5] == "disco" && Tokens5[6] == "";
    assert Tokens5[5..7] == w;
    GramsCase5At5();
    MatchInWindow(Tokens5, Vocab, 5, w, 1);
  }

  lemma ScanCase5From5()
    ensures ValidScanFrom(Tokens5, Vocab, 5, [Match(5, 6, "disco"), Match(10, 11, "elektro"), Match(19, 21, "tech house")])
  {
    ScanCase5From6();
    MatchCase5At5();
    TakeMatchTo(Tokens5, Vocab, 5, 6, "disco", [Match(10, 11, "elektro"), Match(19, 21, "tech house")], [Match(5, 6, "disco"), Match(10, 11, "elektro"), Match(19, 21, "tech house")]);
  }

  lemma NoMatchCase5At4()
    ensures NoMatchAt(Tokens5, Vocab, 4)
  {
    NoMatchByFirstToken(Tokens5, Vocab, 4, "");
  }

  lemma ScanCase5From4()
    ensures ValidScanFrom(Tokens5, Vocab, 4, [Match(5, 6, "disco"), Match(10, 11, "elektro"), Match(19, 21, "tech house")])
  {
    ScanCase5From5();
    NoMatchCase5At4();
    SkipTo(Tokens5, Vocab, 4, 5, [Match(5, 6, "disco"), Match(10, 11, "elektro"), Match(19, 21, "tech house")]);
  }

  lemma GramsCase5At2()
    ensures NGram(["deep", "house", ""], 0, 1) == "deep"
    ensures NGram(["deep", "house", ""], 0, 2) == "deep house"
    ensures NGram(["deep", "house", ""], 0, 3) == "deep house "
  {
    NGramsAt(["deep", "house", ""], 0);
  }

  lemma MatchCase5At2()
    ensures IsMatch(Tokens5, Vocab, Match(2, 4, "deep house"))
  {
    var w := ["deep", "house", ""];
    assert Tokens5[2] == "deep" && Tokens5[3] == "house" && Tokens5[4] == "";
    assert Tokens5[2..5] == w;
    GramsCase5At2();
    MatchInWindow(Tokens5, Vocab, 2, w, 2);
  }

  lemma ScanCase5From2()
    ensures ValidScanFrom(Tokens5, Vocab, 2, [Match(2, 4, "deep house"), Match(5, 6, "disco"), Match(10, 11, "elektro"), Match(19, 21, "tech house")])
  {
    ScanCase5From4();
    MatchCase5At2();
    TakeMatchTo(Tokens5, Vocab, 2, 4, "deep house", [Match(5, 6, "disco"), Match(10, 11, "elektro"), Match(19, 21, "tech house")], [Match(2, 4, "deep house"), Match(5, 6, "disco"), Match(10, 11, "elektro"), Match(19, 21, "tech house")]);
  }

  lemma NoMatchCase5At1()
    ensures NoMatchAt(Tokens5, Vocab, 1)
  {
    NoMatchByFirstToken(Tokens5, Vocab, 1, "");
  }

  lemma ScanCase5From1()
    ensures ValidScanFrom(Tokens5, Vocab, 1, [Match(2, 4, "deep house"), Match(5, 6, "disco"), Match(10, 11, "elektro"), Match(19, 21, "tech house")])
  {
    ScanCase5From2();
    NoMatchCase5At1();
    SkipTo(Tokens5, Vocab, 1, 2, [Match(2, 4, "deep house"), Match(5, 6, "disco"), Match(10, 11, "elektro"), Match(19, 21, "tech house")]);
  }

  lemma NoMatchCase5At0()
    ensures NoMatchAt(Tokens5, Vocab, 0)
  {
    NoMatchByFirstChar(Tokens5, Vocab, 0, "2025");
  }

  lemma ScanCase5From0()
    ensures ValidScanFrom(Tokens5, Vocab, 0, [Match(2, 4, "deep house"), Match(5, 6, "disco"), Match(10, 11, "elektro"), Match(19, 21, "tech house")])
  {
    ScanCase5From1();
    NoMatchCase5At0();
    SkipTo(Tokens5, Vocab, 0, 1, [Match(2, 4, "deep house"), Match(5, 6, "disco"), Match(10, 11, "elektro"), Match(19, 21, "tech house")]);
  }

  lemma ScanCase5()
    ensures Scan(Tokens5, Vocab, 0) == Matches5
  {
    ScanCase5From0();
    ScanUnique(Tokens5, Vocab, 0, Matches5);
  }

  lemma GenresCase5()
    ensures GenresOf(Matches5) == {"deep house", "disco", "elektro", "tech house"}
  {
  }

  /** The text "2025 # Deep House # Disco # Diva Energy # Elektro # Queer Icon # Resident # Special # Tech House", extracted with the test vocabulary, yields {deep house, disco, elektro, tech house}
      (genre/genreLookup_test.go:85-88). Words outside the vocabulary, such as "diva energy", are skipped one token at a time. */
  lemma Case5()
    ensures ExtractGenres(Join(Words5, " "), Vocab) == {"deep house", "disco", "elektro", "tech house"}
  {
    TokensCase5();
    ScanCase5();
    GenresCase5();
  }
}
