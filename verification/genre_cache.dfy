/** The genre resolver of genre/genreLookup.go as a sequential state machine.
    The state is the in-memory cache of artist genres, the persistent genres
    collection and the OAuth token of the music search service. The clock,
    the credentials, the token endpoint, the artist search and the faults of
    the collection are the environment of one call. */
module GenreCache {
  import opened Wrappers
  import opened Text
  import opened TtlCache
  import opened GenreText

  // ---------------------------------------------------------------- data

  datatype Event = Event(title: string, genresText: string)

  /** The persistent collection, keyed by lowered artist name. An absent key
      means the artist was never searched; a present empty list means it was
      searched and nothing was found. */
  type Store = map<string, seq<string>>

  datatype GenreState = GenreState(
    memory: Cache<string, seq<string>>,
    store: Store,
    token: string,
    tokenExpiry: int)

  datatype Config = Config(lookupEnabled: bool, vocab: set<string>)

  datatype TokenReply = TokenReply(accessToken: string, expiresIn: int)

  /** One artist of a search response, reduced to the fields that are read. */
  datatype SearchItem = SearchItem(name: string, genres: seq<string>)

  datatype GenreError =
    | MissingCredentials
    | TokenRequestFailed(reason: string)
    | SearchFailed(reason: string)

  /** Everything outside the resolver during one call: the clock (read once),
      the two credentials, the token endpoint's reply, the artist search
      (token and query to items), which collection reads fail, which inserts
      fail, and the separator rewriting of artist titles. */
  datatype Env = Env(
    now: int,
    clientId: string,
    clientSecret: string,
    tokenReply: Result<TokenReply, GenreError>,
    search: (string, string) -> Result<seq<SearchItem>, GenreError>,
    readFails: string -> bool,
    writeFails: string -> bool,
    separate: string -> string)

  // ---------------------------------------------------------------- token

  predicate NeedsRenewal(st: GenreState, now: int) {
    st.token == "" || st.tokenExpiry < now
  }

  /** `renewSpotifyToken`. A still valid token is kept. Otherwise missing
      credentials or a failed token request are errors that leave the token
      alone, and a reply replaces the token, which then expires one second
      short of the advertised lifetime (counted in seconds). */
  function RenewToken(st: GenreState, env: Env): (r: Result<GenreState, GenreError>)
    ensures !NeedsRenewal(st, env.now) ==> r == Success(st)
    ensures NeedsRenewal(st, env.now) && (env.clientId == "" || env.clientSecret == "") ==>
      r == Failure(MissingCredentials)
    ensures r.Success? ==> r.value.memory == st.memory && r.value.store == st.store
    ensures r.Success? && NeedsRenewal(st, env.now) ==>
      && env.tokenReply.Success?
      && r.value.token == env.tokenReply.value.accessToken
      && r.value.tokenExpiry == env.now + (env.tokenReply.value.expiresIn - 1) * Second
    ensures r.Failure? ==> NeedsRenewal(st, env.now)
    // with the credentials set, a due renewal is the token request's outcome
    ensures NeedsRenewal(st, env.now) && env.clientId != "" && env.clientSecret != "" ==>
      && (env.tokenReply.Failure? ==> r == Failure(env.tokenReply.error))
      && (env.tokenReply.Success? ==>
            r == Success(st.(token := env.tokenReply.value.accessToken,
                             tokenExpiry := env.now + (env.tokenReply.value.expiresIn - 1) * Second)))
  {
    if !NeedsRenewal(st, env.now) then Success(st)
    else if env.clientId == "" || env.clientSecret == "" then Failure(MissingCredentials)
    else
      match env.tokenReply
      case Failure(e) => Failure(e)
      case Success(reply) =>
        Success(st.(token := reply.accessToken, tokenExpiry := env.now + (reply.expiresIn - 1) * Second))
  }

  /** A renewed token with a non-empty value and a lifetime of at least one
      second is not renewed again until its expiry has passed; so renewing
      twice at the same instant is renewing once. */
  lemma RenewedTokenStaysFresh(st: GenreState, env: Env, later: int)
    requires RenewToken(st, env).Success?
    requires env.tokenReply.Success? && env.tokenReply.value.accessToken != ""
    requires env.tokenReply.value.expiresIn >= 1
    requires env.now <= later <= RenewToken(st, env).value.tokenExpiry
    ensures !NeedsRenewal(RenewToken(st, env).value, later)
    ensures RenewToken(RenewToken(st, env).value, env) == RenewToken(st, env)
  {
    var st1 := RenewToken(st, env).value;
    if NeedsRenewal(st, env.now) {
      assert st1.tokenExpiry >= env.now;
    }
  }

  // ---------------------------------------------------------------- search

  /** The position of the first item whose name equals `artist` up to ASCII
      case, if any. */
  function FirstNameMatch(artist: string, items: seq<SearchItem>, from: nat): (r: Option<nat>)
    requires from <= |items|
    ensures r.Some? ==> from <= r.value < |items| && EqualFold(artist, items[r.value].name)
    ensures r.Some? ==> forall j :: from <= j < r.value ==> !EqualFold(artist, items[j].name)
    ensures r.None? ==> forall j :: from <= j < |items| ==> !EqualFold(artist, items[j].name)
    decreases |items| - from
  {
    if from == |items| then None
    else if EqualFold(artist, items[from].name) then Some(from)
    else FirstNameMatch(artist, items, from + 1)
  }

  /** The match rule of `querySpotifyGenres`: the genres of the first item
      named like the artist, or the empty list (not an absence) if none is. */
  function MatchGenres(artist: string, items: seq<SearchItem>): (r: seq<string>)
    ensures (forall j :: 0 <= j < |items| ==> !EqualFold(artist, items[j].name)) ==> r == []
    ensures forall i ::
      (0 <= i < |items| && EqualFold(artist, items[i].name)
       && forall j :: 0 <= j < i ==> !EqualFold(artist, items[j].name)) ==> r == items[i].genres
  {
    match FirstNameMatch(artist, items, 0)
    case None => []
    case Some(i) => items[i].genres
  }

  lemma EqualFoldTransfer(a: string, b: string, n: string)
    requires EqualFold(a, b)
    ensures EqualFold(a, n) <==> EqualFold(b, n)
  {
  }

  lemma {:induction false} FirstNameMatchIgnoresCase(a: string, b: string, items: seq<SearchItem>, from: nat)
    requires EqualFold(a, b) && from <= |items|
    ensures FirstNameMatch(a, items, from) == FirstNameMatch(b, items, from)
    decreases |items| - from
  {
    if from < |items| {
      EqualFoldTransfer(a, b, items[from].name);
      FirstNameMatchIgnoresCase(a, b, items, from + 1);
    }
  }

  /** Names that differ only in ASCII case select the same genres. */
  lemma MatchGenresIgnoresCase(a: string, b: string, items: seq<SearchItem>)
    requires EqualFold(a, b)
    ensures MatchGenres(a, items) == MatchGenres(b, items)
  {
    FirstNameMatchIgnoresCase(a, b, items, 0);
  }

  /** `querySpotifyGenres`: search for the lowered name with the current
      token, then apply the match rule to the original name. */
  function QueryGenres(token: string, artist: string, env: Env): (r: Result<seq<string>, GenreError>)
    ensures env.search(token, Lower(artist)).Failure? <==> r.Failure?
    ensures r.Success? ==> r.value == MatchGenres(artist, env.search(token, Lower(artist)).value)
  {
    match env.search(token, Lower(artist))
    case Failure(e) => Failure(e)
    case Success(items) => Success(MatchGenres(artist, items))
  }

  /** Names equal up to ASCII case lower to the same query. */
  lemma EqualFoldLowers(a: string, b: string)
    requires EqualFold(a, b)
    ensures Lower(a) == Lower(b)
  {
    assert forall i :: 0 <= i < |a| ==> LowerChar(a[i]) == LowerChar(b[i]);
  }

  /** Two spellings of an artist that differ only in ASCII case send the
      same search and select the same genres from its reply. */
  lemma QueryGenresIgnoresCase(token: string, a: string, b: string, env: Env)
    requires EqualFold(a, b)
    ensures QueryGenres(token, a, env) == QueryGenres(token, b, env)
  {
    EqualFoldLowers(a, b);
    if env.search(token, Lower(a)).Success? {
      MatchGenresIgnoresCase(a, b, env.search(token, Lower(a)).value);
    }
  }

  // ---------------------------------------------------------------- store

  /** `queryDBGenres`: a failed read is indistinguishable from an absent
      entry. */
  function ReadStore(store: Store, artist: string, env: Env): (r: Option<seq<string>>)
    ensures r.Some? <==> !env.readFails(artist) && Lower(artist) in store
    ensures r.Some? ==> r.value == store[Lower(artist)]
  {
    if env.readFails(artist) || Lower(artist) !in store then None else Some(store[Lower(artist)])
  }

  /** `writeDBGenres`: an insert whose failure is ignored. An insert under a
      key that already has an entry leaves the entry read back unchanged. */
  function WriteStore(store: Store, artist: string, genres: seq<string>, env: Env): (r: Store)
    ensures forall k :: k in store ==> k in r && r[k] == store[k]
    ensures r.Keys <= store.Keys + {Lower(artist)}
    ensures !env.writeFails(artist) ==> Lower(artist) in r
    ensures !env.writeFails(artist) && Lower(artist) !in store ==> r[Lower(artist)] == genres
  {
    if env.writeFails(artist) || Lower(artist) in store then store
    else store[Lower(artist) := genres]
  }

  // ---------------------------------------------------------------- one artist

  datatype Tier = FromMemory | FromStore | FromSearch

  datatype Answer = Answer(artist: string, genres: seq<string>, tier: Tier)

  /** The state after a step and the step's answer or error; the state is
      kept on error because the token fields are updated in place. */
  datatype Outcome = Outcome(state: GenreState, result: Result<Answer, GenreError>)

  /** The store only grows, and only by `key`; nothing in it changes. */
  predicate StoreExtends(before: Store, after: Store, keys: set<string>) {
    && (forall k :: k in before ==> k in after && after[k] == before[k])
    && after.Keys <= before.Keys + keys
  }

  /** Entries live at `now` stay as they are. */
  predicate LiveKept(before: Cache<string, seq<string>>, after: Cache<string, seq<string>>, now: int) {
    forall k :: k in before && Live(before, k, now) ==> k in after && after[k] == before[k]
  }

  /** One iteration of the artist loop of `lookupGenres`: the memory cache,
      then the collection (a present entry, even an empty one, is cached),
      and only then a token renewal and a search whose result is written to
      the collection and the memory cache. */
  function ResolveArtist(st: GenreState, a: string, env: Env): (r: Outcome)
    ensures Live(st.memory, a, env.now) ==>
      r == Outcome(st, Success(Answer(a, st.memory[a].value, FromMemory)))
    ensures r.result.Success? ==> r.result.value.artist == a
    ensures r.result.Success? ==> Get(r.state.memory, a, env.now) == Some(r.result.value.genres)
    ensures r.result.Success? && r.result.value.tier == FromStore ==>
      && !Live(st.memory, a, env.now)
      && ReadStore(st.store, a, env) == Some(r.result.value.genres)
      && r.state.store == st.store && r.state.token == st.token
    ensures (r.result.Failure? || r.result.value.tier == FromSearch) ==>
      !Live(st.memory, a, env.now) && ReadStore(st.store, a, env).None?
    ensures !Live(st.memory, a, env.now) && ReadStore(st.store, a, env).Some? ==>
      r == Outcome(st.(memory := Put(st.memory, a, ReadStore(st.store, a, env).value, env.now)),
                   Success(Answer(a, ReadStore(st.store, a, env).value, FromStore)))
    // after a store miss: a failed renewal or search fails the step, and a
    // search answer is returned, cached and written under the renewed token
    ensures !Live(st.memory, a, env.now) && ReadStore(st.store, a, env).None? ==>
      var renewed := RenewToken(st, env);
      && (renewed.Failure? ==> r == Outcome(st, Failure(renewed.error)))
      && (renewed.Success? ==>
            var found := QueryGenres(renewed.value.token, a, env);
            && (found.Failure? ==> r == Outcome(renewed.value, Failure(found.error)))
            && (found.Success? ==>
                  && r.result == Success(Answer(a, found.value, FromSearch))
                  && r.state.token == renewed.value.token
                  && r.state.tokenExpiry == renewed.value.tokenExpiry
                  && r.state.store == WriteStore(st.store, a, found.value, env)
                  && r.state.memory == Put(st.memory, a, found.value, env.now)))
    ensures r.result.Failure? ==> r.state.memory == st.memory && r.state.store == st.store
    ensures StoreExtends(st.store, r.state.store, {Lower(a)})
    ensures Lower(a) in r.state.store && Lower(a) !in st.store ==>
      r.result.Success? && r.result.value.tier == FromSearch
    ensures LiveKept(st.memory, r.state.memory, env.now)
    ensures r.state.memory.Keys <= st.memory.Keys + {a}
  {
    match Get(st.memory, a, env.now)
    case Some(g) => Outcome(st, Success(Answer(a, g, FromMemory)))
    case None =>
      match ReadStore(st.store, a, env)
      case Some(g) =>
        Outcome(st.(memory := Put(st.memory, a, g, env.now)), Success(Answer(a, g, FromStore)))
      case None =>
        match RenewToken(st, env)
        case Failure(e) => Outcome(st, Failure(e))
        case Success(st1) =>
          match QueryGenres(st1.token, a, env)
          case Failure(e) => Outcome(st1, Failure(e))
          case Success(g) =>
            var written := st1.(store := WriteStore(st1.store, a, g, env), memory := Put(st1.memory, a, g, env.now));
            Outcome(written, Success(Answer(a, g, FromSearch)))
  }

  // ---------------------------------------------------------------- all artists

  datatype Run = Run(state: GenreState, result: Result<seq<Answer>, GenreError>)

  function LowerAll(xs: seq<string>): set<string> {
    set i | 0 <= i < |xs| :: Lower(xs[i])
  }

  /** The artist loop: each artist in turn; the first error ends the loop
      and is returned, with the state as it stands. */
  function ResolveAll(st: GenreState, artists: seq<string>, env: Env): (r: Run)
    ensures r.result.Success? ==>
      && |r.result.value| == |artists|
      && forall i :: 0 <= i < |artists| ==> r.result.value[i].artist == artists[i]
    ensures r.result.Success? ==>
      forall i :: 0 <= i < |artists| ==> Get(r.state.memory, artists[i], env.now) == Some(r.result.value[i].genres)
    ensures StoreExtends(st.store, r.state.store, LowerAll(artists))
    ensures LiveKept(st.memory, r.state.memory, env.now)
    ensures r.result.Success? ==>
      forall i :: 0 <= i < |artists| && r.result.value[i].tier == FromSearch ==>
        ReadStore(st.store, artists[i], env).None?
    decreases |artists|
  {
    if |artists| == 0 then Run(st, Success([]))
    else
      var o := ResolveArtist(st, artists[0], env);
      if o.result.Failure? then
        StoreExtendsWiden(st.store, o.state.store, {Lower(artists[0])}, LowerAll(artists));
        Run(o.state, Failure(o.result.error))
      else
        var rest := ResolveAll(o.state, artists[1..], env);
        StoreExtendsChain(st.store, o.state.store, rest.state.store, artists);
        LiveKeptChain(st.memory, o.state.memory, rest.state.memory, env.now);
        match rest.result
        case Failure(e) => rest
        case Success(answers) =>
          ConsAnswers(st, artists, env, o, rest);
          Run(rest.state, Success([o.result.value] + answers))
  }

  /** The loop over two lists in a row is the loop over the first, then,
      unless that failed, the loop over the second from where it left off. */
  lemma {:induction false} ResolveAllAppend(st: GenreState, xs: seq<string>, ys: seq<string>, env: Env)
    ensures var first := ResolveAll(st, xs, env);
      var all := ResolveAll(st, xs + ys, env);
      var second := ResolveAll(first.state, ys, env);
      && (first.result.Failure? ==> all == first)
      && (first.result.Success? ==> all.state == second.state && (all.result.Failure? <==> second.result.Failure?))
      && (first.result.Success? && second.result.Failure? ==> all == second)
    decreases |xs|
  {
    if |xs| == 0 {
      assert xs + ys == ys;
    } else {
      var o := ResolveArtist(st, xs[0], env);
      assert (xs + ys)[0] == xs[0];
      assert (xs + ys)[1..] == xs[1..] + ys;
      ResolveAllStep(st, xs, env);
      ResolveAllStep(st, xs + ys, env);
      if o.result.Success? {
        ResolveAllAppend(o.state, xs[1..], ys, env);
      }
    }
  }

  /** One turn of the loop: a failing first step ends it with that step's
      error and state, and otherwise the loop goes on with the rest of the
      artists from the step's state and fails exactly when that rest does,
      with the rest's error. */
  lemma ResolveAllStep(st: GenreState, artists: seq<string>, env: Env)
    requires |artists| > 0
    ensures var o := ResolveArtist(st, artists[0], env);
      var all := ResolveAll(st, artists, env);
      var rest := ResolveAll(o.state, artists[1..], env);
      && (o.result.Failure? ==> all == Run(o.state, Failure(o.result.error)))
      && (o.result.Success? ==> all.state == rest.state && (all.result.Failure? <==> rest.result.Failure?))
      && (o.result.Success? && rest.result.Failure? ==> all == rest)
      && (o.result.Success? && rest.result.Success? ==>
            all == Run(rest.state, Success([o.result.value] + rest.result.value)))
  {
  }

  lemma StoreExtendsWiden(before: Store, after: Store, keys: set<string>, more: set<string>)
    requires StoreExtends(before, after, keys) && keys <= more
    ensures StoreExtends(before, after, more)
  {
  }

  /** The first artist's step and the rest of the loop together extend the
      store only by the lowered names of all artists. */
  lemma StoreExtendsChain(s0: Store, s1: Store, s2: Store, artists: seq<string>)
    requires |artists| > 0
    requires StoreExtends(s0, s1, {Lower(artists[0])})
    requires StoreExtends(s1, s2, LowerAll(artists[1..]))
    ensures StoreExtends(s0, s2, LowerAll(artists))
  {
    forall i | 0 <= i < |artists[1..]|
      ensures Lower(artists[1..][i]) in LowerAll(artists)
    {
      assert artists[1..][i] == artists[i + 1];
    }
    assert Lower(artists[0]) in LowerAll(artists);
  }

  lemma LiveKeptChain(m0: Cache<string, seq<string>>, m1: Cache<string, seq<string>>, m2: Cache<string, seq<string>>, now: int)
    requires LiveKept(m0, m1, now) && LiveKept(m1, m2, now)
    ensures LiveKept(m0, m2, now)
  {
  }

  /** The answers of the loop: the first artist's answer, then the rest's. */
  lemma ConsAnswers(st: GenreState, artists: seq<string>, env: Env, o: Outcome, rest: Run)
    requires |artists| > 0
    requires o == ResolveArtist(st, artists[0], env) && o.result.Success?
    requires rest.result.Success? && |rest.result.value| == |artists| - 1
    requires forall i :: 0 <= i < |artists| - 1 ==> rest.result.value[i].artist == artists[1..][i]
    requires forall i :: 0 <= i < |artists| - 1 ==>
      Get(rest.state.memory, artists[1..][i], env.now) == Some(rest.result.value[i].genres)
    requires LiveKept(o.state.memory, rest.state.memory, env.now)
    requires StoreExtends(o.state.store, rest.state.store, LowerAll(artists[1..]))
    requires forall i :: 0 <= i < |artists| - 1 && rest.result.value[i].tier == FromSearch ==>
      ReadStore(o.state.store, artists[1..][i], env).None?
    ensures
      var all := [o.result.value] + rest.result.value;
      && |all| == |artists|
      && (forall i :: 0 <= i < |artists| ==> all[i].artist == artists[i])
      && (forall i :: 0 <= i < |artists| ==> Get(rest.state.memory, artists[i], env.now) == Some(all[i].genres))
      && (forall i :: 0 <= i < |artists| && all[i].tier == FromSearch ==> ReadStore(st.store, artists[i], env).None?)
  {
    var all := [o.result.value] + rest.result.value;
    assert Live(o.state.memory, artists[0], env.now);
    StoreReadsShrinkBack(st.store, o.state.store, Lower(artists[0]), env);
    forall i | 0 <= i < |artists|
      ensures all[i].artist == artists[i]
      ensures Get(rest.state.memory, artists[i], env.now) == Some(all[i].genres)
      ensures all[i].tier == FromSearch ==> ReadStore(st.store, artists[i], env).None?
    {
      if i > 0 {
        assert all[i] == rest.result.value[i - 1] && artists[i] == artists[1..][i - 1];
      }
    }
  }

  /** An artist absent from an extended store was absent before. */
  lemma StoreReadsShrinkBack(before: Store, after: Store, key: string, env: Env)
    requires StoreExtends(before, after, {key})
    ensures forall a :: ReadStore(after, a, env).None? ==> ReadStore(before, a, env).None?
  {
  }

  /** The distinct genres of all answers. */
  function UnionOfGenres(answers: seq<Answer>): set<string> {
    set i, g | 0 <= i < |answers| && g in answers[i].genres :: g
  }

  // ---------------------------------------------------------------- lookup

  datatype Response =
    | Disabled
    | Genres(genres: set<string>)
    | Failed(error: GenreError)

  datatype Reply = Reply(state: GenreState, response: Response)

  /** `lookupGenres`. Switched off, it answers nothing and touches nothing.
      Otherwise genres found in the event's genre text are the answer,
      without looking at the title. Only when the text names none are the
      title's artists resolved, and the answer is the union of their genres
      or the first error. */
  function LookupGenres(st: GenreState, ev: Event, cfg: Config, env: Env): (r: Reply)
    ensures !cfg.lookupEnabled ==> r == Reply(st, Disabled)
    ensures cfg.lookupEnabled && ExtractGenres(ev.genresText, cfg.vocab) != {} ==>
      r == Reply(st, Genres(ExtractGenres(ev.genresText, cfg.vocab)))
    ensures r.response.Genres? ==> forall g :: g in ExtractGenres(ev.genresText, cfg.vocab) ==> g in r.response.genres
    ensures StoreExtends(st.store, r.state.store, LowerAll(ExtractArtists(ev.title, env.separate)))
    // only when the text names no genre are the artists resolved; any error
    // of theirs is the answer, and no genres are returned with it
    ensures cfg.lookupEnabled && ExtractGenres(ev.genresText, cfg.vocab) == {} ==>
      var run := ResolveAll(st, ExtractArtists(ev.title, env.separate), env);
      && r.state == run.state
      && (run.result.Failure? ==> r.response == Failed(run.result.error))
      && (run.result.Success? ==> r.response == Genres(UnionOfGenres(run.result.value)))
  {
    if !cfg.lookupEnabled then Reply(st, Disabled)
    else
      var fromText := ExtractGenres(ev.genresText, cfg.vocab);
      if fromText != {} then Reply(st, Genres(fromText))
      else
        var run := ResolveAll(st, ExtractArtists(ev.title, env.separate), env);
        match run.result
        case Failure(e) => Reply(run.state, Failed(e))
        case Success(answers) => Reply(run.state, Genres(UnionOfGenres(answers)))
  }

  // ---------------------------------------------------------------- properties

  /** The answers when every artist is served from the memory cache. */
  function MemoryAnswers(memory: Cache<string, seq<string>>, artists: seq<string>): (r: seq<Answer>)
    requires forall i :: 0 <= i < |artists| ==> artists[i] in memory
    ensures |r| == |artists|
  {
    seq(|artists|, i requires 0 <= i < |artists| => Answer(artists[i], memory[artists[i]].value, FromMemory))
  }

  /** When every artist is live in the memory cache, the loop changes
      nothing, searches nothing and answers from the cache. */
  lemma {:induction false} AllLiveServedFromMemory(st: GenreState, artists: seq<string>, env: Env)
    requires forall i :: 0 <= i < |artists| ==> artists[i] in st.memory && Live(st.memory, artists[i], env.now)
    ensures ResolveAll(st, artists, env) == Run(st, Success(MemoryAnswers(st.memory, artists)))
    decreases |artists|
  {
    if |artists| > 0 {
      var tail := artists[1..];
      var first := Answer(artists[0], st.memory[artists[0]].value, FromMemory);
      assert forall i :: 0 <= i < |tail| ==> tail[i] == artists[i + 1];
      AllLiveServedFromMemory(st, tail, env);
      LiveHeadStep(st, artists, env, MemoryAnswers(st.memory, tail));
      MemoryAnswersCons(st.memory, artists);
    }
  }

  lemma MemoryAnswersCons(memory: Cache<string, seq<string>>, artists: seq<string>)
    requires |artists| > 0
    requires forall i :: 0 <= i < |artists| ==> artists[i] in memory
    ensures forall i :: 0 <= i < |artists[1..]| ==> artists[1..][i] in memory
    ensures MemoryAnswers(memory, artists) ==
      [Answer(artists[0], memory[artists[0]].value, FromMemory)] + MemoryAnswers(memory, artists[1..])
  {
    assert forall i :: 0 <= i < |artists[1..]| ==> artists[1..][i] == artists[i + 1];
  }

  /** An artist live in memory leaves the state alone and heads the answers. */
  lemma LiveHeadStep(st: GenreState, artists: seq<string>, env: Env, answers: seq<Answer>)
    requires |artists| > 0 && Live(st.memory, artists[0], env.now)
    requires ResolveAll(st, artists[1..], env) == Run(st, Success(answers))
    ensures ResolveAll(st, artists, env) ==
      Run(st, Success([Answer(artists[0], st.memory[artists[0]].value, FromMemory)] + answers))
  {
    assert ResolveArtist(st, artists[0], env) == Outcome(st, Success(Answer(artists[0], st.memory[artists[0]].value, FromMemory)));
  }

  /** Repeating a successful lookup of the same artists at the same instant
      is answered entirely from the memory cache, with the same genres, and
      changes nothing. */
  lemma RepeatResolveFromMemory(st: GenreState, artists: seq<string>, env: Env)
    requires ResolveAll(st, artists, env).result.Success?
    ensures
      var first := ResolveAll(st, artists, env);
      var again := ResolveAll(first.state, artists, env);
      && again.state == first.state
      && again.result.Success?
      && |again.result.value| == |artists|
      && forall i :: 0 <= i < |artists| ==>
        again.result.value[i] == Answer(artists[i], first.result.value[i].genres, FromMemory)
  {
    var first := ResolveAll(st, artists, env);
    forall i | 0 <= i < |artists|
      ensures artists[i] in first.state.memory && Live(first.state.memory, artists[i], env.now)
    {
      assert Get(first.state.memory, artists[i], env.now).Some?;
    }
    AllLiveServedFromMemory(first.state, artists, env);
  }

  /** Every artist the collection can answer for (or the memory cache still
      holds) is resolved without a search, so a seeded collection means no
      calls to the search service, no token renewal, and no new entries. */
  lemma {:induction false} SeededStoreSearchesNothing(st: GenreState, artists: seq<string>, env: Env)
    requires forall i :: 0 <= i < |artists| ==>
      Live(st.memory, artists[i], env.now) || ReadStore(st.store, artists[i], env).Some?
    ensures
      var r := ResolveAll(st, artists, env);
      && r.result.Success?
      && r.state.store == st.store && r.state.token == st.token && r.state.tokenExpiry == st.tokenExpiry
      && forall i :: 0 <= i < |artists| ==> r.result.value[i].tier != FromSearch
    decreases |artists|
  {
    if |artists| > 0 {
      var o := ResolveArtist(st, artists[0], env);
      var tail := artists[1..];
      assert o.result.Success? && o.result.value.tier != FromSearch;
      assert o.state.store == st.store && o.state.token == st.token && o.state.tokenExpiry == st.tokenExpiry;
      forall i | 0 <= i < |tail|
        ensures Live(o.state.memory, tail[i], env.now) || ReadStore(o.state.store, tail[i], env).Some?
      {
        assert tail[i] == artists[i + 1];
      }
      SeededStoreSearchesNothing(o.state, tail, env);
      var rest := ResolveAll(o.state, tail, env);
      assert ResolveAll(st, artists, env).result.value == [o.result.value] + rest.result.value;
    }
  }

  /** The memory cache agrees with the collection: every cached artist has
      the cached genres in the collection. */
  predicate Coherent(st: GenreState) {
    forall k :: k in st.memory ==> Lower(k) in st.store && st.store[Lower(k)] == st.memory[k].value
  }

  /** With reads and inserts that do not fail, resolving one artist keeps
      the memory cache and the collection in agreement. */
  lemma ResolveArtistKeepsCoherence(st: GenreState, a: string, env: Env)
    requires Coherent(st)
    requires !env.readFails(a) && !env.writeFails(a)
    ensures Coherent(ResolveArtist(st, a, env).state)
  {
    var r := ResolveArtist(st, a, env);
    forall k | k in r.state.memory
      ensures Lower(k) in r.state.store && r.state.store[Lower(k)] == r.state.memory[k].value
    {
      if k != a {
        assert k in st.memory && r.state.memory[k] == st.memory[k];
      } else if r.result.Success? && r.result.value.tier == FromSearch {
        assert Lower(a) !in st.store;
      }
    }
  }

  lemma {:induction false} ResolveAllKeepsCoherence(st: GenreState, artists: seq<string>, env: Env)
    requires Coherent(st)
    requires forall i :: 0 <= i < |artists| ==> !env.readFails(artists[i]) && !env.writeFails(artists[i])
    ensures Coherent(ResolveAll(st, artists, env).state)
    decreases |artists|
  {
    if |artists| > 0 {
      ResolveArtistKeepsCoherence(st, artists[0], env);
      var o := ResolveArtist(st, artists[0], env);
      var tail := artists[1..];
      forall i | 0 <= i < |tail|
        ensures !env.readFails(tail[i]) && !env.writeFails(tail[i])
      {
        assert tail[i] == artists[i + 1];
      }
      ResolveAllKeepsCoherence(o.state, tail, env);
      ResolveAllStep(st, artists, env);
    }
  }

  /** The answer to a lookup that resolves artists holds exactly the genres
      their entries hold in the memory cache afterwards. */
  lemma LookupAnswerIsCachedGenres(st: GenreState, ev: Event, cfg: Config, env: Env)
    requires cfg.lookupEnabled && ExtractGenres(ev.genresText, cfg.vocab) == {}
    requires LookupGenres(st, ev, cfg, env).response.Genres?
    ensures
      var r := LookupGenres(st, ev, cfg, env);
      var artists := ExtractArtists(ev.title, env.separate);
      forall g :: g in r.response.genres <==>
        exists i :: 0 <= i < |artists| && artists[i] in r.state.memory && g in r.state.memory[artists[i]].value
  {
    var r := LookupGenres(st, ev, cfg, env);
    var artists := ExtractArtists(ev.title, env.separate);
    var run := ResolveAll(st, artists, env);
    var answers := run.result.value;
    forall g
      ensures g in r.response.genres <==>
        exists i :: 0 <= i < |artists| && artists[i] in r.state.memory && g in r.state.memory[artists[i]].value
    {
      if g in r.response.genres {
        var i :| 0 <= i < |answers| && g in answers[i].genres;
        assert Get(run.state.memory, artists[i], env.now) == Some(answers[i].genres);
      }
      if exists i :: 0 <= i < |artists| && artists[i] in r.state.memory && g in r.state.memory[artists[i]].value {
        var i :| 0 <= i < |artists| && artists[i] in r.state.memory && g in r.state.memory[artists[i]].value;
        assert Get(run.state.memory, artists[i], env.now) == Some(answers[i].genres);
        assert g in UnionOfGenres(answers);
      }
    }
  }
}
