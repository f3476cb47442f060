/**
 * The remote querier: it asks the dictionary site for a search, reads where
 * the site redirects to, and fetches and parses the lemma or the suggestion
 * page. URLs, requests and answers are values (see Web); the HTTP client is
 * the `transport` function and the page parser is the `parser` pair.
 */
module RemoteQuerier {
  import opened Wrappers
  import opened Strings
  import opened Errors
  import opened Web
  import opened LemmaRecords
  import opened QuerierInterface

  const DefaultHost := "dictionary.cambridge.org"
  const DefaultProtocol := "https"
  const LemmaPath := "/dictionary/english/"
  const SuggestionPath := "/spellcheck/english/"
  const SearchPath := "/search/english/direct/"

  const ErrEmptyLemmaID: Error := Sentinel("ErrEmptyLemmaID", "empty lemmaID")
  const ErrSuggestions: Error := Sentinel("ErrSuggestions", "suggestions exist")

  /** The Parser interface: a page body to its lemmas, or to its suggestions. */
  datatype Parser = Parser(
    parseLemma: string -> Result<seq<LemmaRecord>, Error>,
    parseSuggestion: string -> Result<seq<string>, Error>)

  /** Config's fields as a value. */
  datatype Settings = Settings(
    extraHeader: map<string, string>,
    timeout: int,
    host: string,
    protocol: string,
    maxWorkers: int)

  /** Config: the caller owns it, NewRemote fills in its defaults, the querier keeps reading it. */
  class Config {
    var extraHeader: map<string, string>
    var timeout: int
    var host: string
    var protocol: string
    var maxWorkers: int

    constructor (s: Settings)
      ensures Value() == s
    {
      extraHeader := s.extraHeader;
      timeout := s.timeout;
      host := s.host;
      protocol := s.protocol;
      maxWorkers := s.maxWorkers;
    }

    function Value(): Settings
      reads this
    {
      Settings(extraHeader, timeout, host, protocol, maxWorkers)
    }
  }

  // ---------------------------------------------------------------------------
  // Defaults

  /**
   * The defaults NewRemote writes, as the code is written: an empty protocol
   * puts "https" into the host field and leaves the protocol empty.
   */
  function Defaulted(s: Settings, numCPU: nat): (r: Settings)
    requires numCPU >= 1
    ensures r.protocol == s.protocol && r.extraHeader == s.extraHeader && r.timeout == s.timeout
    ensures r.maxWorkers >= 1 && (s.maxWorkers >= 1 ==> r.maxWorkers == s.maxWorkers)
    ensures s.maxWorkers < 1 ==> r.maxWorkers == numCPU
    ensures s.protocol == "" ==> r.host == DefaultProtocol
    ensures s.protocol != "" ==> r.host == (if s.host == "" then DefaultHost else s.host)
  {
    var withHost := if s.host == "" then s.(host := DefaultHost) else s;
    var withProtocol := if s.protocol == "" then withHost.(host := DefaultProtocol) else withHost;
    if s.maxWorkers < 1 then withProtocol.(maxWorkers := numCPU) else withProtocol
  }

  /**
   * The defaults as evidently intended: an empty protocol becomes "https"
   * and an empty host the dictionary's host, and whatever was set is kept.
   */
  function DefaultedAsIntended(s: Settings, numCPU: nat): (r: Settings)
    requires numCPU >= 1
    ensures r.protocol == (if s.protocol == "" then DefaultProtocol else s.protocol)
    ensures r.host == (if s.host == "" then DefaultHost else s.host)
    ensures r.maxWorkers >= 1 && (s.maxWorkers >= 1 ==> r.maxWorkers == s.maxWorkers)
    ensures s.maxWorkers < 1 ==> r.maxWorkers == numCPU
    ensures r.extraHeader == s.extraHeader && r.timeout == s.timeout
  {
    var withHost := if s.host == "" then s.(host := DefaultHost) else s;
    var withProtocol := if s.protocol == "" then withHost.(protocol := DefaultProtocol) else withHost;
    if s.maxWorkers < 1 then withProtocol.(maxWorkers := numCPU) else withProtocol
  }

  /** The URL every request starts from: the configured scheme and host. */
  function BaseURL(s: Settings): Url {
    Url(s.protocol, s.host, "", map[])
  }

  /**
   * With nothing configured, the code as written sends every request to a
   * host called "https" with no scheme, whatever host was wanted.
   */
  lemma EmptyProtocolLosesHost(s: Settings, numCPU: nat)
    requires numCPU >= 1 && s.protocol == ""
    ensures BaseURL(Defaulted(s, numCPU)) == Url("", "https", "", map[])
  {
  }

  /** The intended defaults make an empty configuration address the dictionary over https. */
  lemma IntendedDefaultsAddressTheDictionary(s: Settings, numCPU: nat)
    requires numCPU >= 1 && s.protocol == "" && s.host == ""
    ensures BaseURL(DefaultedAsIntended(s, numCPU)) == Url("https", "dictionary.cambridge.org", "", map[])
  {
  }

  // ---------------------------------------------------------------------------
  // The querier

  class Remote {
    /** The HTTP client (one that does not follow redirects). */
    const transport: Transport
    const parser: Parser
    /** url.URL's String, only used to spell a URL in an error message. */
    const render: Url -> string
    const config: Config
    /** The size of the worker pool the parsing runs in. */
    const workers: int

    constructor (transport: Transport, parser: Parser, render: Url -> string, config: Config)
      ensures this.transport == transport && this.parser == parser && this.render == render
      ensures this.config == config && workers == config.maxWorkers
    {
      this.transport := transport;
      this.parser := parser;
      this.render := render;
      this.config := config;
      this.workers := config.maxWorkers;
    }

    /** newSearchURL: the search endpoint with exactly the parameters q and datasetsearch. */
    function NewSearchURL(query: string): (u: Url)
      reads config
      ensures u.scheme == config.protocol && u.host == config.host && u.path == SearchPath
      ensures u.query.Keys == {"q", "datasetsearch"}
      ensures u.query["q"] == query && u.query["datasetsearch"] == "english"
    {
      BaseURL(config.Value()).(path := SearchPath, query := map["q" := query, "datasetsearch" := "english"])
    }

    /** newLemmaURL: the lemma page, path.Join of the lemma directory and the id. */
    function NewLemmaURL(lemmaID: string): (u: Url)
      reads config
      ensures u.scheme == config.protocol && u.host == config.host && u.query == map[]
      ensures PlainSegment(lemmaID) ==> u.path == LemmaPath + lemmaID
      ensures lemmaID == "" ==> u.path == "/dictionary/english"
    {
      assert LemmaPath == "/" + "dictionary" + "/" + "english" + "/";
      JoinUnderDirectory("dictionary", "english", lemmaID);
      BaseURL(config.Value()).(path := JoinPath(LemmaPath, lemmaID))
    }

    /** The request newRequest assembles for a URL. */
    function RequestFor(u: Url): Request
      reads config
    {
      Request("GET", u, map k | k in config.extraHeader :: [config.extraHeader[k]])
    }

    /** newRequest: a GET for `u`, with every extra header added once. */
    method NewRequest(u: Url) returns (req: Request)
      ensures req.verb == "GET" && req.url == u
      ensures req.header.Keys == config.extraHeader.Keys
      ensures forall k :: k in req.header ==> req.header[k] == [config.extraHeader[k]]
      ensures req == RequestFor(u)
    {
      var header: map<string, seq<string>> := map[];
      var rest := config.extraHeader.Keys;
      while rest != {}
        invariant rest <= config.extraHeader.Keys
        invariant header.Keys == config.extraHeader.Keys - rest
        invariant forall k :: k in header ==> header[k] == [config.extraHeader[k]]
        decreases rest
      {
        var k :| k in rest;
        header := header[k := [config.extraHeader[k]]];
        rest := rest - {k};
      }
      req := Request("GET", u, header);
    }

    /** get: send the request and insist on the expected status. */
    function Get(u: Url, expected: int): (r: Result<Response, Error>)
      reads config
      ensures r.Success? <==> transport(RequestFor(u)).Success? && transport(RequestFor(u)).value.status == expected
      ensures r.Success? ==> r.value == transport(RequestFor(u)).value
      ensures transport(RequestFor(u)).Failure? ==>
        r == Failure(Wrapped("failed to make request: ", Plain(transport(RequestFor(u)).error)))
      ensures transport(RequestFor(u)).Success? && transport(RequestFor(u)).value.status != expected ==>
        r == Failure(Plain("unexpected response code: " + Decimal(transport(RequestFor(u)).value.status)))
    {
      match transport(RequestFor(u))
      case Failure(e) => Failure(Wrapped("failed to make request: ", Plain(e)))
      case Success(response) =>
        if response.status != expected then
          Failure(Plain("unexpected response code: " + Decimal(response.status)))
        else
          Success(response)
    }

    /** getSearch: the search must answer 302 Found, and its Location is the redirect. */
    function GetSearch(u: Url): (r: Result<Url, Error>)
      reads config
      ensures r.Success? ==> Get(u, StatusFound).Success? && Get(u, StatusFound).value.location == Success(r.value)
      ensures Get(u, StatusFound).Failure? ==> r == Failure(Wrapped("failed to perform get: ", Get(u, StatusFound).error))
      ensures Get(u, StatusFound).Success? && Get(u, StatusFound).value.location.Failure? ==>
        r == Failure(Wrapped("can not parse redirect url: ", Plain(Get(u, StatusFound).value.location.error)))
      ensures Get(u, StatusFound).Success? && Get(u, StatusFound).value.location.Success? ==>
        r == Success(Get(u, StatusFound).value.location.value)
    {
      match Get(u, StatusFound)
      case Failure(e) => Failure(Wrapped("failed to perform get: ", e))
      case Success(response) =>
        match response.location
        case Failure(cause) => Failure(Wrapped("can not parse redirect url: ", Plain(cause)))
        case Success(redirect) => Success(redirect)
    }

    /** getSuggestions: the page must answer 200 OK; the parser's error comes back unwrapped. */
    function GetSuggestions(u: Url): (r: Result<seq<string>, Error>)
      reads config
      ensures r.Success? ==> Get(u, StatusOK).Success? && r == parser.parseSuggestion(Get(u, StatusOK).value.body)
      ensures Get(u, StatusOK).Failure? ==> r == Failure(Wrapped("failed to perform get: ", Get(u, StatusOK).error))
      ensures Get(u, StatusOK).Success? ==> r == parser.parseSuggestion(Get(u, StatusOK).value.body)
    {
      match Get(u, StatusOK)
      case Failure(e) => Failure(Wrapped("failed to perform get: ", e))
      case Success(response) => parser.parseSuggestion(response.body)
    }

    /**
     * Search: where the search redirects decides the answer. A lemma page gives
     * its id, the lemma directory itself is ErrEmptyLemmaID, a suggestion page
     * gives its suggestions with ErrSuggestions, anything else is an error.
     */
    function Search(query: string): (r: SearchAnswer)
      reads config
      ensures r.err.None? <==> r.lemmaID != ""
      ensures r.err.None? ==> '/' !in r.lemmaID && r.suggestions == []
      ensures r.suggestions != [] ==> r.err == Some(ErrSuggestions)
      ensures GetSearch(NewSearchURL(query)).Failure? ==>
        r == SearchAnswer("", [], Some(Wrapped("can not perform search: ", GetSearch(NewSearchURL(query)).error)))
    {
      match GetSearch(NewSearchURL(query))
      case Failure(e) => SearchAnswer("", [], Some(Wrapped("can not perform search: ", e)))
      case Success(redirect) => Classify(redirect)
    }

    /** The switch on the redirect's path. */
    function Classify(redirect: Url): (r: SearchAnswer)
      reads config
      ensures r.err.None? <==> r.lemmaID != ""
      ensures r.err.None? ==> '/' !in r.lemmaID && r.suggestions == []
      ensures r.suggestions != [] ==> r.err == Some(ErrSuggestions)
    {
      var p := redirect.path;
      if HasPrefix(p, LemmaPath) then
        if HasSuffix(p, LemmaPath) then SearchAnswer("", [], Some(ErrEmptyLemmaID))
        else
          assert p[1] == LemmaPath[1];
          BaseIsLastSegment(p, 1);
          SearchAnswer(Base(p), [], None)
      else if HasPrefix(p, SuggestionPath) then
        match GetSuggestions(redirect)
        case Failure(e) => SearchAnswer("", [], Some(Wrapped("can not get suggestions: ", e)))
        case Success(suggestions) => SearchAnswer("", suggestions, Some(ErrSuggestions))
      else
        SearchAnswer("", [], Some(Plain("uknown redirect: " + render(redirect))))
    }

    /** GetLemma: the lemma page must answer 200 OK; the parser's error comes back unwrapped. */
    function GetLemma(lemmaID: string): (r: LemmaAnswer)
      reads config
      ensures r.err.Some? ==> r.lemmas == []
      ensures Get(NewLemmaURL(lemmaID), StatusOK).Failure? ==>
        r == LemmaAnswer([], Some(Wrapped("failed to get lemma: ", Get(NewLemmaURL(lemmaID), StatusOK).error)))
      ensures Get(NewLemmaURL(lemmaID), StatusOK).Success? ==>
        var parsed := parser.parseLemma(Get(NewLemmaURL(lemmaID), StatusOK).value.body);
        r == if parsed.Success? then LemmaAnswer(parsed.value, None) else LemmaAnswer([], Some(parsed.error))
    {
      match Get(NewLemmaURL(lemmaID), StatusOK)
      case Failure(e) => LemmaAnswer([], Some(Wrapped("failed to get lemma: ", e)))
      case Success(response) =>
        match parser.parseLemma(response.body)
        case Failure(e) => LemmaAnswer([], Some(e))
        case Success(lemmas) => LemmaAnswer(lemmas, None)
    }
  }

  /**
   * NewRemote: fill in the caller's config in place (as written, see
   * Defaulted) and build a querier that reads it, with a pool of
   * MaxWorkers workers. `numCPU` is runtime.NumCPU.
   */
  method NewRemote(transport: Transport, parser: Parser, render: Url -> string, config: Config, numCPU: nat)
    returns (q: Remote)
    requires numCPU >= 1
    modifies config
    ensures config.Value() == Defaulted(old(config.Value()), numCPU)
    ensures fresh(q) && q.config == config && q.transport == transport && q.parser == parser && q.render == render
    ensures q.workers == config.maxWorkers && q.workers >= 1
  {
    if config.host == "" {
      config.host := DefaultHost;
    }
    if config.protocol == "" {
      config.host := DefaultProtocol;
    }
    if config.maxWorkers < 1 {
      config.maxWorkers := numCPU;
    }
    q := new Remote(transport, parser, render, config);
  }

  // ---------------------------------------------------------------------------
  // How a search and a lemma fetch fit together

  /** A lemma page's path starts with the lemma directory, does not end with it, and has the id as its base. */
  lemma LemmaPagePath(id: string)
    requires PlainSegment(id)
    ensures var p := LemmaPath + id;
      HasPrefix(p, LemmaPath) && !HasSuffix(p, LemmaPath) && Base(p) == id
  {
    var p := LemmaPath + id;
    assert p == "/dictionary/english" + "/" + id;
    BaseOfSegment("/dictionary/english", id);
    assert p[..|LemmaPath|] == LemmaPath;
    assert p[|p| - 1] == id[|id| - 1];
    assert p[|p| - |LemmaPath|..][|LemmaPath| - 1] == p[|p| - 1];
  }

  /**
   * A search that redirects to a lemma page finds that page's id, and the
   * lemma URL built from the id is the page the search redirected to.
   */
  lemma SearchFindsLemmaPage(q: Remote, query: string, redirect: Url, id: string)
    requires q.GetSearch(q.NewSearchURL(query)) == Success(redirect)
    requires redirect.path == LemmaPath + id && PlainSegment(id)
    ensures q.Search(query) == SearchAnswer(id, [], None)
    ensures q.NewLemmaURL(q.Search(query).lemmaID).path == redirect.path
  {
    LemmaPagePath(id);
    assert q.Classify(redirect) == SearchAnswer(id, [], None);
  }

  /** A redirect to a path that starts and ends with the lemma directory has no id. */
  lemma SearchEmptyLemma(q: Remote, query: string, redirect: Url)
    requires q.GetSearch(q.NewSearchURL(query)) == Success(redirect)
    requires HasPrefix(redirect.path, LemmaPath) && HasSuffix(redirect.path, LemmaPath)
    ensures q.Search(query) == SearchAnswer("", [], Some(ErrEmptyLemmaID))
    ensures Is(q.Search(query).err.value, ErrEmptyLemmaID)
  {
  }

  /**
   * A redirect to the suggestion page answers with its suggestions and
   * ErrSuggestions, or with the fetch's error and no suggestions.
   */
  lemma SearchSuggests(q: Remote, query: string, redirect: Url)
    requires q.GetSearch(q.NewSearchURL(query)) == Success(redirect)
    requires HasPrefix(redirect.path, SuggestionPath)
    ensures q.GetSuggestions(redirect).Success? ==>
      q.Search(query) == SearchAnswer("", q.GetSuggestions(redirect).value, Some(ErrSuggestions))
    ensures q.GetSuggestions(redirect).Failure? ==>
      q.Search(query) == SearchAnswer("", [], Some(Wrapped("can not get suggestions: ", q.GetSuggestions(redirect).error)))
  {
    assert !HasPrefix(redirect.path, LemmaPath) by {
      assert redirect.path[1] == 's';
    }
  }

  /** Any other redirect is an unknown-redirect error, with no id and no suggestions. */
  lemma SearchUnknownRedirect(q: Remote, query: string, redirect: Url)
    requires q.GetSearch(q.NewSearchURL(query)) == Success(redirect)
    requires !HasPrefix(redirect.path, LemmaPath) && !HasPrefix(redirect.path, SuggestionPath)
    ensures q.Search(query) == SearchAnswer("", [], Some(Plain("uknown redirect: " + q.render(redirect))))
  {
  }

  /** Only a 302 makes a search get anywhere, and only a 200 gives a lemma page. */
  lemma StatusDecides(q: Remote, query: string, lemmaID: string)
    ensures q.Search(query).err.None? ==>
      q.transport(q.RequestFor(q.NewSearchURL(query))).Success?
      && q.transport(q.RequestFor(q.NewSearchURL(query))).value.status == StatusFound
    ensures q.GetLemma(lemmaID).err.None? ==>
      q.transport(q.RequestFor(q.NewLemmaURL(lemmaID))).Success?
      && q.transport(q.RequestFor(q.NewLemmaURL(lemmaID))).value.status == StatusOK
  {
  }
}
