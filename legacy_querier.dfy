/**
 * The older querier of the top-level package: the same search protocol with a
 * fixed https scheme, no empty-id check, and suggestions reported through the
 * ErrLemmaNotFound error value.
 */
module LegacyQuerier {
  import opened Wrappers
  import opened Strings
  import opened Errors
  import opened Web
  import opened LemmaRecords

  const DefaultHost := "dictionary.cambridge.org"
  const LemmaPath := "/dictionary/english/"
  const SuggestionPath := "/spellcheck/english/"
  const SearchPath := "/search/english/direct/"
  const Scheme := "https"

  /** Search's two results: the lemma id and the error. */
  datatype SearchAnswer = SearchAnswer(lemmaID: string, err: Option<Error>)

  /** ErrLemmaNotFound.Suggestions: the suggestions the error carries. */
  function Suggestions(e: Error): seq<string>
    requires e.LemmaNotFound?
  {
    e.suggestions
  }

  /** QuerierConfig: the caller owns it and NewQuerier fills in the host. */
  class QuerierConfig {
    var extraHeader: map<string, string>
    var timeout: int
    var host: string

    constructor (extraHeader: map<string, string>, timeout: int, host: string)
      ensures this.extraHeader == extraHeader && this.timeout == timeout && this.host == host
    {
      this.extraHeader := extraHeader;
      this.timeout := timeout;
      this.host := host;
    }
  }

  class Querier {
    /** The HTTP client (one that does not follow redirects). */
    const transport: Transport
    /** The package's ParseLemmaHTML and ParseSuggestionHTML, on a page body. */
    const parseLemma: string -> Result<seq<LemmaRecord>, Error>
    const parseSuggestion: string -> Result<seq<string>, Error>
    /** url.URL's String, only used to spell a URL in an error message. */
    const render: Url -> string
    const config: QuerierConfig

    constructor (transport: Transport, parseLemma: string -> Result<seq<LemmaRecord>, Error>,
                 parseSuggestion: string -> Result<seq<string>, Error>, render: Url -> string, config: QuerierConfig)
      ensures this.transport == transport && this.parseLemma == parseLemma
      ensures this.parseSuggestion == parseSuggestion && this.render == render && this.config == config
    {
      this.transport := transport;
      this.parseLemma := parseLemma;
      this.parseSuggestion := parseSuggestion;
      this.render := render;
      this.config := config;
    }

    /** newURL: always https, to the configured host. */
    function NewURL(): Url
      reads config
    {
      Url(Scheme, config.host, "", map[])
    }

    /** newSearchURL: the search endpoint with exactly the parameters q and datasetsearch. */
    function NewSearchURL(query: string): (u: Url)
      reads config
      ensures u.scheme == "https" && u.host == config.host && u.path == SearchPath
      ensures u.query.Keys == {"q", "datasetsearch"}
      ensures u.query["q"] == query && u.query["datasetsearch"] == "english"
    {
      NewURL().(path := SearchPath, query := map["q" := query, "datasetsearch" := "english"])
    }

    /** newLemmaURL: the lemma page, path.Join of the lemma directory and the id. */
    function NewLemmaURL(lemmaID: string): (u: Url)
      reads config
      ensures u.scheme == "https" && u.host == config.host && u.query == map[]
      ensures PlainSegment(lemmaID) ==> u.path == LemmaPath + lemmaID
    {
      assert LemmaPath == "/" + "dictionary" + "/" + "english" + "/";
      JoinUnderDirectory("dictionary", "english", lemmaID);
      NewURL().(path := JoinPath(LemmaPath, lemmaID))
    }

    /** The request newRequest assembles for a URL. */
    function RequestFor(u: Url): Request
      reads config
    {
      Request("GET", u, map k | k in config.extraHeader :: [config.extraHeader[k]])
    }

    /** newRequest: a GET for `u`, with every extra header added once. */
    method NewRequest(u: Url) returns (req: Request)
      ensures req.verb == "GET" && req.url == u
      ensures req.header.Keys == config.extraHeader.Keys
      ensures forall k :: k in req.header ==> req.header[k] == [config.extraHeader[k]]
      ensures req == RequestFor(u)
    {
      var header: map<string, seq<string>> := map[];
      var rest := config.extraHeader.Keys;
      while rest != {}
        invariant rest <= config.extraHeader.Keys
        invariant header.Keys == config.extraHeader.Keys - rest
        invariant forall k :: k in header ==> header[k] == [config.extraHeader[k]]
        decreases rest
      {
        var k :| k in rest;
        header := header[k := [config.extraHeader[k]]];
        rest := rest - {k};
      }
      req := Request("GET", u, header);
    }

    /** get: send the request and insist on the expected status. */
    function Get(u: Url, expected: int): (r: Result<Response, Error>)
      reads config
      ensures r.Success? <==> transport(RequestFor(u)).Success? && transport(RequestFor(u)).value.status == expected
      ensures r.Success? ==> r.value == transport(RequestFor(u)).value
      ensures transport(RequestFor(u)).Failure? ==>
        r == Failure(Wrapped("failed to make request: ", Plain(transport(RequestFor(u)).error)))
      ensures transport(RequestFor(u)).Success? && transport(RequestFor(u)).value.status != expected ==>
        r == Failure(Plain("unexpected response code: " + Decimal(transport(RequestFor(u)).value.status)))
    {
      match transport(RequestFor(u))
      case Failure(e) => Failure(Wrapped("failed to make request: ", Plain(e)))
      case Success(response) =>
        if response.status != expected then
          Failure(Plain("unexpected response code: " + Decimal(response.status)))
        else
          Success(response)
    }

    /** getSearch: the search must answer 302 Found; the Location header, parsed, is the redirect. */
    function GetSearch(u: Url): (r: Result<Url, Error>)
      reads config
      ensures r.Success? ==> Get(u, StatusFound).Success? && Get(u, StatusFound).value.location == Success(r.value)
      ensures Get(u, StatusFound).Failure? ==> r == Failure(Wrapped("failed to perform get: ", Get(u, StatusFound).error))
      ensures Get(u, StatusFound).Success? && Get(u, StatusFound).value.location.Failure? ==>
        r == Failure(Wrapped("can not parse redirect url: ", Plain(Get(u, StatusFound).value.location.error)))
      ensures Get(u, StatusFound).Success? && Get(u, StatusFound).value.location.Success? ==>
        r == Success(Get(u, StatusFound).value.location.value)
    {
      match Get(u, StatusFound)
      case Failure(e) => Failure(Wrapped("failed to perform get: ", e))
      case Success(response) =>
        match response.location
        case Failure(cause) => Failure(Wrapped("can not parse redirect url: ", Plain(cause)))
        case Success(redirect) => Success(redirect)
    }

    /** getSuggestions: the page must answer 200 OK; the parser's error comes back unwrapped. */
    function GetSuggestions(u: Url): (r: Result<seq<string>, Error>)
      reads config
      ensures Get(u, StatusOK).Failure? ==> r == Failure(Wrapped("failed to perform get: ", Get(u, StatusOK).error))
      ensures Get(u, StatusOK).Success? ==> r == parseSuggestion(Get(u, StatusOK).value.body)
    {
      match Get(u, StatusOK)
      case Failure(e) => Failure(Wrapped("failed to perform get: ", e))
      case Success(response) => parseSuggestion(response.body)
    }

    /**
     * Search: a lemma-directory redirect gives the path's base, with no check
     * for an empty id; a suggestion redirect gives ErrLemmaNotFound.
     */
    function Search(query: string): (r: SearchAnswer)
      reads config
      ensures r.err.None? <==> r.lemmaID != ""
      ensures r.err.None? ==> '/' !in r.lemmaID
    {
      match GetSearch(NewSearchURL(query))
      case Failure(e) => SearchAnswer("", Some(Wrapped("can not perform search: ", e)))
      case Success(redirect) =>
        var p := redirect.path;
        if HasPrefix(p, LemmaPath) then
          assert p[1] == LemmaPath[1];
          BaseIsLastSegment(p, 1);
          SearchAnswer(Base(p), None)
        else if HasPrefix(p, SuggestionPath) then
          match GetSuggestions(redirect)
          case Failure(e) => SearchAnswer("", Some(Wrapped("can not get suggestions: ", e)))
          case Success(suggestions) => SearchAnswer("", Some(LemmaNotFound(suggestions)))
        else
          SearchAnswer("", Some(Plain("uknown redirect: " + render(redirect))))
    }

    /** GetLemma: the lemma page must answer 200 OK; the parser's error comes back unwrapped. */
    function GetLemma(lemmaID: string): (r: Result<seq<LemmaRecord>, Error>)
      reads config
      ensures Get(NewLemmaURL(lemmaID), StatusOK).Failure? ==>
        r == Failure(Wrapped("failed to get lemma: ", Get(NewLemmaURL(lemmaID), StatusOK).error))
      ensures Get(NewLemmaURL(lemmaID), StatusOK).Success? ==>
        r == parseLemma(Get(NewLemmaURL(lemmaID), StatusOK).value.body)
    {
      match Get(NewLemmaURL(lemmaID), StatusOK)
      case Failure(e) => Failure(Wrapped("failed to get lemma: ", e))
      case Success(response) => parseLemma(response.body)
    }
  }

  /** NewQuerier: an empty host in the caller's config becomes the dictionary's host. */
  method NewQuerier(transport: Transport, parseLemma: string -> Result<seq<LemmaRecord>, Error>,
                    parseSuggestion: string -> Result<seq<string>, Error>, render: Url -> string, config: QuerierConfig)
    returns (q: Querier)
    modifies config
    ensures config.host == if old(config.host) == "" then DefaultHost else old(config.host)
    ensures config.extraHeader == old(config.extraHeader) && config.timeout == old(config.timeout)
    ensures fresh(q) && q.config == config && q.transport == transport && q.render == render
    ensures q.parseLemma == parseLemma && q.parseSuggestion == parseSuggestion
  {
    if config.host == "" {
      config.host := DefaultHost;
    }
    q := new Querier(transport, parseLemma, parseSuggestion, render, config);
  }

  // ---------------------------------------------------------------------------
  // The redirect cases

  /** Without the empty-id check, a redirect to the lemma directory itself yields the id "english". */
  lemma DirectoryRedirectGivesEnglish(q: Querier, query: string, redirect: Url)
    requires q.GetSearch(q.NewSearchURL(query)) == Success(redirect)
    requires redirect.path == LemmaPath
    ensures q.Search(query) == SearchAnswer("english", None)
  {
    BaseOfDictionaryRoot();
    assert HasPrefix(redirect.path, LemmaPath);
  }

  /** A redirect to a lemma page finds that page's id, and the lemma URL for the id is that page. */
  lemma SearchFindsLemmaPage(q: Querier, query: string, redirect: Url, id: string)
    requires q.GetSearch(q.NewSearchURL(query)) == Success(redirect)
    requires redirect.path == LemmaPath + id && PlainSegment(id)
    ensures q.Search(query) == SearchAnswer(id, None)
    ensures q.NewLemmaURL(q.Search(query).lemmaID).path == redirect.path
  {
    var p := redirect.path;
    assert p == "/dictionary/english" + "/" + id;
    BaseOfSegment("/dictionary/english", id);
    assert p[..|LemmaPath|] == LemmaPath;
  }

  /**
   * A redirect to the suggestion page reports its suggestions in an
   * ErrLemmaNotFound whose message is always "lemma not found".
   */
  lemma SuggestionsInNotFound(q: Querier, query: string, redirect: Url)
    requires q.GetSearch(q.NewSearchURL(query)) == Success(redirect)
    requires HasPrefix(redirect.path, SuggestionPath)
    requires q.GetSuggestions(redirect).Success?
    ensures q.Search(query).lemmaID == "" && q.Search(query).err.Some?
    ensures q.Search(query).err.value.LemmaNotFound?
    ensures Suggestions(q.Search(query).err.value) == q.GetSuggestions(redirect).value
    ensures Message(q.Search(query).err.value) == "lemma not found"
  {
    assert redirect.path[1] == 's';
  }

  /** Any other redirect is an unknown-redirect error. */
  lemma SearchUnknownRedirect(q: Querier, query: string, redirect: Url)
    requires q.GetSearch(q.NewSearchURL(query)) == Success(redirect)
    requires !HasPrefix(redirect.path, LemmaPath) && !HasPrefix(redirect.path, SuggestionPath)
    ensures q.Search(query) == SearchAnswer("", Some(Plain("uknown redirect: " + q.render(redirect))))
  {
  }
}
