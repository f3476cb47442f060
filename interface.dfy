/**
 * What every querier returns (the Querier interface of the querier package),
 * and a querier whose behaviour is given from outside, for the decorator that
 * wraps one.
 */
module QuerierInterface {
  import opened Wrappers
  import opened Errors
  import opened LemmaRecords

  /** GetLemma's two results: the lemmas and the error, either of which may be empty. */
  datatype LemmaAnswer = LemmaAnswer(lemmas: seq<LemmaRecord>, err: Option<Error>)

  /** Search's three results: the lemma id, the suggestions and the error. */
  datatype SearchAnswer = SearchAnswer(lemmaID: string, suggestions: seq<string>, err: Option<Error>)

  /** A querier seen from outside: what each call answers, and what Close returns. */
  datatype Querier = Querier(
    getLemma: string -> LemmaAnswer,
    search: string -> SearchAnswer,
    close: Option<Error>)
}
