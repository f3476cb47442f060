/**
 * The record the lemma extractor produces, once as a value and once as the
 * mutable context object (`*Lemma`) the extraction walk passes down and fills in.
 */
module LemmaRecords {

  /** One dictionary sense of a word: the JSON-serialisable `Lemma` struct (its `Lemma` field is `word` here). */
  datatype LemmaRecord = LemmaRecord(
    word: string,
    partOfSpeech: seq<string>,
    language: string,
    transcriptions: map<string, seq<string>>,
    definition: string,
    guideWord: string,
    alternative: string,
    grammar: seq<string>,
    examples: seq<string>)

  /** `new(Lemma)`: every field at its zero value (a nil map and nil slices read as empty). */
  const EmptyRecord: LemmaRecord := LemmaRecord("", [], "", map[], "", "", "", [], [])

  /** The context object: each handler assigns some of its fields in place. */
  class Lemma {
    var word: string
    var partOfSpeech: seq<string>
    var language: string
    var transcriptions: map<string, seq<string>>
    var definition: string
    var guideWord: string
    var alternative: string
    var grammar: seq<string>
    var examples: seq<string>

    /** A context holding the given field values. */
    constructor (v: LemmaRecord)
      ensures Value() == v
    {
      word := v.word;
      partOfSpeech := v.partOfSpeech;
      language := v.language;
      transcriptions := v.transcriptions;
      definition := v.definition;
      guideWord := v.guideWord;
      alternative := v.alternative;
      grammar := v.grammar;
      examples := v.examples;
    }

    /** `newLemmaContext := *lctx`: a struct copy, a distinct object with the same fields. */
    constructor Copy(other: Lemma)
      ensures Value() == other.Value()
    {
      word := other.word;
      partOfSpeech := other.partOfSpeech;
      language := other.language;
      transcriptions := other.transcriptions;
      definition := other.definition;
      guideWord := other.guideWord;
      alternative := other.alternative;
      grammar := other.grammar;
      examples := other.examples;
    }

    function Value(): LemmaRecord
      reads this
    {
      LemmaRecord(word, partOfSpeech, language, transcriptions, definition,
                  guideWord, alternative, grammar, examples)
    }
  }

  /** The field values of a list of context objects, in order. */
  function Values(ls: seq<Lemma>): (r: seq<LemmaRecord>)
    reads ls
    ensures |r| == |ls| && forall i :: 0 <= i < |ls| ==> r[i] == ls[i].Value()
  {
    if ls == [] then [] else [ls[0].Value()] + Values(ls[1..])
  }

  lemma ValuesAppend(a: seq<Lemma>, b: seq<Lemma>)
    ensures Values(a + b) == Values(a) + Values(b)
  {
    var l, r := Values(a + b), Values(a) + Values(b);
    assert |l| == |r|;
    forall i | 0 <= i < |l| ensures l[i] == r[i] {
      if i < |a| {
        assert (a + b)[i] == a[i];
      } else {
        assert (a + b)[i] == b[i - |a|];
      }
    }
  }
}
