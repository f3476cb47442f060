# camgo, modelled in Dafny

camgo looks words up in the Cambridge online dictionary. This model has four layers:

- **The lemma extractor.** It walks a parsed dictionary page and turns every sense into a `Lemma` record. The record holds:
  - headword, part of speech, language, transcriptions, definition, guide word, alternative form, grammar codes and examples.
- **The suggestion extractor.** It reads the spell-check page.
- **The remote querier.** It asks the site for a search and classifies where the search redirects. It then fetches and parses the lemma page or the suggestion page.
- **The caching decorator.** It keeps every answer, errors included, in a key/value store.

The repository carries two versions of the extractor and of the remote querier:

- the current one, under `pkg/`;
- an older one, at the repository root.

Both versions are modelled.

The model is organised as follows:

- **Dom** (`dom.dfy`). A page is an element tree.
  - A selector is a list of compound selectors with child and sibling combinators.
  - It is matched at a (parent, index) position.
  - `Find` (the descendants) and `Children` (the element children) return hits in document order.
- **LemmaParser** (`lemma_parser.dfy`). Every extractor function is a pure function over that tree.
  - A `Variant` chooses between the current and the older copy.
  - `IpaSuperscript` is a function parameter.
  - A page-level panic is an explicit `Panic` failure; it drops every record gathered so far.
- **LemmaWalk** (`lemma_walk.dfy`). This is the extractor as the code runs it.
  - A context object (`LemmaRecords.Lemma`) has fields that the handlers assign in place.
  - Each child gets a fresh copy of the context.
  - `enrichLemmas` is a loop that stops at the first failure.
  - The transcription map and the IPA string are built in loops.
  - Every method is proved equal to the corresponding LemmaParser function.
- **LemmaProperties and LemmaExamples.** These state what the extractor promises:
  - stopping at the first failure while keeping partial results;
  - which fields a record keeps from its context;
  - where a panic can and cannot come from;
  - how definitions, transcriptions and IPA strings are normalised;
  - two small pages on which the behaviour can be read off.
- **SuggestionParser.** The suggestion list is a projection of the page, with a check that it is not empty.
- **Web, RemoteQuerier and LegacyQuerier.**
  - The HTTP client is a `Transport` function from a request to a response or a failure.
  - `path.Base` and `path.Join` are written out on strings.
  - The current and the older querier are classes over a configuration object that the constructor fills in place.
- **QuerierStorage.**
  - The database is a map field of a `Storage` class.
  - The clock (`now`) and the failures of the database are fields that the environment sets.
  - Keys are the type byte followed by the UTF-8 bytes of the string.
- **CachedQuerier.** The decorator is a class.
  - It records the calls it makes on the wrapped querier in a `log` of events.
  - That log is how "the querier is not called" is stated.

Two behaviours of the extractor are proved rather than assumed:

- **Both entry matchers select elements the dispatch rejects, so a page-wide panic is reachable in both copies.**
  - In the current copy, a `div` of class `idiom-blocks` triggers it.
  - In the older copy, a `div` of class `dpos-header` triggers it.
- **A `def-block` inside a `phrase-block` is emitted twice.** `parseDSense` reaches it once through the phrase-block and once directly.

The `default: panic` of the dsense dispatch is reached only through a form feed in a class attribute:

- the selector `div.def-block` splits classes on a form feed, as cascadia does;
- goquery's `HasClass` does not split on a form feed;
- so a `div` of class "def-block\fx" is selected, and then neither case of the switch accepts it.

## Model

| member | source | states |
|---|---|---|
| LemmaRecords.Lemma.Copy | pkg/parser/lemma_parser.go:20 | the copy handed to a child is a new object with the parent's field values |
| LemmaRecords.ValuesAppend | pkg/parser/lemma_parser.go:16-30 | the records of two lists of contexts, appended, are the records of each list appended |
| LemmaParser.LanguageFromDataId | pkg/parser/lemma_parser.go:45-59 | "unknown", "cald4", "cacd" and "cbed" map to "unknown", "british", "american-english" and "business-english"; any other data-id is the unknown-data-id error |
| LemmaParser.ParseDictionary | pkg/parser/lemma_parser.go:67-92 | a dictionary whose data-id is not one of the four yields no records and that error |
| LemmaParser.PartOfSpeechSorted | pkg/parser/lemma_parser.go:147-154 | the part of speech is sorted ascending and is a permutation of the texts of the selected elements |
| LemmaParser.GrammarSorted | pkg/parser/lemma_parser.go:133-142 | the grammar codes are sorted ascending and are a permutation of the texts of the selected elements |
| LemmaParser.Ipas | pkg/parser/lemma_parser.go:161-170 | one IPA string per selected `span.ipa` of a pronunciation block |
| LemmaParser.TranscriptionsOfSnoc | pkg/parser/lemma_parser.go:161-170 | the map is built one pronunciation block at a time, each block's region overwriting the previous entry |
| LemmaParser.GuideWordLower | pkg/parser/lemma_parser.go:215-218 | the guide word contains no ASCII upper-case letter |
| LemmaParser.NormaliseDefinitionSpec | pkg/parser/lemma_parser.go:243-251 | current copy: the result is the slice of the text, with white-space runs collapsed, left after cutting ' ', '\n', '\t' and ':' from both ends; the collapse keeps every other character in order; neither end is a cut character and no two white-space characters are adjacent. Older copy (lemma_parser.go:253-261): white space trimmed, then exactly one trailing ':' removed when there is one |
| LemmaParser.DefinitionExample | pkg/parser/lemma_parser.go:248-250 | the text "a   \n  b:" becomes "a b" |
| LemmaParser.Definition | pkg/parser/lemma_parser.go:243-251 | the definition fails exactly when `ddef_h` has no `div.def`; that failure is the no-definition error |
| LemmaParser.ExamplesTrimmed | pkg/parser/lemma_parser.go:261-265 | one example per selected element, each with no white space at either end |
| LemmaParser.Enrich | pkg/parser/lemma_parser.go:16-30 | a panicking selection yields no records |
| LemmaParser.EnrichAdvances | pkg/parser/lemma_parser.go:19-28 | a child that succeeds appends its records and the walk continues with the next sibling |
| LemmaParser.EnrichStops | pkg/parser/lemma_parser.go:21-25 | a child that fails ends the walk with its error and the records gathered before it |
| LemmaParser.EnrichDone | pkg/parser/lemma_parser.go:29 | after the last child the walk answers the gathered records and no error |
| LemmaParser.ParseLemmaHTML | pkg/parser/lemma_parser.go:34-43 | a page that could not be built is an error with no records |
| LemmaParser.UpdateWithHeader | pkg/parser/lemma_parser.go:109-121 | fails exactly when there is no `span[class^=headword]`; otherwise keeps the language and the guide word |
| LemmaParser.ParsePosHeader | pkg/parser/lemma_parser.go:97-103 | a pos-header without a headword yields the missing-headword error and no records |
| LemmaParser.ParseDefBlock | pkg/parser/lemma_parser.go:224-238 | succeeds exactly when `ddef_h` holds a `div.def`; success is exactly one record, failure is the no-definition error with no records |
| LemmaParser.ParseDefBlockRecord | pkg/parser/lemma_parser.go:224-238 | the one record's definition is in the normal form of the `div.def` text; the def-info grammar replaces the inherited one only when non-empty; the alternative is the `span.v` text whatever the context held; the examples are those of the def-body; headword, part of speech, language, transcriptions and guide word are the context's |
| LemmaParser.ParsePhraseBlock | pkg/parser/lemma_parser.go:272-283 | the older copy's handler returns no records and no error |
| LemmaParser.UpdateWithPVBlock | pkg/parser/lemma_parser.go:301-316 | fails exactly when the `di-title` text is empty; otherwise the headword is that text and the language is kept |
| LemmaParser.ParsePVBlock | pkg/parser/lemma_parser.go:287-295 | an empty title yields the missing-headword error in the current copy; the older copy's handler returns nothing |
| LemmaParser.ParseIdiomBlock | pkg/parser/lemma_parser.go:320-331 | an empty title yields the missing-headword error in the current copy; the older copy's handler returns nothing |
| LemmaWalk.EnrichLemmas | pkg/parser/lemma_parser.go:16-30 | the loop returns exactly the records and the error of `Enrich`, every record a new object |
| LemmaWalk.HandleCopy | pkg/parser/lemma_parser.go:19-21 | handling a child on a copy answers `Apply` on the parent's values and leaves the parent's context untouched |
| LemmaWalk.ApplyHandler | pkg/parser/lemma_parser.go:20-21 | the dispatch to a handler answers `Apply` on the context's values |
| LemmaWalk.ParseLemmaHTMLIn | pkg/parser/lemma_parser.go:34-43 | answers `ParseLemmaHTML` |
| LemmaWalk.ParseDictionaryIn | pkg/parser/lemma_parser.go:67-92 | answers `ParseDictionary` on the context's values |
| LemmaWalk.UpdateWithPosgramIn | pkg/parser/lemma_parser.go:123-127 | the context afterwards is `UpdateWithPosgram` of its values before |
| LemmaWalk.UpdateWithHeaderIn | pkg/parser/lemma_parser.go:109-121 | the context afterwards, and the error, are those of `UpdateWithHeader` |
| LemmaWalk.ParsePosHeaderIn | pkg/parser/lemma_parser.go:97-103 | answers `ParsePosHeader` on the context's values |
| LemmaWalk.GetTranscriptions | pkg/parser/lemma_parser.go:161-170 | the map the loop fills is `Transcriptions` |
| LemmaWalk.MapIpaToString | pkg/parser/lemma_parser.go:165-167 | one string per IPA span, each the IPA string of that span's contents |
| LemmaWalk.IpaToString | pkg/parser/lemma_parser.go:172-183 | the string the loop appends is the IPA string of the node's contents |
| LemmaWalk.ParseDSenseIn | pkg/parser/lemma_parser.go:196-211 | answers `ParseDSense` on the context's values |
| LemmaWalk.ParseDefBlockIn | pkg/parser/lemma_parser.go:224-238 | answers `ParseDefBlock`; on success the one record is the context object itself |
| LemmaWalk.ParsePhraseBlockIn | pkg/parser/lemma_parser.go:272-283 | answers `ParsePhraseBlock` on the context's values |
| LemmaWalk.UpdateWithPVBlockIn | pkg/parser/lemma_parser.go:301-316 | the context afterwards, and the error, are those of `UpdateWithPVBlock` |
| LemmaWalk.ParsePVBlockIn | pkg/parser/lemma_parser.go:287-295 | answers `ParsePVBlock` on the context's values |
| LemmaWalk.ParseIdiomBlockIn | pkg/parser/lemma_parser.go:320-331 | answers `ParseIdiomBlock` on the context's values |
| LemmaProperties.FirstFailingFails | pkg/parser/lemma_parser.go:19-29 | the child at the first failing position (the first child whose handler fails, when one does) does fail |
| LemmaProperties.BeforeFirstFailing | pkg/parser/lemma_parser.go:19-29 | every child before the first failing one succeeds |
| LemmaProperties.EnrichFailFast | pkg/parser/lemma_parser.go:19-29 | the walk answers the records of the children before the first failing one, each handled on its own copy, with that child's error (or none) |
| LemmaProperties.EnrichAllSucceed | pkg/parser/lemma_parser.go:19-29 | when no child fails, the walk answers every child's records in order and no error |
| LemmaProperties.EnrichFirstFailure | pkg/parser/lemma_parser.go:19-29 | when a child fails, the walk answers its failure and the records of the children before it (none after a panic) |
| LemmaProperties.EnrichIgnoresLater | pkg/parser/lemma_parser.go:21-25 | once a child fails, siblings after it change nothing |
| LemmaProperties.EnrichKeeps | pkg/parser/lemma_parser.go:16-30 | every record of a walk keeps a sorted part of speech and grammar and the fields its handler leaves to the context |
| LemmaProperties.ApplyKeeps | pkg/parser/lemma_parser.go:16-30 | the same for one child |
| LemmaProperties.ParseDictionaryKeeps | pkg/parser/lemma_parser.go:67-92 | the records of a dictionary keep the invariant |
| LemmaProperties.ParsePosHeaderKeeps | pkg/parser/lemma_parser.go:97-103 | the records of a pos-header keep the invariant |
| LemmaProperties.ParseDSenseKeeps | pkg/parser/lemma_parser.go:196-211 | the records of a sense keep the invariant |
| LemmaProperties.ParseDefBlockKeeps | pkg/parser/lemma_parser.go:224-238 | a def-block record is sorted and keeps the headword, part of speech, language and transcriptions of its context |
| LemmaProperties.ParsePhraseBlockKeeps | pkg/parser/lemma_parser.go:272-283 | the records of a phrase-block keep the invariant |
| LemmaProperties.ParsePVBlockKeeps | pkg/parser/lemma_parser.go:287-295 | the records of a pv-block keep the invariant |
| LemmaProperties.UpdateWithHeaderSorted | pkg/parser/lemma_parser.go:109-121 | a context updated from a pos-header has a sorted part of speech and grammar |
| LemmaProperties.UpdateWithPVBlockSorted | pkg/parser/lemma_parser.go:301-316 | a context updated from a pv-block has a sorted part of speech and grammar |
| LemmaProperties.ParseIdiomBlockKeeps | pkg/parser/lemma_parser.go:320-331 | the records of an idiom-block keep the invariant |
| LemmaProperties.IdiomRecords | pkg/parser/lemma_parser.go:320-331 | every record of a successful idiom-block has the title as headword and the part of speech exactly ["idiom"] |
| LemmaProperties.PageRecords | pkg/parser/lemma_parser.go:34-59 | every record of a page has a sorted part of speech and grammar and one of the four languages |
| LemmaProperties.DSenseEntriesClassed | pkg/parser/lemma_parser.go:191 | the dsense matcher only selects elements with the class token def-block or phrase-block, tokens being split as the selector splits them (a form feed included) |
| LemmaProperties.DSenseEntrySubject | pkg/parser/lemma_parser.go:191 | an element that matches a dsense entry selector carries one of the two tokens |
| LemmaProperties.EnrichPanics | pkg/parser/lemma_parser.go:16-30 | a walk panics only at the dictionary-entry dispatch (never below an entry), or at the dsense dispatch on a class attribute holding a form feed |
| LemmaProperties.ApplyPanics | pkg/parser/lemma_parser.go:196-211 | the same for one child |
| LemmaProperties.ParseDictionaryPanics | pkg/parser/lemma_parser.go:67-92 | a dictionary panics only with the dictionary-entry message or the dsense message naming a class with a form feed |
| LemmaProperties.ParsePosHeaderPanics | pkg/parser/lemma_parser.go:97-103 | a pos-header panics only with the dsense message naming a class with a form feed |
| LemmaProperties.ParseDSensePanics | pkg/parser/lemma_parser.go:196-211 | a sense panics only when a selected entry's class attribute holds a form feed, with the dsense message naming that class |
| LemmaProperties.ParsePhraseBlockPanics | pkg/parser/lemma_parser.go:272-283 | a phrase-block never panics |
| LemmaProperties.ParsePVBlockPanics | pkg/parser/lemma_parser.go:287-295 | a pv-block panics only with the dsense message naming a class with a form feed |
| LemmaProperties.ParseIdiomBlockPanics | pkg/parser/lemma_parser.go:320-331 | an idiom-block panics only with the dsense message naming a class with a form feed |
| LemmaProperties.PagePanics | pkg/parser/lemma_parser.go:88-89 | a page panics only with the dictionary-entry message or the form-feed dsense message, and then has no records |
| LemmaProperties.CurrentEntries | pkg/parser/lemma_parser.go:61-65 | the current entry matcher selects only a div whose class contains "pos-header", is exactly "pv-block", or starts with "idiom-block"; the `entry-body__el` parent condition is dropped, so this bounds what is selected |
| LemmaProperties.LegacyEntries | lemma_parser.go:73 | the older entry matcher selects a div whose class contains both "pos-header" and "dpos-h", or is exactly "pv-block" or "idiom-block" |
| LemmaProperties.EnrichDefBlocksIgnoreAlternative | pkg/parser/lemma_parser.go:232-235 | def-blocks answer the same whatever alternative form their context carries |
| LemmaProperties.PhraseTitleOverwritten | pkg/parser/lemma_parser.go:272-283 | the phrase title set as the alternative form is overwritten by every def-block below it |
| LemmaProperties.DefinitionNormalised | pkg/parser/lemma_parser.go:243-251 | a found definition stands in the relation `NormaliseDefinitionSpec` states to the `div.def` text, for the copy in use |
| LemmaProperties.RegionsSnoc | pkg/parser/lemma_parser.go:161-170 | the region labels of the blocks, one block at a time |
| LemmaProperties.TranscriptionsKeys | pkg/parser/lemma_parser.go:161-170 | the map has exactly one key per region label that occurs |
| LemmaProperties.TranscriptionsLastWins | pkg/parser/lemma_parser.go:161-170 | a region's entry is the IPA list of the last block with that label |
| LemmaProperties.IpaPiecesAppend | pkg/parser/lemma_parser.go:172-183 | the IPA pieces of a concatenation of nodes are the two lists of pieces appended |
| LemmaProperties.IpaOfNodesAppend | pkg/parser/lemma_parser.go:172-183 | the IPA string of a concatenation of nodes is the concatenation of their strings |
| LemmaProperties.IpaOfOneNode | pkg/parser/lemma_parser.go:172-187 | a text node is kept verbatim, a `span` goes through IpaSuperscript, any other node gives "" |
| LemmaExamples.PagePanicsOnEntry | pkg/parser/lemma_parser.go:88-89 | a page whose only entry the matcher selects and the dispatch does not know panics with that entry's class |
| LemmaExamples.CurrentEntryPanicReachable | pkg/parser/lemma_parser.go:61 | in the current copy, a dictionary entry of class "idiom-blocks" makes the page panic with no records |
| LemmaExamples.CurrentSelectsIdiomBlocks | pkg/parser/lemma_parser.go:61 | the current entry matcher selects a div of class "idiom-blocks" |
| LemmaExamples.LegacyEntryPanicReachable | lemma_parser.go:73 | in the older copy, a dictionary entry of class "dpos-header" makes the page panic with no records |
| LemmaExamples.LegacySelectsDposHeader | lemma_parser.go:73 | the older entry matcher selects a div of class "dpos-header" |
| LemmaExamples.PhraseWithOneDefBlock | pkg/parser/lemma_parser.go:272-283 | a phrase-block with no title walks the def-blocks of its body with an empty alternative form |
| LemmaExamples.NestedPhrase | pkg/parser/lemma_parser.go:272-283 | the example phrase-block yields the record of its nested def-block |
| LemmaExamples.NestedDefBlockTwice | pkg/parser/lemma_parser.go:196-211 | a sense holding a phrase-block with a def-block in its body yields that def-block's record twice |
| LemmaExamples.FormFeedClassTokens | pkg/parser/lemma_parser.go:191 | the selector reads the class "def-block\fx" as the two tokens "def-block" and "x" |
| LemmaExamples.FormFeedEntrySelected | pkg/parser/lemma_parser.go:191-200 | the dsense matcher selects the div of class "def-block\fx" |
| LemmaExamples.FormFeedEntryUnclassed | pkg/parser/lemma_parser.go:203-206 | goquery's HasClass finds neither "def-block" nor "phrase-block" in that class |
| LemmaExamples.DSensePanicReachable | pkg/parser/lemma_parser.go:207-208 | a sense holding that div panics with "Uknown dsense entry: " and its class, and has no records |
| Dom.FormFeedOrHasClass | pkg/parser/lemma_parser.go:191-206 | a class token the selector sees is one HasClass sees too, unless the attribute holds a form feed |
| Dom.HasClassOfUnspaced | pkg/parser/lemma_parser.go:203-206 | for a class attribute without space, tab, carriage return or newline, HasClass holds exactly for the attribute itself |
| SuggestionParser.ParseSuggestionHTML | pkg/parser/suggestion_parser.go:15-30 | a page that could not be built is the wrapped error; success is the projected list and is never empty; an empty list is "no suggestions found" |
| SuggestionParser.ListIsHulU | pkg/parser/suggestion_parser.go:12 | every selected list is a `ul` with the class `hul-u` |
| SuggestionParser.ItemIsListChild | pkg/parser/suggestion_parser.go:12-13 | every selected item is an `li` child of a selected list |
| SuggestionParser.SuggestionIsTrimmedItem | pkg/parser/suggestion_parser.go:21-25 | the i-th suggestion is the text of the i-th item with white space removed from both ends |
| Web.BaseIsLastSegment | pkg/querier/querier.go:113 | path.Base of a path with a non-slash character is non-empty, slash-free and part of the path |
| Web.BaseOfSegment | pkg/querier/querier.go:113 | path.Base of a path ending in a plain segment, with or without a trailing slash, is that segment |
| Web.BaseOfLemmaPage | pkg/querier/querier_test.go:109-116 | path.Base("/dictionary/english/imhere") is "imhere" |
| Web.BaseOfDictionaryRoot | querier.go:84-85 | path.Base("/dictionary/english/") is "english" |
| Web.JoinUnderDirectory | pkg/querier/querier.go:182-186 | joining "/a/b/" with a plain segment gives "/a/b/" followed by it; with "" it gives "/a/b" |
| RemoteQuerier.Defaulted | pkg/querier/querier.go:58-66 | as the code is written: the host default, a maxWorkers below 1 replaced by the CPU count and any other kept, and an empty protocol writing "https" into the host and staying empty |
| RemoteQuerier.DefaultedAsIntended | pkg/querier/querier.go:58-66 | an empty protocol becomes "https", an empty host the dictionary's host, a maxWorkers below 1 the CPU count, set values kept |
| RemoteQuerier.EmptyProtocolLosesHost | pkg/querier/querier.go:61-63 | with no protocol configured, every URL goes to the host "https" with an empty scheme |
| RemoteQuerier.IntendedDefaultsAddressTheDictionary | pkg/querier/querier.go:51-73 | with the intended defaults an empty configuration addresses https://dictionary.cambridge.org |
| RemoteQuerier.NewRemote | pkg/querier/querier.go:51-73 | the caller's config afterwards is `Defaulted` of it before, and the querier reads it with at least one worker |
| RemoteQuerier.Remote.NewSearchURL | pkg/querier/querier.go:170-180 | the configured scheme and host, the path "/search/english/direct/", and exactly q=query and datasetsearch=english |
| RemoteQuerier.Remote.NewLemmaURL | pkg/querier/querier.go:182-186 | the configured scheme and host; the path is "/dictionary/english/" + id for a plain id, "/dictionary/english" for "" |
| RemoteQuerier.Remote.NewRequest | pkg/querier/querier.go:195-204 | a GET for the URL carrying each extra header exactly once with its configured value |
| RemoteQuerier.Remote.Get | pkg/querier/querier.go:154-168 | succeeds exactly when the transport answers with the expected status; the other two cases are the request error and "unexpected response code: " with the status |
| RemoteQuerier.Remote.GetSearch | pkg/querier/querier.go:125-136 | a 302 with a readable Location gives exactly that Location, and a redirect comes from nothing else; a failed get and an unreadable Location carry their own wrappers |
| RemoteQuerier.Remote.GetSuggestions | pkg/querier/querier.go:138-152 | a 200 page goes to the suggestion parser, whose answer is returned as is; a failed get is wrapped |
| RemoteQuerier.Remote.Search | pkg/querier/querier.go:103-123 | no error exactly when an id is found; a found id has no '/' and no suggestions; suggestions come only with ErrSuggestions; a failed search is wrapped |
| RemoteQuerier.Remote.Classify | pkg/querier/querier.go:108-122 | the same three facts, for the switch on the redirect path |
| RemoteQuerier.Remote.GetLemma | pkg/querier/querier.go:84-99 | an error comes with no lemmas; a failed get is wrapped; a 200 page is the parser's answer |
| RemoteQuerier.SearchFindsLemmaPage | pkg/querier/querier.go:109-113 | a redirect to "/dictionary/english/" + id gives (id, no suggestions, no error), and the lemma URL of that id is the redirect's path |
| RemoteQuerier.SearchEmptyLemma | pkg/querier/querier.go:109-111 | a redirect path that starts and ends with the lemma directory gives ("", nil, ErrEmptyLemmaID), recognisable by errors.Is |
| RemoteQuerier.SearchSuggests | pkg/querier/querier.go:114-119 | a suggestion redirect gives ("", s, ErrSuggestions), or the wrapped fetch error with no suggestions |
| RemoteQuerier.SearchUnknownRedirect | pkg/querier/querier.go:120-121 | any other redirect gives the unknown-redirect error with no id and no suggestions |
| RemoteQuerier.StatusDecides | pkg/querier/querier.go:163-166 | a search without an error was answered 302, and a lemma fetch without an error was answered 200 |
| LegacyQuerier.NewQuerier | querier.go:41-52 | an empty host in the caller's config becomes "dictionary.cambridge.org", and nothing else changes |
| LegacyQuerier.Querier.NewSearchURL | querier.go:139-149 | always https, the configured host, the search path, and exactly q and datasetsearch=english |
| LegacyQuerier.Querier.NewLemmaURL | querier.go:151-155 | always https and the configured host; "/dictionary/english/" + id for a plain id |
| LegacyQuerier.Querier.NewRequest | querier.go:164-173 | a GET for the URL carrying each extra header exactly once |
| LegacyQuerier.Querier.Get | querier.go:123-137 | succeeds exactly when the transport answers with the expected status |
| LegacyQuerier.Querier.GetSearch | querier.go:97-108 | a 302 with a parsed Location gives exactly that Location, and a redirect comes from nothing else; a failed get is wrapped as "failed to perform get: ", an unparsable Location as "can not parse redirect url: " |
| LegacyQuerier.Querier.GetSuggestions | querier.go:110-121 | a 200 page goes to the suggestion parser; a failed get is wrapped |
| LegacyQuerier.Querier.Search | querier.go:78-95 | no error exactly when the id is non-empty, and the id has no '/' |
| LegacyQuerier.Querier.GetLemma | querier.go:63-74 | a failed get is wrapped; a 200 page is the parser's answer |
| LegacyQuerier.DirectoryRedirectGivesEnglish | querier.go:84-85 | with no empty-id check, a redirect to exactly "/dictionary/english/" gives the id "english" |
| LegacyQuerier.SearchFindsLemmaPage | querier.go:84-85 | a redirect to a lemma page gives its id, whose lemma URL is that page |
| LegacyQuerier.SuggestionsInNotFound | querier.go:20-28 | a suggestion redirect gives ErrLemmaNotFound, whose Suggestions() are the parsed suggestions and whose message is "lemma not found" |
| LegacyQuerier.SearchUnknownRedirect | querier.go:92-93 | any other redirect is the unknown-redirect error |
| QuerierStorage.EncodeCharDecodes | pkg/querier/storage.go:140 | the UTF-8 bytes of one character decode back to it |
| QuerierStorage.Utf8Injective | pkg/querier/storage.go:140 | two strings with the same UTF-8 bytes are equal |
| QuerierStorage.MarshalKeyShape | pkg/querier/storage.go:137-141 | a key is the type byte followed by the string's bytes, one byte longer than them; "" gives just the type byte |
| QuerierStorage.MarshalKeyOfKey | pkg/querier/storage_test.go:155-196 | the key of "key" is the type followed by 107, 101, 121 |
| QuerierStorage.KeysDistinct | pkg/querier/storage.go:101-106 | two keys are equal exactly when both their strings and their types are, so query and lemma keys never collide |
| QuerierStorage.ErrorFromString | pkg/querier/storage.go:115-121 | no error exactly for "", and otherwise an error with that message |
| QuerierStorage.ReturnQuery | pkg/querier/storage.go:115-121 | the stored id and suggestions; no error exactly when the stored message is empty, otherwise an error with that message |
| QuerierStorage.ReturnLemma | pkg/querier/storage.go:129-135 | the stored lemmas; no error exactly when the stored message is empty, otherwise an error with that message |
| QuerierStorage.StoredErrorKeepsOnlyMessage | pkg/querier/storage.go:115-121 | an error read back keeps its message, but errors.Is no longer finds any sentinel in it |
| QuerierStorage.ExpiryRule | pkg/querier/storage.go:48-51 | an answer without an error never expires; one with an error is read for 24 hours after it was written, and not after |
| QuerierStorage.Storage.Read | pkg/querier/storage.go:65-75 | the database's own failure, or the live entry under the key, or the not-found error |
| QuerierStorage.Storage.GetQuery | pkg/querier/storage.go:23-30 | the query answer stored under the query key, or the read error |
| QuerierStorage.Storage.GetLemma | pkg/querier/storage.go:56-63 | the lemma answer stored under the lemma key, or the read error |
| QuerierStorage.Storage.PutQuery | pkg/querier/storage.go:31-54 | a failing write changes nothing; otherwise the entry under the query key is replaced with the 24h TTL rule; GetQuery then returns the same id, suggestions and error message; every other answer is unchanged |
| QuerierStorage.Storage.PutLemma | pkg/querier/storage.go:77-99 | the same for a lemma answer under the lemma key |
| CachedQuerier.Cached.GetLemma | pkg/querier/cachedq.go:26-39 | a hit is the stored answer without calling the querier; another read error is returned with nothing called or stored; a miss calls the querier once, stores its answer unless the write fails, and returns it unchanged |
| CachedQuerier.Cached.Search | pkg/querier/cachedq.go:41-55 | the same rule for a search |
| CachedQuerier.Cached.Close | pkg/querier/cachedq.go:57-74 | closes the querier and then the store; no error exactly when both succeed, otherwise one error listing the failures in order, joined by " AND " |
| CachedQuerier.JoinMessages | pkg/querier/cachedq.go:66-70 | the messages of the one or two errors, in order, joined by " AND " |
| CachedQuerier.SearchTwice | pkg/querier/cachedq_test.go:54-75 | with a working store, a second search answers the first one's id, suggestions and error message, and at most one search reaches the querier |
| CachedQuerier.GetLemmaTwice | pkg/querier/cachedq_test.go:23-40 | with a working store, a second GetLemma answers the first one's lemmas and error message, and at most one reaches the querier |

## Left out

- HTML tokenising and DOM construction (goquery, cascadia) are libraries. The page is an input tree, and "the page could not be built" is a `Failure` input.
- goquery's removal of duplicate nodes from a selection is not modelled. It cannot change any selection the extractor makes:
  - Every selection that is searched again is a `ChildrenMatcher` chain, or the children of a selection (the guide word's `FindMatcher(...).Children()`, pkg/parser/lemma_parser.go:216-217). Neither can hold nested nodes, since each element has one parent.
  - A `FindMatcher` result may hold nested nodes, for example a headword span inside another headword span. goquery keeps both, and so does `Dom.Find`, so `Text()` concatenates the text of both, as in Go.
- `IpaSuperscript` is not part of this model. It is a function parameter.
- `debugPrint` (lemma_parser.go:14-21) writes to standard output.
- The older copy's stub handlers for pv-blocks, idioms and phrases print a line to standard error (`println` at lemma_parser.go:278, 283, 287). Only their answer, no records and no error, is modelled.
- GuideWordLower: only the ASCII letters 'A' to 'Z' are lower-cased. Go's `strings.ToLower` lower-cases every Unicode letter, so a guide word such as "ÉTÉ" is "été" in Go but keeps its capitals here.
- The worker pool and the context argument are concurrency. Every call is a direct synchronous call.
- `Remote.Close` closes idle connections and stops the pool. Its answer is always nil, so the decorator's `Querier.close` carries the wrapped querier's answer.
- The HTTP client's transport, redirect policy and timeout are not modelled: `Transport` gives the response or the failure. `Response.Location` and `url.Parse` are the response's `location` field.
- LegacyQuerier.Querier.GetSearch: the shared `location` field hides a difference between the copies.
  - The older copy calls `url.Parse(response.Header.Get("Location"))` (querier.go:103). A missing header parses as an empty URL and ends in "uknown redirect: ".
  - The current copy's `response.Location()` fails on a missing header with "can not parse redirect url: ", and it resolves a relative target against the request URL.
- LegacyQuerier.Querier.GetLemma: the older querier calls `ParseLemmaHTML` and `ParseSuggestionHTML` directly (querier.go:69, 116). The model takes the two parsers as constructor parameters.
- `url.URL.String` and the query escaping of `url.Values.Encode` are abstract. Only the error message for an unknown redirect uses them, through the `render` parameter.
- RemoteQuerier.Remote.NewRequest: the request error of `http.NewRequestWithContext` is not modelled. `get` wraps that error as "can not assemble request: can not form request: …". Header keys are not canonicalised.
  - In Go the URL is turned into a string and parsed back (pkg/querier/querier.go:195-198, querier.go:164-167). That fails for a configured host such as "a b", which `String` escapes to "a%20b", and for a nil context.
  - The model builds the URL as a value and has no parse step, so it cannot show either failure. The same holds for LegacyQuerier.Querier.NewRequest.
- The `HTMLParser` delegate (pkg/querier/parser.go) is not modelled. Nor are NewRemote's defaults for a nil client or parser. The caller supplies both, and a nil dereference has no error value. `Parser` is the pair of parser functions.
- Badger, JSON marshalling and `time` are not modelled.
  - The table is a map field.
  - Its read, write and close failures are fields that the environment sets.
  - The clock is the `now` field, moved by `Advance`.
  - The 24-hour TTL is modelled on an exact clock. Badger stores the expiry time in whole seconds, so there an entry may live up to one second less.
  - A JSON marshalling failure is not modelled, since every stored value marshals.
- The command-line programs, the HTTP server and the generated mock are plumbing and are not part of this model.

## Findings

| source | as written | input that shows it | evidently intended | confidence | as-written member | corrected member |
|---|---|---|---|---|---|---|
| pkg/querier/querier.go:61-63 | an empty `Protocol` makes NewRemote assign "https" to `config.Host`, and `Protocol` stays empty | a Config with Host "" and Protocol "": every URL has scheme "" and host "https" | an empty `Protocol` becomes "https" and the host is kept | high; not executed | RemoteQuerier.EmptyProtocolLosesHost | RemoteQuerier.IntendedDefaultsAddressTheDictionary |

The as-written behaviour is the function `RemoteQuerier.Defaulted`. The corrected behaviour is `RemoteQuerier.DefaultedAsIntended`.

`RemoteQuerier.NewRemote` keeps the behaviour as written, because it models the constructor the repository ships.
