/**
 * The lemma extractor as functions on values: the walk from a dictionary page
 * down to its def-blocks, for both the current parser (pkg/parser) and the
 * older one at the repository root. The imperative walk over context objects
 * (module LemmaWalk) is proved equal to these functions.
 */
module LemmaParser {
  import opened Wrappers
  import opened Strings
  import opened Dom
  import opened LemmaRecords

  /** Which copy of the extractor: pkg/parser (Current) or the repository root (Legacy). */
  datatype Variant = Current | Legacy

  /** The extractor's configuration; `superscript` is IpaSuperscript, whose definition is not modelled. */
  datatype Config = Config(variant: Variant, superscript: string -> string)

  /** The errors the extractor returns, with the messages it builds for them. */
  datatype ParseError =
    | PageError(cause: string)
    | UnknownDataId(id: string)
    | NoPosHeaderHeadword
    | NoPVBlockHeadword
    | NoIdiomHeadword
    | NoDefinition
  {
    function Message(): string {
      match this
      case PageError(cause) => "can not parse page: " + cause
      case UnknownDataId(id) => "div.dictionary has unknown data-id attr: " + id
      case NoPosHeaderHeadword => ".pos-header has not .headword elements"
      case NoPVBlockHeadword => ".pv-block hast not .headword elements"
      case NoIdiomHeadword => ".idiom-block hast not .headword elements"
      case NoDefinition => "div.ddef_h has no div.dev"
    }
  }

  /** A returned error, or a panic, which unwinds the whole walk and takes every record with it. */
  datatype Failure = Error(error: ParseError) | Panic(message: string)

  /** What a handler gives back: the records it built and, possibly, the failure that stopped it. */
  datatype Outcome = Outcome(lemmas: seq<LemmaRecord>, failure: Option<Failure>)

  predicate Panics(o: Outcome) {
    o.failure.Some? && o.failure.value.Panic?
  }

  const EntryPanicPrefix: string := "Uknown dictionary entry: "
  const DSenseEntryPanicPrefix: string := "Uknown dsense entry: "

  // ---------------------------------------------------------------------------
  // The compiled selectors

  function One(tag: string, c: Condition): Selector {
    [Simple(Compound(tag, [c]))]
  }

  const DictionarySel: Selector :=
    [Simple(Compound("div", [ClassContains("dictionary"), HasAttribute("data-id")]))]

  /** The three kinds of dictionary entry; the two copies differ here. */
  function EntrySel(v: Variant): Selector {
    match v
    case Current =>
      [ChildOf(Compound("div", [ClassContains("entry-body__el")]), Compound("div", [ClassContains("pos-header")])),
       Simple(Compound("div", [ClassEquals("pv-block")])),
       Simple(Compound("div", [ClassPrefix("idiom-block")]))]
    case Legacy =>
      [Simple(Compound("div", [ClassContains("pos-header"), ClassContains("dpos-h")])),
       Simple(Compound("div", [ClassEquals("pv-block")])),
       Simple(Compound("div", [ClassEquals("idiom-block")]))]
  }

  const DSenseSel: Selector := One("div", ClassToken("dsense"))
  const PosHeaderSel: Selector := One("div", ClassToken("pos-header"))
  const HeadwordSel: Selector := One("span", ClassPrefix("headword"))
  const PosgramSel: Selector := One("div", ClassPrefix("posgram"))
  const GrammarBlockSel: Selector := One("span", ClassPrefix("gram"))
  const GrammarSel: Selector := One("span", ClassPrefix("gc"))
  const PartOfSpeechSel: Selector := One("span", ClassPrefix("pos"))
  const DpronSel: Selector := One("span", ClassContains("dpron-i"))
  const RegionSel: Selector := One("span", ClassPrefix("region"))
  const IpaSel: Selector := One("span", ClassPrefix("ipa"))
  const DSenseHSel: Selector := One("h3", ClassToken("dsense_h"))
  const DSenseEntrySel: Selector :=
    [Simple(Compound("div", [ClassToken("def-block")])), Simple(Compound("div", [ClassToken("phrase-block")]))]
  const GuidewordSel: Selector := One("span", ClassToken("guideword"))
  const DDefHSel: Selector := One("div", ClassToken("ddef_h"))
  const DefInfoSel: Selector := One("span", ClassToken("def-info"))
  const DefBodySel: Selector := One("div", ClassToken("def-body"))
  const DefSel: Selector := One("div", ClassToken("def"))
  const AlternativeSel: Selector := One("span", ClassToken("v"))
  const ExampleSel: Selector := One("div", ClassToken("examp"))
  const PhraseHeadSel: Selector := One("div", ClassToken("phrase-head"))
  const PhraseTitleSel: Selector := One("span", ClassToken("phrase-title"))
  const PhraseBodySel: Selector := One("div", ClassToken("phrase-body"))
  const DefBlockSel: Selector := One("div", ClassToken("def-block"))
  const PVBodySel: Selector := One("span", ClassToken("pv-body"))
  const DiTitleSel: Selector := One("div", ClassToken("di-title"))
  const DiInfoSel: Selector := One("span", ClassToken("di-info"))
  const AncInfoHeadSel: Selector := One("span", ClassToken("anc-info-head"))
  const IdiomBodySel: Selector := One("span", ClassToken("idiom-body"))

  // ---------------------------------------------------------------------------
  // Projections from a selection to values

  /** AttrOr("class", ""). */
  function ClassAttr(n: Node): string {
    if n.Element? then n.classAttr else ""
  }

  /** AttrOr("data-id", "unknown"). */
  function DataId(n: Node): string {
    if n.Element? && "data-id" in n.attrs then n.attrs["data-id"] else "unknown"
  }

  const DataIdLanguages: map<string, string> :=
    map["unknown" := "unknown", "cald4" := "british", "cacd" := "american-english", "cbed" := "business-english"]

  /** getLanguageFromDataID: four known dictionary ids; any other id is an error. */
  function LanguageFromDataId(dictionary: Node): (r: Result<string, ParseError>)
    ensures DataId(dictionary) == "unknown" ==> r == Success("unknown")
    ensures DataId(dictionary) == "cald4" ==> r == Success("british")
    ensures DataId(dictionary) == "cacd" ==> r == Success("american-english")
    ensures DataId(dictionary) == "cbed" ==> r == Success("business-english")
    ensures DataId(dictionary) !in {"unknown", "cald4", "cacd", "cbed"} ==>
              r == Failure(UnknownDataId(DataId(dictionary)))
  {
    var id := DataId(dictionary);
    if id in DataIdLanguages then Success(DataIdLanguages[id]) else Failure(UnknownDataId(id))
  }

  /** Map(func(sel) string { return sel.Text() }). */
  function Texts(hs: seq<Hit>): seq<string> {
    seq(|hs|, i requires 0 <= i < |hs| => TextOf(hs[i].node))
  }

  /** getPartOfSpeech: the texts of the `span[class^=pos]` children, sorted. */
  function PartOfSpeech(posgram: seq<Hit>): seq<string> {
    Sort(Texts(ChildrenIn(posgram, PartOfSpeechSel)))
  }

  /** The part of speech is sorted and holds exactly the texts of the selected spans. */
  lemma PartOfSpeechSorted(posgram: seq<Hit>)
    ensures Sorted(PartOfSpeech(posgram))
    ensures multiset(PartOfSpeech(posgram)) == multiset(Texts(ChildrenIn(posgram, PartOfSpeechSel)))
  {
    SortSpec(Texts(ChildrenIn(posgram, PartOfSpeechSel)));
  }

  /** getGrammar: the texts of the `span[class^=gc]` inside `span[class^=gram]` children, sorted. */
  function Grammar(sel: seq<Hit>): seq<string> {
    Sort(Texts(FindIn(ChildrenIn(sel, GrammarBlockSel), GrammarSel)))
  }

  /** The grammar codes are sorted and are exactly the texts of the selected spans. */
  lemma GrammarSorted(sel: seq<Hit>)
    ensures Sorted(Grammar(sel))
    ensures multiset(Grammar(sel)) == multiset(Texts(FindIn(ChildrenIn(sel, GrammarBlockSel), GrammarSel)))
  {
    SortSpec(Texts(FindIn(ChildrenIn(sel, GrammarBlockSel), GrammarSel)));
  }

  /** goquery's Contents(): every child node, text included. */
  function Contents(n: Node): seq<Node> {
    if n.Element? then n.children else []
  }

  /** One child of an IPA span: text verbatim, a `span` through IpaSuperscript, any other node dropped. */
  function IpaPiece(cfg: Config, n: Node): string {
    match n
    case TextNode(s) => s
    case Element(tag, _, _, _) => if tag == "span" then cfg.superscript(TextOf(n)) else ""
  }

  /** The parts transfromIPAToString collects, in order: nodes that are neither text nor `span` add none. */
  function IpaPieces(cfg: Config, ns: seq<Node>): seq<string>
    decreases |ns|
  {
    if ns == [] then []
    else
      var last := ns[|ns| - 1];
      IpaPieces(cfg, ns[..|ns| - 1])
      + (if last.TextNode? || last.tag == "span" then [IpaPiece(cfg, last)] else [])
  }

  /** transfromIPAToString on a list of nodes: the parts joined with "". */
  function IpaOfNodes(cfg: Config, ns: seq<Node>): string {
    Join(IpaPieces(cfg, ns), "")
  }

  /** The region label of one pronunciation block: the text of its first `span[class^="region"]` child. */
  function Region(dpron: Node): string {
    Text(First(Children(dpron, RegionSel)))
  }

  /** The IPA strings of one pronunciation block, one per `span[class^="ipa"]` inside it. */
  function Ipas(cfg: Config, dpron: Node): (r: seq<string>)
    ensures |r| == |Find(dpron, IpaSel)|
  {
    var hs := Find(dpron, IpaSel);
    seq(|hs|, i requires 0 <= i < |hs| => IpaOfNodes(cfg, Contents(hs[i].node)))
  }

  /** The map getTranscriptions has built after the given pronunciation blocks, in order. */
  function TranscriptionsOf(cfg: Config, dprons: seq<Hit>): map<string, seq<string>> {
    if dprons == [] then map[]
    else
      var last := dprons[|dprons| - 1].node;
      TranscriptionsOf(cfg, dprons[..|dprons| - 1])[Region(last) := Ipas(cfg, last)]
  }

  lemma TranscriptionsOfSnoc(cfg: Config, ds: seq<Hit>, i: nat)
    requires i < |ds|
    ensures TranscriptionsOf(cfg, ds[..i + 1])
         == TranscriptionsOf(cfg, ds[..i])[Region(ds[i].node) := Ipas(cfg, ds[i].node)]
  {
    assert ds[..i + 1][..i] == ds[..i];
  }

  /** getTranscriptions. */
  function Transcriptions(cfg: Config, sel: seq<Hit>): map<string, seq<string>> {
    TranscriptionsOf(cfg, ChildrenIn(sel, DpronSel))
  }

  /** getGuideWordFromDSenseH: the current copy looks for the guideword among all descendants, the older one among children. */
  function GuideWord(cfg: Config, dsenseh: seq<Hit>): string {
    var guideword := match cfg.variant
      case Current => FindIn(dsenseh, GuidewordSel)
      case Legacy => ChildrenIn(dsenseh, GuidewordSel);
    ToLower(Text(ChildrenIn(guideword, AnyElement)))
  }

  /** The guide word is lower-cased. */
  lemma GuideWordLower(cfg: Config, dsenseh: seq<Hit>)
    ensures var r := GuideWord(cfg, dsenseh); forall i :: 0 <= i < |r| ==> !('A' <= r[i] <= 'Z')
  {
    var guideword := match cfg.variant
      case Current => FindIn(dsenseh, GuidewordSel)
      case Legacy => ChildrenIn(dsenseh, GuidewordSel);
    ToLowerSpec(Text(ChildrenIn(guideword, AnyElement)));
  }

  const DefinitionCutset: set<char> := {' ', '\n', '\t', ':'}

  /** The normalisation getDefinitionFromDDefH applies to the text of `div.def`. */
  function NormaliseDefinition(v: Variant, text: string): string {
    match v
    case Current => Trim(CollapseSpaceRuns(text), DefinitionCutset)
    case Legacy => TrimSuffix(TrimSpace(text), ":")
  }

  /**
   * The normal form of a definition read from `text`. The current copy keeps
   * a slice of the text with white-space runs collapsed: only spaces,
   * newlines, tabs and colons are cut at either end, none is left there, no
   * two white-space characters are adjacent, and the collapse itself keeps
   * every other character in order. The older copy drops surrounding white
   * space and then exactly one trailing colon, if there is one.
   */
  predicate NormalDefinition(v: Variant, text: string, r: string) {
    match v
    case Current =>
      var collapsed := CollapseSpaceRuns(text);
      && NonSpaces(collapsed) == NonSpaces(text)
      && (exists k: nat | k <= |collapsed| :: TrimmedAt(collapsed, r, k, DefinitionCutset))
      && (r == [] || (r[0] !in DefinitionCutset && r[|r| - 1] !in DefinitionCutset))
      && (forall i :: 0 <= i < |r| - 1 ==> !(IsAsciiSpace(r[i]) && IsAsciiSpace(r[i + 1])))
    case Legacy =>
      && (r == [] || r[0] !in UnicodeSpaces)
      && (HasSuffix(TrimSpace(text), ":") ==> r + ":" == TrimSpace(text))
      && (!HasSuffix(TrimSpace(text), ":") ==> r == TrimSpace(text))
  }

  lemma NormaliseDefinitionSpec(v: Variant, text: string)
    ensures NormalDefinition(v, text, NormaliseDefinition(v, text))
  {
    match v
    case Current =>
      var collapsed := CollapseSpaceRuns(text);
      CollapseSpaceRunsSpec(text);
      CollapseKeepsNonSpaces(text);
      TrimSpec(collapsed, DefinitionCutset);
      TrimKeepsSeparatedSpaces(collapsed, DefinitionCutset);
      var k := |collapsed| - |TrimLeft(collapsed, DefinitionCutset)|;
      assert TrimmedAt(collapsed, NormaliseDefinition(v, text), k, DefinitionCutset);
    case Legacy =>
      var trimmed := TrimSpace(text);
      TrimSpec(text, UnicodeSpaces);
      var r := TrimSuffix(trimmed, ":");
      assert r != [] ==> r[0] == trimmed[0];
  }

  /** The worked example: a run of spaces and a newline becomes one space, and the trailing colon goes. */
  lemma DefinitionExample()
    ensures NormaliseDefinition(Current, "a   \n  b:") == "a b"
  {
    var text := "a   \n  b:";
    assert text[1..] == "   \n  " + "b:";
    SpaceRunOf("   \n  ", "b:");
    assert text[1..][6..] == "b:";
    assert CollapseSpaceRuns("b:") == "b:" by {
      assert CollapseSpaceRuns(":") == ":";
    }
    assert CollapseSpaceRuns(text[1..]) == " b:";
    assert CollapseSpaceRuns(text) == "a b:";
    assert TrimLeft("a b:", DefinitionCutset) == "a b:";
    assert TrimRight("a b:", DefinitionCutset) == "a b";
  }

  /** getDefinitionFromDDefH: an error when `div.ddef_h` has no `div.def` child. */
  function Definition(cfg: Config, ddefh: seq<Hit>): (r: Result<string, ParseError>)
    ensures r.Failure? <==> ChildrenIn(ddefh, DefSel) == []
    ensures r.Failure? ==> r.error == NoDefinition
  {
    var def := ChildrenIn(ddefh, DefSel);
    if def == [] then Failure(NoDefinition) else Success(NormaliseDefinition(cfg.variant, Text(def)))
  }

  /** getAlternativeForm: the text of every `span.v` under the def-info, possibly empty. */
  function AlternativeForm(defInfo: seq<Hit>): string {
    Text(FindIn(defInfo, AlternativeSel))
  }

  /** getExamples: one example per `div.examp` child, each with surrounding white space trimmed. */
  function Examples(defBody: seq<Hit>): seq<string> {
    var examps := ChildrenIn(defBody, ExampleSel);
    seq(|examps|, i requires 0 <= i < |examps| => TrimSpace(TextOf(examps[i].node)))
  }

  /** One example per `div.examp` child, none starting or ending with white space. */
  lemma ExamplesTrimmed(defBody: seq<Hit>)
    ensures var r := Examples(defBody);
      && |r| == |ChildrenIn(defBody, ExampleSel)|
      && forall i :: 0 <= i < |r| ==> r[i] == [] || (r[i][0] !in UnicodeSpaces && r[i][|r[i]| - 1] !in UnicodeSpaces)
  {
    var examps := ChildrenIn(defBody, ExampleSel);
    var r := Examples(defBody);
    forall i | 0 <= i < |r| ensures r[i] == [] || (r[i][0] !in UnicodeSpaces && r[i][|r[i]| - 1] !in UnicodeSpaces) {
      TrimSpec(TextOf(examps[i].node), UnicodeSpaces);
    }
  }

  // ---------------------------------------------------------------------------
  // The walk

  /** The handlers enrichLemmas is called with. */
  datatype Handler =
    | DictionaryH    // parseDictionary
    | EntryH         // the dispatch closure of parseDictionary
    | DSenseH        // parseDSense
    | DSenseEntryH   // the dispatch closure of parseDSense
    | DefBlockH      // parseDefBlock

  /** Records gathered before `o`, put in front of it; a panic discards them. */
  function Prepend(ls: seq<LemmaRecord>, o: Outcome): Outcome {
    if Panics(o) then o else Outcome(ls + o.lemmas, o.failure)
  }

  /**
   * enrichLemmas: every node of the selection is handled with its own copy of
   * the context; the first failure stops the loop, drops the failing node's
   * records and is returned with the records of the nodes before it.
   */
  function Enrich(cfg: Config, ctx: LemmaRecord, hs: seq<Hit>, h: Handler): (r: Outcome)
    ensures Panics(r) ==> r.lemmas == []
    decreases MaxHitSize(hs), 3, |hs|
  {
    if hs == [] then Outcome([], None)
    else
      var first := Apply(cfg, ctx, hs[0], h);
      if first.failure.Some? then Outcome([], first.failure)
      else Prepend(first.lemmas, Enrich(cfg, ctx, hs[1..], h))
  }

  /** Once the nodes before the `i`-th have produced `done`, a successful `i`-th node adds its records to them. */
  lemma EnrichAdvances(cfg: Config, ctx: LemmaRecord, hs: seq<Hit>, h: Handler, i: nat, done: seq<LemmaRecord>)
    requires i < |hs| && Apply(cfg, ctx, hs[i], h).failure.None?
    requires Enrich(cfg, ctx, hs, h) == Prepend(done, Enrich(cfg, ctx, hs[i..], h))
    ensures Enrich(cfg, ctx, hs, h) == Prepend(done + Apply(cfg, ctx, hs[i], h).lemmas, Enrich(cfg, ctx, hs[i + 1..], h))
  {
    EnrichFrom(cfg, ctx, hs, h, i);
    PrependTwice(done, Apply(cfg, ctx, hs[i], h).lemmas, Enrich(cfg, ctx, hs[i + 1..], h));
  }

  /** Enrich over the nodes from the `i`-th on, unfolded once. */
  lemma EnrichFrom(cfg: Config, ctx: LemmaRecord, hs: seq<Hit>, h: Handler, i: nat)
    requires i < |hs|
    ensures var first := Apply(cfg, ctx, hs[i], h);
      Enrich(cfg, ctx, hs[i..], h)
      == if first.failure.Some? then Outcome([], first.failure) else Prepend(first.lemmas, Enrich(cfg, ctx, hs[i + 1..], h))
  {
    assert hs[i..][0] == hs[i] && hs[i..][1..] == hs[i + 1..];
  }

  /** Putting two groups of records in front, one after the other, is putting both in front at once. */
  lemma PrependTwice(a: seq<LemmaRecord>, b: seq<LemmaRecord>, o: Outcome)
    ensures Prepend(a, Prepend(b, o)) == Prepend(a + b, o)
  {
    assert a + (b + o.lemmas) == (a + b) + o.lemmas;
  }

  /** A failing `i`-th node ends the walk: an error keeps `done`, a panic keeps nothing. */
  lemma EnrichStops(cfg: Config, ctx: LemmaRecord, hs: seq<Hit>, h: Handler, i: nat, done: seq<LemmaRecord>)
    requires i < |hs| && Apply(cfg, ctx, hs[i], h).failure.Some?
    requires Enrich(cfg, ctx, hs, h) == Prepend(done, Enrich(cfg, ctx, hs[i..], h))
    ensures var f := Apply(cfg, ctx, hs[i], h).failure;
      Enrich(cfg, ctx, hs, h) == Outcome(if f.value.Panic? then [] else done, f)
  {
    assert hs[i..][0] == hs[i];
  }

  /** Enrich seen from the end of the selection. */
  lemma EnrichDone(cfg: Config, ctx: LemmaRecord, hs: seq<Hit>, h: Handler, done: seq<LemmaRecord>)
    requires Enrich(cfg, ctx, hs, h) == Prepend(done, Enrich(cfg, ctx, hs[|hs|..], h))
    ensures Enrich(cfg, ctx, hs, h) == Outcome(done, None)
  {
    assert done + [] == done;
  }

  /** One handler on one node. */
  function Apply(cfg: Config, ctx: LemmaRecord, hit: Hit, h: Handler): Outcome
    decreases HitSize(hit), 2, 0
  {
    match h
    case DictionaryH => ParseDictionary(cfg, ctx, hit)
    case EntryH =>
      if HasClass(hit.node, "pos-header") then ParsePosHeader(cfg, ctx, hit)
      else if HasClass(hit.node, "pv-block") then ParsePVBlock(cfg, ctx, hit)
      else if HasClass(hit.node, "idiom-block") then ParseIdiomBlock(cfg, ctx, hit)
      else Outcome([], Some(Panic(EntryPanicPrefix + ClassAttr(hit.node))))
    case DSenseH => ParseDSense(cfg, ctx, hit)
    case DSenseEntryH =>
      if HasClass(hit.node, "def-block") then ParseDefBlock(cfg, ctx, hit)
      else if HasClass(hit.node, "phrase-block") then ParsePhraseBlock(cfg, ctx, hit)
      else Outcome([], Some(Panic(DSenseEntryPanicPrefix + ClassAttr(hit.node))))
    case DefBlockH => ParseDefBlock(cfg, ctx, hit)
  }

  /** ParseLemmaHTML, from the parsed document (or the reason it could not be parsed). */
  function ParseLemmaHTML(cfg: Config, page: Result<Node, string>): (r: Outcome)
    ensures page.Failure? ==> r == Outcome([], Some(Error(PageError(page.error))))
  {
    match page
    case Failure(cause) => Outcome([], Some(Error(PageError(cause))))
    case Success(doc) => Enrich(cfg, EmptyRecord, Find(doc, DictionarySel), DictionaryH)
  }

  /** parseDictionary: set the language, then handle every entry of the dictionary. */
  function ParseDictionary(cfg: Config, ctx: LemmaRecord, hit: Hit): (r: Outcome)
    ensures DataId(hit.node) !in DataIdLanguages ==> r == Outcome([], Some(Error(UnknownDataId(DataId(hit.node)))))
    decreases HitSize(hit), 1, 0
  {
    match LanguageFromDataId(hit.node)
    case Failure(e) => Outcome([], Some(Error(e)))
    case Success(language) =>
      var entries := Find(hit.node, EntrySel(cfg.variant));
      FindWithin(hit, EntrySel(cfg.variant));
      Enrich(cfg, ctx.(language := language), entries, EntryH)
  }

  /** updateLemmaWithPosgram, which never fails. */
  function UpdateWithPosgram(ctx: LemmaRecord, posgram: seq<Hit>): LemmaRecord {
    ctx.(partOfSpeech := PartOfSpeech(posgram), grammar := Grammar(posgram))
  }

  /** updateLemmaWithHeader: headword, part of speech, grammar and transcriptions of a pos-header. */
  function UpdateWithHeader(cfg: Config, ctx: LemmaRecord, header: Hit): (r: Result<LemmaRecord, ParseError>)
    ensures r.Failure? <==> Find(header.node, HeadwordSel) == []
    ensures r.Failure? ==> r.error == NoPosHeaderHeadword
    ensures r.Success? ==> r.value.language == ctx.language && r.value.guideWord == ctx.guideWord
                           && r.value.definition == ctx.definition && r.value.alternative == ctx.alternative
                           && r.value.examples == ctx.examples
  {
    var headword := Find(header.node, HeadwordSel);
    if headword == [] then Failure(NoPosHeaderHeadword)
    else
      var named := ctx.(word := TrimSpace(Text(headword)));
      Success(UpdateWithPosgram(named, Children(header.node, PosgramSel))
                .(transcriptions := Transcriptions(cfg, [header])))
  }

  /** parsePosHeader: the senses sit in the element right after the header. */
  function ParsePosHeader(cfg: Config, ctx: LemmaRecord, hit: Hit): (r: Outcome)
    ensures Find(hit.node, HeadwordSel) == [] ==> r == Outcome([], Some(Error(NoPosHeaderHeadword)))
    decreases HitSize(hit), 1, 0
  {
    match UpdateWithHeader(cfg, ctx, hit)
    case Failure(e) => Outcome([], Some(Error(e)))
    case Success(c) =>
      var next := Next(hit);
      var dsenses := ChildrenIn(next, DSenseSel);
      NextWithin(hit);
      ChildrenInWithin(next, DSenseSel);
      Enrich(cfg, c, dsenses, DSenseH)
  }

  /** parseDSense: set the guide word, then handle every def-block and phrase-block inside. */
  function ParseDSense(cfg: Config, ctx: LemmaRecord, hit: Hit): Outcome
    decreases HitSize(hit), 1, 0
  {
    var c := ctx.(guideWord := GuideWord(cfg, Children(hit.node, DSenseHSel)));
    var entries := Find(hit.node, DSenseEntrySel);
    FindWithin(hit, DSenseEntrySel);
    Enrich(cfg, c, entries, DSenseEntryH)
  }

  /** parseDefBlock: the leaf of the walk, emitting the context it was given with the sense filled in. */
  function ParseDefBlock(cfg: Config, ctx: LemmaRecord, hit: Hit): (r: Outcome)
    ensures r.failure.None? <==> ChildrenIn(Children(hit.node, DDefHSel), DefSel) != []
    ensures r.failure.Some? ==> r == Outcome([], Some(Error(NoDefinition)))
    ensures r.failure.None? ==> |r.lemmas| == 1
    decreases HitSize(hit), 1, 0
  {
    var ddefh := Children(hit.node, DDefHSel);
    match Definition(cfg, ddefh)
    case Failure(e) => Outcome([], Some(Error(e)))
    case Success(definition) =>
      var defInfo := ChildrenIn(ddefh, DefInfoSel);
      var grammar := Grammar(defInfo);
      Outcome([ctx.(definition := definition,
                    grammar := if |grammar| != 0 then grammar else ctx.grammar,
                    alternative := AlternativeForm(defInfo),
                    examples := Examples(Children(hit.node, DefBodySel)))], None)
  }

  /** The one record parseDefBlock emits once a definition is found. */
  lemma ParseDefBlockFound(cfg: Config, ctx: LemmaRecord, hit: Hit)
    requires Definition(cfg, Children(hit.node, DDefHSel)).Success?
    ensures var ddefh := Children(hit.node, DDefHSel);
      var defInfo := ChildrenIn(ddefh, DefInfoSel);
      var grammar := Grammar(defInfo);
      ParseDefBlock(cfg, ctx, hit)
      == Outcome([ctx.(definition := Definition(cfg, ddefh).value,
                       grammar := if |grammar| != 0 then grammar else ctx.grammar,
                       alternative := AlternativeForm(defInfo),
                       examples := Examples(Children(hit.node, DefBodySel)))], None)
  {
  }

  /**
   * The record a successful def-block emits, field by field: the normalised
   * text of `div.def`, the def-info grammar when it is non-empty and the
   * inherited one otherwise, the `span.v` text whatever alternative the
   * context carried, the trimmed examples, and every other field inherited.
   */
  lemma ParseDefBlockRecord(cfg: Config, ctx: LemmaRecord, hit: Hit)
    requires ParseDefBlock(cfg, ctx, hit).failure.None?
    ensures var r := ParseDefBlock(cfg, ctx, hit).lemmas[0];
      var ddefh := Children(hit.node, DDefHSel);
      var defInfo := ChildrenIn(ddefh, DefInfoSel);
      && NormalDefinition(cfg.variant, Text(ChildrenIn(ddefh, DefSel)), r.definition)
      && (Grammar(defInfo) != [] ==> r.grammar == Grammar(defInfo))
      && (Grammar(defInfo) == [] ==> r.grammar == ctx.grammar)
      && r.alternative == AlternativeForm(defInfo)
      && r.examples == Examples(Children(hit.node, DefBodySel))
      && r.word == ctx.word && r.partOfSpeech == ctx.partOfSpeech && r.language == ctx.language
      && r.transcriptions == ctx.transcriptions && r.guideWord == ctx.guideWord
  {
    var ddefh := Children(hit.node, DDefHSel);
    ParseDefBlockFound(cfg, ctx, hit);
    NormaliseDefinitionSpec(cfg.variant, Text(ChildrenIn(ddefh, DefSel)));
  }

  /** parsePhraseBlock: the phrase title is the alternative form inherited by the def-blocks of the phrase body. */
  function ParsePhraseBlock(cfg: Config, ctx: LemmaRecord, hit: Hit): (r: Outcome)
    ensures cfg.variant == Legacy ==> r == Outcome([], None)
    decreases HitSize(hit), 1, 0
  {
    if cfg.variant == Legacy then Outcome([], None)
    else
      var c := ctx.(alternative := Text(ChildrenIn(Children(hit.node, PhraseHeadSel), PhraseTitleSel)));
      var body := Children(hit.node, PhraseBodySel);
      var defBlocks := ChildrenIn(body, DefBlockSel);
      ChildrenWithin(hit, PhraseBodySel);
      ChildrenInWithin(body, DefBlockSel);
      Enrich(cfg, c, defBlocks, DefBlockH)
  }

  /** updateLemmaWithPVBlock: the title is the lemma; part of speech, grammar and transcriptions come from the nested pos-header. */
  function UpdateWithPVBlock(cfg: Config, ctx: LemmaRecord, pvBlock: Node): (r: Result<LemmaRecord, ParseError>)
    ensures r.Failure? <==> Text(Children(pvBlock, DiTitleSel)) == ""
    ensures r.Failure? ==> r.error == NoPVBlockHeadword
    ensures r.Success? ==> r.value.word == Text(Children(pvBlock, DiTitleSel)) && r.value.language == ctx.language
  {
    var diTitle := Text(Children(pvBlock, DiTitleSel));
    if diTitle == "" then Failure(NoPVBlockHeadword)
    else
      var posHeader := ChildrenIn(Children(pvBlock, DiInfoSel), PosHeaderSel);
      Success(UpdateWithPosgram(ctx.(word := diTitle), ChildrenIn(posHeader, AncInfoHeadSel))
                .(transcriptions := Transcriptions(cfg, posHeader)))
  }

  /** parsePVBlock. */
  function ParsePVBlock(cfg: Config, ctx: LemmaRecord, hit: Hit): (r: Outcome)
    ensures cfg.variant == Legacy ==> r == Outcome([], None)
    ensures cfg.variant == Current && Text(Children(hit.node, DiTitleSel)) == "" ==>
              r == Outcome([], Some(Error(NoPVBlockHeadword)))
    decreases HitSize(hit), 1, 0
  {
    if cfg.variant == Legacy then Outcome([], None)
    else
      match UpdateWithPVBlock(cfg, ctx, hit.node)
      case Failure(e) => Outcome([], Some(Error(e)))
      case Success(c) =>
        var body := Children(hit.node, PVBodySel);
        var dsenses := ChildrenIn(body, DSenseSel);
        ChildrenWithin(hit, PVBodySel);
        ChildrenInWithin(body, DSenseSel);
        Enrich(cfg, c, dsenses, DSenseH)
  }

  /** parseIdiomBlock: the title is the lemma and the part of speech is "idiom". */
  function ParseIdiomBlock(cfg: Config, ctx: LemmaRecord, hit: Hit): (r: Outcome)
    ensures cfg.variant == Legacy ==> r == Outcome([], None)
    ensures cfg.variant == Current && Text(Children(hit.node, DiTitleSel)) == "" ==>
              r == Outcome([], Some(Error(NoIdiomHeadword)))
    decreases HitSize(hit), 1, 0
  {
    if cfg.variant == Legacy then Outcome([], None)
    else
      var diTitle := Text(Children(hit.node, DiTitleSel));
      if diTitle == "" then Outcome([], Some(Error(NoIdiomHeadword)))
      else
        var c := ctx.(word := diTitle, partOfSpeech := ["idiom"]);
        var body := Children(hit.node, IdiomBodySel);
        var dsenses := ChildrenIn(body, DSenseSel);
        ChildrenWithin(hit, IdiomBodySel);
        ChildrenInWithin(body, DSenseSel);
        Enrich(cfg, c, dsenses, DSenseH)
  }
}
