/**
 * The lemma extractor as the program runs it: handlers that assign fields of
 * a `Lemma` context object in place, and `EnrichLemmas`, the loop that hands
 * every selected node a fresh copy of the context. Each method is proved to
 * produce the records that the corresponding function of LemmaParser describes.
 */
module LemmaWalk {
  import opened Wrappers
  import opened Strings
  import opened Dom
  import opened LemmaRecords
  import opened LemmaParser

  /**
   * enrichLemmas. The caller's context is never written: each node gets a copy,
   * and the records it returns are objects allocated during the call.
   */
  method EnrichLemmas(cfg: Config, ctx: Lemma, hs: seq<Hit>, h: Handler)
    returns (ls: seq<Lemma>, failure: Option<Failure>)
    ensures Outcome(Values(ls), failure) == Enrich(cfg, ctx.Value(), hs, h)
    ensures forall l :: l in ls ==> fresh(l)
    decreases MaxHitSize(hs), 3, |hs| + 1
  {
    ls := [];
    failure := None;
    ghost var v := ctx.Value();
    var i := 0;
    while i < |hs|
      invariant i <= |hs| && ctx.Value() == v
      invariant forall l :: l in ls ==> fresh(l)
      invariant Enrich(cfg, v, hs, h) == Prepend(Values(ls), Enrich(cfg, v, hs[i..], h))
    {
      var err;
      ls, err := EnrichStep(cfg, ctx, hs, h, i, ls);
      if err.Some? {
        failure := err;
        return;
      }
      i := i + 1;
    }
    EnrichDone(cfg, v, hs, h, Values(ls));
  }

  /**
   * One turn of enrichLemmas' loop: handle node `i` on a copy of the context,
   * then either append its records or stop with its error (a panic drops
   * everything gathered so far).
   */
  method EnrichStep(cfg: Config, ctx: Lemma, hs: seq<Hit>, h: Handler, i: nat, ls: seq<Lemma>)
    returns (next: seq<Lemma>, failure: Option<Failure>)
    requires i < |hs|
    requires Enrich(cfg, ctx.Value(), hs, h) == Prepend(Values(ls), Enrich(cfg, ctx.Value(), hs[i..], h))
    ensures ctx.Value() == old(ctx.Value())
    ensures forall l :: l in next ==> l in ls || fresh(l)
    ensures failure.None? ==> Enrich(cfg, ctx.Value(), hs, h) == Prepend(Values(next), Enrich(cfg, ctx.Value(), hs[i + 1..], h))
    ensures failure.Some? ==> Outcome(Values(next), failure) == Enrich(cfg, ctx.Value(), hs, h)
    decreases MaxHitSize(hs), 3, 1
  {
    MaxHitSizeAtLeast(hs, i);
    var got;
    got, failure := HandleCopy(cfg, ctx, hs[i], h);
    if failure.Some? {
      EnrichStops(cfg, ctx.Value(), hs, h, i, Values(ls));
      next := if failure.value.Panic? then [] else ls;
      return;
    }
    EnrichAdvances(cfg, ctx.Value(), hs, h, i, Values(ls));
    ValuesAppend(ls, got);
    next := ls + got;
  }

  /** `newLemmaContext := *lctx; handler(sel, &newLemmaContext)`: one node, handled with its own copy of the context. */
  method HandleCopy(cfg: Config, ctx: Lemma, hit: Hit, h: Handler)
    returns (ls: seq<Lemma>, failure: Option<Failure>)
    ensures Outcome(Values(ls), failure) == Apply(cfg, ctx.Value(), hit, h)
    ensures forall l :: l in ls ==> fresh(l)
    decreases HitSize(hit), 3, 0
  {
    var child := new Lemma.Copy(ctx);
    ls, failure := ApplyHandler(cfg, child, hit, h);
  }

  /** One handler on one node, with the dispatch closures of parseDictionary and parseDSense. */
  method ApplyHandler(cfg: Config, ctx: Lemma, hit: Hit, h: Handler)
    returns (ls: seq<Lemma>, failure: Option<Failure>)
    modifies ctx
    ensures Outcome(Values(ls), failure) == Apply(cfg, old(ctx.Value()), hit, h)
    ensures forall l :: l in ls ==> fresh(l) || l == ctx
    decreases HitSize(hit), 2, 0
  {
    match h
    case DictionaryH =>
      ls, failure := ParseDictionaryIn(cfg, ctx, hit);
    case EntryH =>
      if HasClass(hit.node, "pos-header") {
        ls, failure := ParsePosHeaderIn(cfg, ctx, hit);
      } else if HasClass(hit.node, "pv-block") {
        ls, failure := ParsePVBlockIn(cfg, ctx, hit);
      } else if HasClass(hit.node, "idiom-block") {
        ls, failure := ParseIdiomBlockIn(cfg, ctx, hit);
      } else {
        ls, failure := [], Some(Panic(EntryPanicPrefix + ClassAttr(hit.node)));
      }
    case DSenseH =>
      ls, failure := ParseDSenseIn(cfg, ctx, hit);
    case DSenseEntryH =>
      if HasClass(hit.node, "def-block") {
        ls, failure := ParseDefBlockIn(cfg, ctx, hit);
      } else if HasClass(hit.node, "phrase-block") {
        ls, failure := ParsePhraseBlockIn(cfg, ctx, hit);
      } else {
        ls, failure := [], Some(Panic(DSenseEntryPanicPrefix + ClassAttr(hit.node)));
      }
    case DefBlockH =>
      ls, failure := ParseDefBlockIn(cfg, ctx, hit);
  }

  /** ParseLemmaHTML: the walk starts from an empty context at every dictionary of the page. */
  method ParseLemmaHTMLIn(cfg: Config, page: Result<Node, string>)
    returns (ls: seq<Lemma>, failure: Option<Failure>)
    ensures Outcome(Values(ls), failure) == ParseLemmaHTML(cfg, page)
  {
    if page.Failure? {
      return [], Some(Error(PageError(page.error)));
    }
    var root := new Lemma(EmptyRecord);
    ls, failure := EnrichLemmas(cfg, root, Find(page.value, DictionarySel), DictionaryH);
  }

  method ParseDictionaryIn(cfg: Config, ctx: Lemma, hit: Hit)
    returns (ls: seq<Lemma>, failure: Option<Failure>)
    modifies ctx
    ensures Outcome(Values(ls), failure) == ParseDictionary(cfg, old(ctx.Value()), hit)
    ensures forall l :: l in ls ==> fresh(l)
    decreases HitSize(hit), 1, 0
  {
    var language := LanguageFromDataId(hit.node);
    if language.Failure? {
      return [], Some(Error(language.error));
    }
    ctx.language := language.value;
    var entries := Find(hit.node, EntrySel(cfg.variant));
    FindWithin(hit, EntrySel(cfg.variant));
    ls, failure := EnrichLemmas(cfg, ctx, entries, EntryH);
  }

  method UpdateWithPosgramIn(ctx: Lemma, posgram: seq<Hit>)
    modifies ctx
    ensures ctx.Value() == UpdateWithPosgram(old(ctx.Value()), posgram)
  {
    ctx.partOfSpeech := PartOfSpeech(posgram);
    ctx.grammar := Grammar(posgram);
  }

  /** updateLemmaWithHeader: on a missing headword the context is left as it was. */
  method UpdateWithHeaderIn(cfg: Config, ctx: Lemma, header: Hit) returns (err: Option<ParseError>)
    modifies ctx
    ensures match UpdateWithHeader(cfg, old(ctx.Value()), header)
      case Success(v) => err == None && ctx.Value() == v
      case Failure(e) => err == Some(e) && ctx.Value() == old(ctx.Value())
  {
    var headword := Find(header.node, HeadwordSel);
    if headword == [] {
      return Some(NoPosHeaderHeadword);
    }
    ctx.word := TrimSpace(Text(headword));
    UpdateWithPosgramIn(ctx, Children(header.node, PosgramSel));
    ctx.transcriptions := GetTranscriptions(cfg, [header]);
    err := None;
  }

  method ParsePosHeaderIn(cfg: Config, ctx: Lemma, hit: Hit)
    returns (ls: seq<Lemma>, failure: Option<Failure>)
    modifies ctx
    ensures Outcome(Values(ls), failure) == ParsePosHeader(cfg, old(ctx.Value()), hit)
    ensures forall l :: l in ls ==> fresh(l)
    decreases HitSize(hit), 1, 0
  {
    var err := UpdateWithHeaderIn(cfg, ctx, hit);
    if err.Some? {
      return [], Some(Error(err.value));
    }
    var next := Next(hit);
    var dsenses := ChildrenIn(next, DSenseSel);
    NextWithin(hit);
    ChildrenInWithin(next, DSenseSel);
    ls, failure := EnrichLemmas(cfg, ctx, dsenses, DSenseH);
  }

  /** getTranscriptions: one map entry per region label, a later block overwriting an earlier one. */
  method GetTranscriptions(cfg: Config, sel: seq<Hit>) returns (transcriptions: map<string, seq<string>>)
    ensures transcriptions == Transcriptions(cfg, sel)
  {
    var dprons := ChildrenIn(sel, DpronSel);
    transcriptions := map[];
    for i := 0 to |dprons|
      invariant transcriptions == TranscriptionsOf(cfg, dprons[..i])
    {
      var dpron := dprons[i].node;
      var region := Region(dpron);
      var ipas := MapIpaToString(cfg, Find(dpron, IpaSel));
      assert ipas == Ipas(cfg, dpron);
      TranscriptionsOfSnoc(cfg, dprons, i);
      transcriptions := transcriptions[region := ipas];
    }
    assert dprons[..|dprons|] == dprons;
  }

  /** `Map(transfromIPAToString)` over the IPA spans of one pronunciation block. */
  method MapIpaToString(cfg: Config, ipaSpans: seq<Hit>) returns (ipas: seq<string>)
    ensures |ipas| == |ipaSpans|
    ensures forall j :: 0 <= j < |ipaSpans| ==> ipas[j] == IpaOfNodes(cfg, Contents(ipaSpans[j].node))
  {
    ipas := [];
    for j := 0 to |ipaSpans|
      invariant |ipas| == j
      invariant forall k :: 0 <= k < j ==> ipas[k] == IpaOfNodes(cfg, Contents(ipaSpans[k].node))
    {
      var ipa := IpaToString(cfg, ipaSpans[j].node);
      ipas := ipas + [ipa];
    }
  }

  /** transfromIPAToString. */
  method IpaToString(cfg: Config, ipa: Node) returns (s: string)
    ensures s == IpaOfNodes(cfg, Contents(ipa))
  {
    var contents := Contents(ipa);
    var parts: seq<string> := [];
    for i := 0 to |contents|
      invariant parts == IpaPieces(cfg, contents[..i])
    {
      var node := contents[i];
      assert contents[..i + 1][..i] == contents[..i];
      match node
      case TextNode(t) =>
        parts := parts + [t];
      case Element(tag, _, _, _) =>
        if tag == "span" {
          parts := parts + [cfg.superscript(TextOf(node))];
        }
    }
    assert contents[..|contents|] == contents;
    s := Join(parts, "");
  }

  method ParseDSenseIn(cfg: Config, ctx: Lemma, hit: Hit)
    returns (ls: seq<Lemma>, failure: Option<Failure>)
    modifies ctx
    ensures Outcome(Values(ls), failure) == ParseDSense(cfg, old(ctx.Value()), hit)
    ensures forall l :: l in ls ==> fresh(l)
    decreases HitSize(hit), 1, 0
  {
    ctx.guideWord := GuideWord(cfg, Children(hit.node, DSenseHSel));
    var entries := Find(hit.node, DSenseEntrySel);
    FindWithin(hit, DSenseEntrySel);
    ls, failure := EnrichLemmas(cfg, ctx, entries, DSenseEntryH);
  }

  /** parseDefBlock: the one record it returns is the context object itself. */
  method ParseDefBlockIn(cfg: Config, ctx: Lemma, hit: Hit)
    returns (ls: seq<Lemma>, failure: Option<Failure>)
    modifies ctx
    ensures Outcome(Values(ls), failure) == ParseDefBlock(cfg, old(ctx.Value()), hit)
    ensures failure.None? ==> ls == [ctx]
    decreases HitSize(hit), 1, 0
  {
    ghost var v := ctx.Value();
    var ddefh := Children(hit.node, DDefHSel);
    var definition := Definition(cfg, ddefh);
    if definition.Failure? {
      return [], Some(Error(definition.error));
    }
    ctx.definition := definition.value;
    var defInfo := ChildrenIn(ddefh, DefInfoSel);
    var grammar := Grammar(defInfo);
    if |grammar| != 0 {
      ctx.grammar := grammar;
    }
    ctx.alternative := AlternativeForm(defInfo);
    ctx.examples := Examples(Children(hit.node, DefBodySel));
    ghost var w := v.(definition := definition.value,
                      grammar := if |grammar| != 0 then grammar else v.grammar,
                      alternative := AlternativeForm(defInfo),
                      examples := Examples(Children(hit.node, DefBodySel)));
    assert ctx.Value() == w;
    ParseDefBlockFound(cfg, v, hit);
    ls, failure := [ctx], None;
  }

  method ParsePhraseBlockIn(cfg: Config, ctx: Lemma, hit: Hit)
    returns (ls: seq<Lemma>, failure: Option<Failure>)
    modifies ctx
    ensures Outcome(Values(ls), failure) == ParsePhraseBlock(cfg, old(ctx.Value()), hit)
    ensures forall l :: l in ls ==> fresh(l)
    decreases HitSize(hit), 1, 0
  {
    if cfg.variant == Legacy {
      return [], None;
    }
    ctx.alternative := Text(ChildrenIn(Children(hit.node, PhraseHeadSel), PhraseTitleSel));
    var body := Children(hit.node, PhraseBodySel);
    var defBlocks := ChildrenIn(body, DefBlockSel);
    ChildrenWithin(hit, PhraseBodySel);
    ChildrenInWithin(body, DefBlockSel);
    ls, failure := EnrichLemmas(cfg, ctx, defBlocks, DefBlockH);
  }

  /** updateLemmaWithPVBlock: on an empty title the context is left as it was. */
  method UpdateWithPVBlockIn(cfg: Config, ctx: Lemma, pvBlock: Node) returns (err: Option<ParseError>)
    modifies ctx
    ensures match UpdateWithPVBlock(cfg, old(ctx.Value()), pvBlock)
      case Success(v) => err == None && ctx.Value() == v
      case Failure(e) => err == Some(e) && ctx.Value() == old(ctx.Value())
  {
    var diTitle := Text(Children(pvBlock, DiTitleSel));
    if diTitle == "" {
      return Some(NoPVBlockHeadword);
    }
    ctx.word := diTitle;
    var posHeader := ChildrenIn(Children(pvBlock, DiInfoSel), PosHeaderSel);
    UpdateWithPosgramIn(ctx, ChildrenIn(posHeader, AncInfoHeadSel));
    ctx.transcriptions := GetTranscriptions(cfg, posHeader);
    err := None;
  }

  method ParsePVBlockIn(cfg: Config, ctx: Lemma, hit: Hit)
    returns (ls: seq<Lemma>, failure: Option<Failure>)
    modifies ctx
    ensures Outcome(Values(ls), failure) == ParsePVBlock(cfg, old(ctx.Value()), hit)
    ensures forall l :: l in ls ==> fresh(l)
    decreases HitSize(hit), 1, 0
  {
    if cfg.variant == Legacy {
      return [], None;
    }
    var err := UpdateWithPVBlockIn(cfg, ctx, hit.node);
    if err.Some? {
      return [], Some(Error(err.value));
    }
    var body := Children(hit.node, PVBodySel);
    var dsenses := ChildrenIn(body, DSenseSel);
    ChildrenWithin(hit, PVBodySel);
    ChildrenInWithin(body, DSenseSel);
    ls, failure := EnrichLemmas(cfg, ctx, dsenses, DSenseH);
  }

  method ParseIdiomBlockIn(cfg: Config, ctx: Lemma, hit: Hit)
    returns (ls: seq<Lemma>, failure: Option<Failure>)
    modifies ctx
    ensures Outcome(Values(ls), failure) == ParseIdiomBlock(cfg, old(ctx.Value()), hit)
    ensures forall l :: l in ls ==> fresh(l)
    decreases HitSize(hit), 1, 0
  {
    if cfg.variant == Legacy {
      return [], None;
    }
    var diTitle := Text(Children(hit.node, DiTitleSel));
    if diTitle == "" {
      return [], Some(Error(NoIdiomHeadword));
    }
    ctx.word := diTitle;
    ctx.partOfSpeech := ["idiom"];
    var body := Children(hit.node, IdiomBodySel);
    var dsenses := ChildrenIn(body, DSenseSel);
    ChildrenWithin(hit, IdiomBodySel);
    ChildrenInWithin(body, DSenseSel);
    ls, failure := EnrichLemmas(cfg, ctx, dsenses, DSenseH);
  }
}
