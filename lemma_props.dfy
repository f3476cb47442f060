/**
 * What the lemma extractor promises, stated about the functions of
 * LemmaParser (and therefore, through the equalities LemmaWalk proves, about
 * the imperative walk as well).
 */
module LemmaProperties {
  import opened Wrappers
  import opened Strings
  import opened Dom
  import opened LemmaRecords
  import opened LemmaParser

  // ---------------------------------------------------------------------------
  // enrichLemmas: fail fast, keep the records of the earlier siblings

  /** The index of the first node whose handler fails, or |hs| when none does. */
  function FirstFailing(cfg: Config, ctx: LemmaRecord, hs: seq<Hit>, h: Handler): (k: nat)
    ensures k <= |hs|
  {
    if hs == [] then 0
    else if Apply(cfg, ctx, hs[0], h).failure.Some? then 0
    else 1 + FirstFailing(cfg, ctx, hs[1..], h)
  }

  /** The records of the given nodes, each handled on its own with the same context, in order. */
  function Gathered(cfg: Config, ctx: LemmaRecord, hs: seq<Hit>, h: Handler): seq<LemmaRecord> {
    if hs == [] then [] else Apply(cfg, ctx, hs[0], h).lemmas + Gathered(cfg, ctx, hs[1..], h)
  }

  /** A first failing position past the start: the first node succeeds and the rest count from one. */
  lemma FirstFailingTail(cfg: Config, ctx: LemmaRecord, hs: seq<Hit>, h: Handler)
    requires 0 < FirstFailing(cfg, ctx, hs, h)
    ensures hs != [] && Apply(cfg, ctx, hs[0], h).failure.None?
    ensures FirstFailing(cfg, ctx, hs, h) == 1 + FirstFailing(cfg, ctx, hs[1..], h)
  { }

  /** The node at the first failing position does fail. */
  lemma {:induction false} FirstFailingFails(cfg: Config, ctx: LemmaRecord, hs: seq<Hit>, h: Handler)
    requires FirstFailing(cfg, ctx, hs, h) < |hs|
    ensures Apply(cfg, ctx, hs[FirstFailing(cfg, ctx, hs, h)], h).failure.Some?
  {
    if Apply(cfg, ctx, hs[0], h).failure.None? {
      FirstFailingTail(cfg, ctx, hs, h);
      FirstFailingFails(cfg, ctx, hs[1..], h);
      var k := FirstFailing(cfg, ctx, hs, h);
      assert hs[k] == hs[1..][k - 1];
    }
  }

  /** The nodes before the first failing one all succeed. */
  lemma {:induction false} BeforeFirstFailing(cfg: Config, ctx: LemmaRecord, hs: seq<Hit>, h: Handler, i: nat)
    requires i < FirstFailing(cfg, ctx, hs, h)
    ensures Apply(cfg, ctx, hs[i], h).failure.None?
  {
    FirstFailingTail(cfg, ctx, hs, h);
    if i > 0 {
      BeforeFirstFailing(cfg, ctx, hs[1..], h, i - 1);
      assert hs[i] == hs[1..][i - 1];
    }
  }

  /**
   * Every node is handled with the caller's context, never with a sibling's.
   * Without a failure the result is every node's records in order; otherwise
   * the first failure is returned with the records of the nodes before it
   * (none at all after a panic), and no later node contributes anything.
   */
  lemma EnrichFailFast(cfg: Config, ctx: LemmaRecord, hs: seq<Hit>, h: Handler)
    ensures FirstFailing(cfg, ctx, hs, h) == |hs| ==> Enrich(cfg, ctx, hs, h) == Outcome(Gathered(cfg, ctx, hs, h), None)
    ensures FirstFailing(cfg, ctx, hs, h) < |hs| ==>
      var k := FirstFailing(cfg, ctx, hs, h);
      var f := Apply(cfg, ctx, hs[k], h).failure;
      f.Some? && Enrich(cfg, ctx, hs, h) == Outcome(if f.value.Panic? then [] else Gathered(cfg, ctx, hs[..k], h), f)
  {
    if FirstFailing(cfg, ctx, hs, h) == |hs| {
      EnrichAllSucceed(cfg, ctx, hs, h);
    } else {
      EnrichFirstFailure(cfg, ctx, hs, h);
    }
  }

  /** Without a failing node, the walk answers every node's records in order. */
  lemma {:induction false} EnrichAllSucceed(cfg: Config, ctx: LemmaRecord, hs: seq<Hit>, h: Handler)
    requires FirstFailing(cfg, ctx, hs, h) == |hs|
    ensures Enrich(cfg, ctx, hs, h) == Outcome(Gathered(cfg, ctx, hs, h), None)
  {
    if hs != [] {
      EnrichAllSucceed(cfg, ctx, hs[1..], h);
      assert Apply(cfg, ctx, hs[0], h).lemmas + [] == Apply(cfg, ctx, hs[0], h).lemmas;
    }
  }

  /** With a failing node, the walk answers its failure and the records of the nodes before it (none after a panic). */
  lemma {:induction false} EnrichFirstFailure(cfg: Config, ctx: LemmaRecord, hs: seq<Hit>, h: Handler)
    requires FirstFailing(cfg, ctx, hs, h) < |hs|
    ensures var k := FirstFailing(cfg, ctx, hs, h);
      var f := Apply(cfg, ctx, hs[k], h).failure;
      f.Some? && Enrich(cfg, ctx, hs, h) == Outcome(if f.value.Panic? then [] else Gathered(cfg, ctx, hs[..k], h), f)
  {
    if Apply(cfg, ctx, hs[0], h).failure.None? {
      FirstFailingTail(cfg, ctx, hs, h);
      EnrichFirstFailure(cfg, ctx, hs[1..], h);
      FirstFailureAfterSuccess(cfg, ctx, hs, h);
    } else {
      assert hs[..0] == [];
    }
  }

  /** The step of EnrichFirstFailure past a node that succeeds. */
  lemma FirstFailureAfterSuccess(cfg: Config, ctx: LemmaRecord, hs: seq<Hit>, h: Handler)
    requires hs != [] && Apply(cfg, ctx, hs[0], h).failure.None?
    requires FirstFailing(cfg, ctx, hs[1..], h) < |hs[1..]|
    requires var k := FirstFailing(cfg, ctx, hs[1..], h);
      var f := Apply(cfg, ctx, hs[1..][k], h).failure;
      f.Some? && Enrich(cfg, ctx, hs[1..], h) == Outcome(if f.value.Panic? then [] else Gathered(cfg, ctx, hs[1..][..k], h), f)
    ensures var k := FirstFailing(cfg, ctx, hs, h);
      var f := Apply(cfg, ctx, hs[k], h).failure;
      f.Some? && Enrich(cfg, ctx, hs, h) == Outcome(if f.value.Panic? then [] else Gathered(cfg, ctx, hs[..k], h), f)
  {
    var k := FirstFailing(cfg, ctx, hs, h);
    assert k == 1 + FirstFailing(cfg, ctx, hs[1..], h);
    assert hs[k] == hs[1..][k - 1];
    GatheredCons(cfg, ctx, hs, h, k);
  }

  /** The records of a non-empty prefix are the first node's followed by those of the rest of the prefix. */
  lemma GatheredCons(cfg: Config, ctx: LemmaRecord, hs: seq<Hit>, h: Handler, k: nat)
    requires 0 < k <= |hs|
    ensures Gathered(cfg, ctx, hs[..k], h) == Apply(cfg, ctx, hs[0], h).lemmas + Gathered(cfg, ctx, hs[1..][..k - 1], h)
  {
    assert hs[..k][0] == hs[0];
    assert hs[1..][..k - 1] == hs[..k][1..];
  }

  /** Once a selection fails, nodes appended after it change nothing: they are never visited. */
  lemma {:induction false} EnrichIgnoresLater(cfg: Config, ctx: LemmaRecord, hs: seq<Hit>, rest: seq<Hit>, h: Handler)
    requires Enrich(cfg, ctx, hs, h).failure.Some?
    ensures Enrich(cfg, ctx, hs + rest, h) == Enrich(cfg, ctx, hs, h)
  {
    assert hs != [];
    assert (hs + rest)[0] == hs[0];
    if Apply(cfg, ctx, hs[0], h).failure.None? {
      assert (hs + rest)[1..] == hs[1..] + rest;
      EnrichIgnoresLater(cfg, ctx, hs[1..], rest, h);
    }
  }

  // ---------------------------------------------------------------------------
  // What every record keeps from the context it was built in

  /** The part of speech and the grammar codes are in ascending order. */
  predicate WellSorted(r: LemmaRecord) {
    Sorted(r.partOfSpeech) && Sorted(r.grammar)
  }

  /** The fields a sense below an entry never touches. */
  predicate SameHead(ctx: LemmaRecord, r: LemmaRecord) {
    r.word == ctx.word && r.partOfSpeech == ctx.partOfSpeech
    && r.language == ctx.language && r.transcriptions == ctx.transcriptions
  }

  /**
   * What a record built by handler `h` from context `ctx` keeps: it is always
   * well sorted; below a dictionary it carries one of the four languages, below
   * an entry the entry's language, and below a sense the whole head of the entry.
   */
  predicate Keeps(h: Handler, ctx: LemmaRecord, r: LemmaRecord) {
    WellSorted(r)
    && match h
       case DictionaryH => r.language in DataIdLanguages.Values
       case EntryH => r.language == ctx.language
       case _ => SameHead(ctx, r)
  }

  lemma {:induction false} EnrichKeeps(cfg: Config, ctx: LemmaRecord, hs: seq<Hit>, h: Handler)
    requires WellSorted(ctx)
    ensures forall r :: r in Enrich(cfg, ctx, hs, h).lemmas ==> Keeps(h, ctx, r)
    decreases MaxHitSize(hs), 3, |hs|
  {
    if hs != [] {
      MaxHitSizeAtLeast(hs, 0);
      ApplyKeeps(cfg, ctx, hs[0], h);
      if Apply(cfg, ctx, hs[0], h).failure.None? {
        EnrichKeeps(cfg, ctx, hs[1..], h);
      }
    }
  }

  lemma {:induction false} ApplyKeeps(cfg: Config, ctx: LemmaRecord, hit: Hit, h: Handler)
    requires WellSorted(ctx)
    ensures forall r :: r in Apply(cfg, ctx, hit, h).lemmas ==> Keeps(h, ctx, r)
    decreases HitSize(hit), 2, 0
  {
    match h
    case DictionaryH => ParseDictionaryKeeps(cfg, ctx, hit);
    case EntryH =>
      if HasClass(hit.node, "pos-header") {
        ParsePosHeaderKeeps(cfg, ctx, hit);
      } else if HasClass(hit.node, "pv-block") {
        ParsePVBlockKeeps(cfg, ctx, hit);
      } else if HasClass(hit.node, "idiom-block") {
        ParseIdiomBlockKeeps(cfg, ctx, hit);
      }
    case DSenseH => ParseDSenseKeeps(cfg, ctx, hit);
    case DSenseEntryH =>
      if HasClass(hit.node, "def-block") {
        ParseDefBlockKeeps(cfg, ctx, hit);
      } else if HasClass(hit.node, "phrase-block") {
        ParsePhraseBlockKeeps(cfg, ctx, hit);
      }
    case DefBlockH => ParseDefBlockKeeps(cfg, ctx, hit);
  }

  lemma {:induction false} ParseDictionaryKeeps(cfg: Config, ctx: LemmaRecord, hit: Hit)
    requires WellSorted(ctx)
    ensures forall r :: r in ParseDictionary(cfg, ctx, hit).lemmas ==> Keeps(DictionaryH, ctx, r)
    decreases HitSize(hit), 1, 0
  {
    var language := LanguageFromDataId(hit.node);
    if language.Success? {
      assert language.value in DataIdLanguages.Values;
      FindWithin(hit, EntrySel(cfg.variant));
      EnrichKeeps(cfg, ctx.(language := language.value), Find(hit.node, EntrySel(cfg.variant)), EntryH);
    }
  }

  lemma {:induction false} ParsePosHeaderKeeps(cfg: Config, ctx: LemmaRecord, hit: Hit)
    requires WellSorted(ctx)
    ensures forall r :: r in ParsePosHeader(cfg, ctx, hit).lemmas ==> Keeps(EntryH, ctx, r)
    decreases HitSize(hit), 1, 0
  {
    var u := UpdateWithHeader(cfg, ctx, hit);
    if u.Success? {
      UpdateWithHeaderSorted(cfg, ctx, hit);
      var next := Next(hit);
      NextWithin(hit);
      ChildrenInWithin(next, DSenseSel);
      EnrichKeeps(cfg, u.value, ChildrenIn(next, DSenseSel), DSenseH);
    }
  }

  lemma {:induction false} ParseDSenseKeeps(cfg: Config, ctx: LemmaRecord, hit: Hit)
    requires WellSorted(ctx)
    ensures forall r :: r in ParseDSense(cfg, ctx, hit).lemmas ==> Keeps(DSenseH, ctx, r)
    decreases HitSize(hit), 1, 0
  {
    var c := ctx.(guideWord := GuideWord(cfg, Children(hit.node, DSenseHSel)));
    FindWithin(hit, DSenseEntrySel);
    EnrichKeeps(cfg, c, Find(hit.node, DSenseEntrySel), DSenseEntryH);
  }

  lemma {:induction false} ParseDefBlockKeeps(cfg: Config, ctx: LemmaRecord, hit: Hit)
    requires WellSorted(ctx)
    ensures forall r :: r in ParseDefBlock(cfg, ctx, hit).lemmas ==> WellSorted(r) && SameHead(ctx, r)
    decreases HitSize(hit), 1, 0
  {
    var ddefh := Children(hit.node, DDefHSel);
    if Definition(cfg, ddefh).Success? {
      var defInfo := ChildrenIn(ddefh, DefInfoSel);
      GrammarSorted(defInfo);
      ParseDefBlockFound(cfg, ctx, hit);
    }
  }

  lemma {:induction false} ParsePhraseBlockKeeps(cfg: Config, ctx: LemmaRecord, hit: Hit)
    requires WellSorted(ctx)
    ensures forall r :: r in ParsePhraseBlock(cfg, ctx, hit).lemmas ==> Keeps(DSenseEntryH, ctx, r)
    decreases HitSize(hit), 1, 0
  {
    if cfg.variant == Current {
      var c := ctx.(alternative := Text(ChildrenIn(Children(hit.node, PhraseHeadSel), PhraseTitleSel)));
      var body := Children(hit.node, PhraseBodySel);
      ChildrenWithin(hit, PhraseBodySel);
      ChildrenInWithin(body, DefBlockSel);
      EnrichKeeps(cfg, c, ChildrenIn(body, DefBlockSel), DefBlockH);
    }
  }

  lemma {:induction false} ParsePVBlockKeeps(cfg: Config, ctx: LemmaRecord, hit: Hit)
    requires WellSorted(ctx)
    ensures forall r :: r in ParsePVBlock(cfg, ctx, hit).lemmas ==> Keeps(EntryH, ctx, r)
    decreases HitSize(hit), 1, 0
  {
    if cfg.variant == Current {
      var u := UpdateWithPVBlock(cfg, ctx, hit.node);
      if u.Success? {
        UpdateWithPVBlockSorted(cfg, ctx, hit.node);
        var body := Children(hit.node, PVBodySel);
        ChildrenWithin(hit, PVBodySel);
        ChildrenInWithin(body, DSenseSel);
        EnrichKeeps(cfg, u.value, ChildrenIn(body, DSenseSel), DSenseH);
      }
    }
  }

  lemma UpdateWithHeaderSorted(cfg: Config, ctx: LemmaRecord, header: Hit)
    requires UpdateWithHeader(cfg, ctx, header).Success?
    ensures WellSorted(UpdateWithHeader(cfg, ctx, header).value)
  {
    var posgram := Children(header.node, PosgramSel);
    PartOfSpeechSorted(posgram);
    GrammarSorted(posgram);
  }

  lemma UpdateWithPVBlockSorted(cfg: Config, ctx: LemmaRecord, pvBlock: Node)
    requires UpdateWithPVBlock(cfg, ctx, pvBlock).Success?
    ensures WellSorted(UpdateWithPVBlock(cfg, ctx, pvBlock).value)
  {
    var posHeader := ChildrenIn(Children(pvBlock, DiInfoSel), PosHeaderSel);
    PartOfSpeechSorted(ChildrenIn(posHeader, AncInfoHeadSel));
    GrammarSorted(ChildrenIn(posHeader, AncInfoHeadSel));
  }

  lemma {:induction false} ParseIdiomBlockKeeps(cfg: Config, ctx: LemmaRecord, hit: Hit)
    requires WellSorted(ctx)
    ensures forall r :: r in ParseIdiomBlock(cfg, ctx, hit).lemmas ==> Keeps(EntryH, ctx, r)
    decreases HitSize(hit), 1, 0
  {
    var diTitle := Text(Children(hit.node, DiTitleSel));
    if cfg.variant == Current && diTitle != "" {
      var c := ctx.(word := diTitle, partOfSpeech := ["idiom"]);
      assert WellSorted(c);
      var body := Children(hit.node, IdiomBodySel);
      ChildrenWithin(hit, IdiomBodySel);
      ChildrenInWithin(body, DSenseSel);
      EnrichKeeps(cfg, c, ChildrenIn(body, DSenseSel), DSenseH);
    }
  }

  /**
   * parseIdiomBlock: every record of a successful idiom-block has the title
   * as its lemma, exactly ["idiom"] as its part of speech, and the
   * dictionary's language.
   */
  lemma IdiomRecords(cfg: Config, ctx: LemmaRecord, hit: Hit)
    requires WellSorted(ctx)
    ensures var title := Text(Children(hit.node, DiTitleSel));
      forall r :: r in ParseIdiomBlock(cfg, ctx, hit).lemmas ==>
        r.word == title && r.partOfSpeech == ["idiom"] && r.language == ctx.language
  {
    var diTitle := Text(Children(hit.node, DiTitleSel));
    if cfg.variant == Current && diTitle != "" {
      var c := ctx.(word := diTitle, partOfSpeech := ["idiom"]);
      assert WellSorted(c);
      EnrichKeeps(cfg, c, ChildrenIn(Children(hit.node, IdiomBodySel), DSenseSel), DSenseH);
    }
  }

  /** Every record of a page has a sorted part of speech and grammar and one of the four languages. */
  lemma PageRecords(cfg: Config, page: Result<Node, string>)
    ensures forall r :: r in ParseLemmaHTML(cfg, page).lemmas ==>
      WellSorted(r) && r.language in {"unknown", "british", "american-english", "business-english"}
  {
    if page.Success? {
      assert WellSorted(EmptyRecord);
      EnrichKeeps(cfg, EmptyRecord, Find(page.value, DictionarySel), DictionaryH);
      forall r | r in ParseLemmaHTML(cfg, page).lemmas
        ensures r.language in {"unknown", "british", "american-english", "business-english"}
      {
        var id :| id in DataIdLanguages && DataIdLanguages[id] == r.language;
      }
    }
  }

  // ---------------------------------------------------------------------------
  // Where a panic can come from

  /** The dsense entry matcher only selects elements carrying one of the two class tokens, as cascadia splits them. */
  lemma DSenseEntriesClassed(n: Node)
    ensures forall x :: x in Find(n, DSenseEntrySel) ==>
      HasClassToken(x.node, "def-block") || HasClassToken(x.node, "phrase-block")
  {
    FindSubjects(n, DSenseEntrySel);
    forall x | x in Find(n, DSenseEntrySel)
      ensures HasClassToken(x.node, "def-block") || HasClassToken(x.node, "phrase-block")
    {
      DSenseEntrySubject(x.node);
    }
  }

  lemma DSenseEntrySubject(n: Node)
    requires SubjectMatches(DSenseEntrySel, n)
    ensures HasClassToken(n, "def-block") || HasClassToken(n, "phrase-block")
  {
    var s := DSenseEntrySel;
    assert s[1..][1..] == [];
    if CompoundMatches(s[0].subject, n) {
      assert Holds(ClassToken("def-block"), n);
    } else {
      assert SubjectMatches(s[1..], n);
      assert !SubjectMatches(s[1..][1..], n);
      assert CompoundMatches(s[1..][0].subject, n);
      assert Holds(ClassToken("phrase-block"), n);
    }
  }

  /** A handler below an entry. */
  predicate SenseHandler(h: Handler) {
    h.DSenseH? || h.DSenseEntryH? || h.DefBlockH?
  }

  /** The dsense dispatch's panic message, naming a class attribute that holds a form feed. */
  predicate FormFeedSensePanic(message: string) {
    HasPrefix(message, DSenseEntryPanicPrefix) && '\U{C}' in message[|DSenseEntryPanicPrefix|..]
  }

  /**
   * Where a panic comes from: the dictionary-entry dispatch, which only runs
   * above an entry, or the dsense dispatch on a node whose class attribute
   * holds a form feed (a separator for the selector but not for HasClass).
   */
  predicate PanicOrigin(h: Handler, o: Outcome) {
    Panics(o) ==>
      (!SenseHandler(h) && HasPrefix(o.failure.value.message, EntryPanicPrefix))
      || FormFeedSensePanic(o.failure.value.message)
  }

  /** The nodes handed to the dsense dispatch all carry the def-block or the phrase-block token. */
  predicate SenseEntries(h: Handler, hs: seq<Hit>) {
    h.DSenseEntryH? ==> forall x :: x in hs ==> HasClassToken(x.node, "def-block") || HasClassToken(x.node, "phrase-block")
  }

  lemma {:induction false} EnrichPanics(cfg: Config, ctx: LemmaRecord, hs: seq<Hit>, h: Handler)
    requires SenseEntries(h, hs)
    ensures PanicOrigin(h, Enrich(cfg, ctx, hs, h))
    decreases MaxHitSize(hs), 3, |hs|
  {
    if hs != [] {
      MaxHitSizeAtLeast(hs, 0);
      assert hs[0] in hs;
      ApplyPanics(cfg, ctx, hs[0], h);
      if Apply(cfg, ctx, hs[0], h).failure.None? {
        assert forall x :: x in hs[1..] ==> x in hs;
        EnrichPanics(cfg, ctx, hs[1..], h);
      }
    }
  }

  lemma {:induction false} ApplyPanics(cfg: Config, ctx: LemmaRecord, hit: Hit, h: Handler)
    requires h.DSenseEntryH? ==> HasClassToken(hit.node, "def-block") || HasClassToken(hit.node, "phrase-block")
    ensures PanicOrigin(h, Apply(cfg, ctx, hit, h))
    decreases HitSize(hit), 2, 0
  {
    match h
    case DictionaryH => ParseDictionaryPanics(cfg, ctx, hit);
    case EntryH =>
      if HasClass(hit.node, "pos-header") {
        ParsePosHeaderPanics(cfg, ctx, hit);
      } else if HasClass(hit.node, "pv-block") {
        ParsePVBlockPanics(cfg, ctx, hit);
      } else if HasClass(hit.node, "idiom-block") {
        ParseIdiomBlockPanics(cfg, ctx, hit);
      } else {
        assert (EntryPanicPrefix + ClassAttr(hit.node))[..|EntryPanicPrefix|] == EntryPanicPrefix;
      }
    case DSenseH => ParseDSensePanics(cfg, ctx, hit);
    case DSenseEntryH =>
      if HasClass(hit.node, "def-block") {
      } else if HasClass(hit.node, "phrase-block") {
        ParsePhraseBlockPanics(cfg, ctx, hit);
      } else {
        FormFeedOrHasClass(hit.node, "def-block");
        FormFeedOrHasClass(hit.node, "phrase-block");
        var message := DSenseEntryPanicPrefix + ClassAttr(hit.node);
        assert message[..|DSenseEntryPanicPrefix|] == DSenseEntryPanicPrefix;
        assert message[|DSenseEntryPanicPrefix|..] == hit.node.classAttr;
      }
    case DefBlockH =>
  }

  lemma {:induction false} ParseDictionaryPanics(cfg: Config, ctx: LemmaRecord, hit: Hit)
    ensures PanicOrigin(DictionaryH, ParseDictionary(cfg, ctx, hit))
    decreases HitSize(hit), 1, 0
  {
    var language := LanguageFromDataId(hit.node);
    if language.Success? {
      FindWithin(hit, EntrySel(cfg.variant));
      EnrichPanics(cfg, ctx.(language := language.value), Find(hit.node, EntrySel(cfg.variant)), EntryH);
    }
  }

  lemma {:induction false} ParsePosHeaderPanics(cfg: Config, ctx: LemmaRecord, hit: Hit)
    ensures var o := ParsePosHeader(cfg, ctx, hit); Panics(o) ==> FormFeedSensePanic(o.failure.value.message)
    decreases HitSize(hit), 1, 0
  {
    var u := UpdateWithHeader(cfg, ctx, hit);
    if u.Success? {
      var next := Next(hit);
      NextWithin(hit);
      ChildrenInWithin(next, DSenseSel);
      EnrichPanics(cfg, u.value, ChildrenIn(next, DSenseSel), DSenseH);
    }
  }

  lemma {:induction false} ParseDSensePanics(cfg: Config, ctx: LemmaRecord, hit: Hit)
    ensures var o := ParseDSense(cfg, ctx, hit); Panics(o) ==> FormFeedSensePanic(o.failure.value.message)
    decreases HitSize(hit), 1, 0
  {
    var c := ctx.(guideWord := GuideWord(cfg, Children(hit.node, DSenseHSel)));
    FindWithin(hit, DSenseEntrySel);
    DSenseEntriesClassed(hit.node);
    EnrichPanics(cfg, c, Find(hit.node, DSenseEntrySel), DSenseEntryH);
  }

  lemma {:induction false} ParsePhraseBlockPanics(cfg: Config, ctx: LemmaRecord, hit: Hit)
    ensures !Panics(ParsePhraseBlock(cfg, ctx, hit))
    decreases HitSize(hit), 1, 0
  {
    if cfg.variant == Current {
      var c := ctx.(alternative := Text(ChildrenIn(Children(hit.node, PhraseHeadSel), PhraseTitleSel)));
      var body := Children(hit.node, PhraseBodySel);
      EnrichDefBlocksNeverPanic(cfg, c, ChildrenIn(body, DefBlockSel));
    }
  }

  /** A def-block only ever returns an error, so a walk over def-blocks never panics. */
  lemma {:induction false} EnrichDefBlocksNeverPanic(cfg: Config, ctx: LemmaRecord, hs: seq<Hit>)
    ensures !Panics(Enrich(cfg, ctx, hs, DefBlockH))
    decreases |hs|
  {
    if hs != [] && Apply(cfg, ctx, hs[0], DefBlockH).failure.None? {
      EnrichDefBlocksNeverPanic(cfg, ctx, hs[1..]);
    }
  }

  lemma {:induction false} ParsePVBlockPanics(cfg: Config, ctx: LemmaRecord, hit: Hit)
    ensures var o := ParsePVBlock(cfg, ctx, hit); Panics(o) ==> FormFeedSensePanic(o.failure.value.message)
    decreases HitSize(hit), 1, 0
  {
    if cfg.variant == Current {
      var u := UpdateWithPVBlock(cfg, ctx, hit.node);
      if u.Success? {
        var body := Children(hit.node, PVBodySel);
        ChildrenWithin(hit, PVBodySel);
        ChildrenInWithin(body, DSenseSel);
        EnrichPanics(cfg, u.value, ChildrenIn(body, DSenseSel), DSenseH);
      }
    }
  }

  lemma {:induction false} ParseIdiomBlockPanics(cfg: Config, ctx: LemmaRecord, hit: Hit)
    ensures var o := ParseIdiomBlock(cfg, ctx, hit); Panics(o) ==> FormFeedSensePanic(o.failure.value.message)
    decreases HitSize(hit), 1, 0
  {
    var diTitle := Text(Children(hit.node, DiTitleSel));
    if cfg.variant == Current && diTitle != "" {
      var c := ctx.(word := diTitle, partOfSpeech := ["idiom"]);
      var body := Children(hit.node, IdiomBodySel);
      ChildrenWithin(hit, IdiomBodySel);
      ChildrenInWithin(body, DSenseSel);
      EnrichPanics(cfg, c, ChildrenIn(body, DSenseSel), DSenseH);
    }
  }

  /**
   * A page panics only in the dictionary-entry dispatch, or in the dsense
   * dispatch on an entry whose class attribute holds a form feed.
   */
  lemma PagePanics(cfg: Config, page: Result<Node, string>)
    ensures var o := ParseLemmaHTML(cfg, page);
      Panics(o) ==> o.lemmas == [] && (HasPrefix(o.failure.value.message, EntryPanicPrefix) || FormFeedSensePanic(o.failure.value.message))
  {
    if page.Success? {
      EnrichPanics(cfg, EmptyRecord, Find(page.value, DictionarySel), DictionaryH);
    }
  }

  // ---------------------------------------------------------------------------
  // The entry matchers of the two copies

  /** The current entry matcher is looser than the dispatch: a class merely containing "pos-header", or starting with "idiom-block", is selected. */
  lemma CurrentEntries(n: Node)
    ensures forall x :: x in Find(n, EntrySel(Current)) ==>
      var c := ClassAttr(x.node);
      x.node.Element? && x.node.tag == "div"
      && (Contains(c, "pos-header") || c == "pv-block" || HasPrefix(c, "idiom-block"))
  {
    FindSubjects(n, EntrySel(Current));
    forall x | x in Find(n, EntrySel(Current))
      ensures var c := ClassAttr(x.node);
        x.node.Element? && x.node.tag == "div"
        && (Contains(c, "pos-header") || c == "pv-block" || HasPrefix(c, "idiom-block"))
    {
      var m := x.node;
      var s := EntrySel(Current);
      assert s[1..][1..][1..] == [];
      if CompoundMatches(s[0].subject, m) {
        assert Holds(ClassContains("pos-header"), m);
      } else if CompoundMatches(s[1..][0].subject, m) {
        assert Holds(ClassEquals("pv-block"), m);
      } else {
        assert SubjectMatches(s[1..], m);
        assert SubjectMatches(s[1..][1..], m);
        assert !SubjectMatches(s[1..][1..][1..], m);
        assert CompoundMatches(s[1..][1..][0].subject, m);
        assert Holds(ClassPrefix("idiom-block"), m);
      }
    }
  }

  /** The older entry matcher: a class containing both "pos-header" and "dpos-h", or exactly "pv-block" or "idiom-block". */
  lemma LegacyEntries(n: Node)
    ensures forall x :: x in Find(n, EntrySel(Legacy)) ==>
      var c := ClassAttr(x.node);
      x.node.Element? && x.node.tag == "div"
      && ((Contains(c, "pos-header") && Contains(c, "dpos-h")) || c == "pv-block" || c == "idiom-block")
  {
    FindSubjects(n, EntrySel(Legacy));
    forall x | x in Find(n, EntrySel(Legacy))
      ensures var c := ClassAttr(x.node);
        x.node.Element? && x.node.tag == "div"
        && ((Contains(c, "pos-header") && Contains(c, "dpos-h")) || c == "pv-block" || c == "idiom-block")
    {
      var m := x.node;
      var s := EntrySel(Legacy);
      assert s[1..][1..][1..] == [];
      if CompoundMatches(s[0].subject, m) {
        assert Holds(ClassContains("pos-header"), m);
        assert AllHold(s[0].subject.conditions[1..], m);
        assert Holds(ClassContains("dpos-h"), m);
      } else if CompoundMatches(s[1..][0].subject, m) {
        assert Holds(ClassEquals("pv-block"), m);
      } else {
        assert SubjectMatches(s[1..], m);
        assert SubjectMatches(s[1..][1..], m);
        assert !SubjectMatches(s[1..][1..][1..], m);
        assert CompoundMatches(s[1..][1..][0].subject, m);
        assert Holds(ClassEquals("idiom-block"), m);
      }
    }
  }

  // ---------------------------------------------------------------------------
  // parseDefBlock and parsePhraseBlock

  /** A def-block ignores the alternative form it inherits: it always writes its own `span.v` text. */
  lemma {:induction false} EnrichDefBlocksIgnoreAlternative(cfg: Config, ctx: LemmaRecord, hs: seq<Hit>, a: string)
    ensures Enrich(cfg, ctx.(alternative := a), hs, DefBlockH) == Enrich(cfg, ctx, hs, DefBlockH)
    decreases |hs|
  {
    if hs != [] {
      DefBlockIgnoresAlternative(cfg, ctx, hs[0], a);
      EnrichDefBlocksIgnoreAlternative(cfg, ctx, hs[1..], a);
    }
  }

  /** The same for one def-block. */
  lemma DefBlockIgnoresAlternative(cfg: Config, ctx: LemmaRecord, hit: Hit, a: string)
    ensures Apply(cfg, ctx.(alternative := a), hit, DefBlockH) == Apply(cfg, ctx, hit, DefBlockH)
  {
    if Definition(cfg, Children(hit.node, DDefHSel)).Success? {
      ParseDefBlockFound(cfg, ctx, hit);
      ParseDefBlockFound(cfg, ctx.(alternative := a), hit);
    }
  }

  /**
   * The phrase title parsePhraseBlock stores as the alternative form never
   * reaches a record: handling the phrase body's def-blocks with the
   * unchanged context gives the same outcome.
   */
  lemma PhraseTitleOverwritten(cfg: Config, ctx: LemmaRecord, hit: Hit)
    requires cfg.variant == Current
    ensures ParsePhraseBlock(cfg, ctx, hit)
         == Enrich(cfg, ctx, ChildrenIn(Children(hit.node, PhraseBodySel), DefBlockSel), DefBlockH)
  {
    var title := Text(ChildrenIn(Children(hit.node, PhraseHeadSel), PhraseTitleSel));
    EnrichDefBlocksIgnoreAlternative(cfg, ctx, ChildrenIn(Children(hit.node, PhraseBodySel), DefBlockSel), title);
  }

  /** The definition of a def-block, in normal form for the copy in use. */
  lemma DefinitionNormalised(cfg: Config, ddefh: seq<Hit>)
    requires Definition(cfg, ddefh).Success?
    ensures NormalDefinition(cfg.variant, Text(ChildrenIn(ddefh, DefSel)), Definition(cfg, ddefh).value)
  {
    NormaliseDefinitionSpec(cfg.variant, Text(ChildrenIn(ddefh, DefSel)));
  }

  // ---------------------------------------------------------------------------
  // getTranscriptions and transfromIPAToString

  /** The labels of the given pronunciation blocks, one block at a time. */
  lemma RegionsSnoc(init: seq<Hit>, last: Hit)
    ensures var ds := init + [last];
      (set i | 0 <= i < |ds| :: Region(ds[i].node))
      == (set i | 0 <= i < |init| :: Region(init[i].node)) + {Region(last.node)}
  {
    var ds := init + [last];
    var s := set i | 0 <= i < |ds| :: Region(ds[i].node);
    var t := set i | 0 <= i < |init| :: Region(init[i].node);
    forall x | x in s ensures x in t + {Region(last.node)} {
      var i :| 0 <= i < |ds| && Region(ds[i].node) == x;
      if i < |init| { assert init[i] == ds[i]; }
    }
    forall x | x in t ensures x in s {
      var i :| 0 <= i < |init| && Region(init[i].node) == x;
      assert ds[i] == init[i];
    }
    assert ds[|init|] == last;
  }

  /** One entry per region label that occurs. */
  lemma {:induction false} TranscriptionsKeys(cfg: Config, ds: seq<Hit>)
    ensures TranscriptionsOf(cfg, ds).Keys == set i | 0 <= i < |ds| :: Region(ds[i].node)
    decreases |ds|
  {
    if ds != [] {
      var init := ds[..|ds| - 1];
      TranscriptionsKeys(cfg, init);
      assert ds == init + [ds[|ds| - 1]];
      RegionsSnoc(init, ds[|ds| - 1]);
    }
  }

  /** The entry for a region holds the IPA strings of the last pronunciation block with that label. */
  lemma {:induction false} TranscriptionsLastWins(cfg: Config, ds: seq<Hit>, i: nat)
    requires i < |ds| && forall j :: i < j < |ds| ==> Region(ds[j].node) != Region(ds[i].node)
    ensures Region(ds[i].node) in TranscriptionsOf(cfg, ds)
    ensures TranscriptionsOf(cfg, ds)[Region(ds[i].node)] == Ipas(cfg, ds[i].node)
    decreases |ds|
  {
    if i < |ds| - 1 {
      var init := ds[..|ds| - 1];
      assert init[i] == ds[i];
      forall j | i < j < |init| ensures Region(init[j].node) != Region(init[i].node) {
        assert init[j] == ds[j];
      }
      TranscriptionsLastWins(cfg, init, i);
    }
  }

  lemma {:induction false} IpaPiecesAppend(cfg: Config, a: seq<Node>, b: seq<Node>)
    ensures IpaPieces(cfg, a + b) == IpaPieces(cfg, a) + IpaPieces(cfg, b)
    decreases |b|
  {
    if b == [] {
      assert a + b == a;
    } else {
      var b' := b[..|b| - 1];
      assert (a + b)[..|a + b| - 1] == a + b';
      assert (a + b)[|a + b| - 1] == b[|b| - 1];
      IpaPiecesAppend(cfg, a, b');
    }
  }

  /** strings.Join with an empty separator is plain concatenation. */
  lemma {:induction false} JoinEmptySeparator(parts: seq<string>)
    ensures Join(parts, "") == Concat(parts)
  {
    if |parts| > 1 {
      JoinEmptySeparator(parts[1..]);
      assert parts[0] + "" == parts[0];
    } else if |parts| == 1 {
      assert parts[1..] == [];
      assert parts[0] + "" == parts[0];
    }
  }

  /** transfromIPAToString works piece by piece: the string of a concatenation of nodes is the concatenation of their strings. */
  lemma IpaOfNodesAppend(cfg: Config, a: seq<Node>, b: seq<Node>)
    ensures IpaOfNodes(cfg, a + b) == IpaOfNodes(cfg, a) + IpaOfNodes(cfg, b)
  {
    IpaPiecesAppend(cfg, a, b);
    JoinEmptySeparator(IpaPieces(cfg, a + b));
    JoinEmptySeparator(IpaPieces(cfg, a));
    JoinEmptySeparator(IpaPieces(cfg, b));
    ConcatAppend(IpaPieces(cfg, a), IpaPieces(cfg, b));
  }

  /** A text node is kept verbatim, a `span` goes through IpaSuperscript, any other node is dropped. */
  lemma IpaOfOneNode(cfg: Config, n: Node)
    ensures IpaOfNodes(cfg, [n]) == match n
      case TextNode(s) => s
      case Element(tag, _, _, _) => if tag == "span" then cfg.superscript(TextOf(n)) else ""
  {
    assert [n][..0] == [];
    JoinEmptySeparator(IpaPieces(cfg, [n]));
    assert IpaPieces(cfg, []) == [];
  }
}
