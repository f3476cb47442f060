/**
 * Small pages on which the extractor's behaviour can be read off: the
 * dictionary-entry panic is reachable in both copies, because the entry
 * matchers select elements the dispatch does not recognise; the dsense panic
 * is reachable through a form feed in a class attribute; and a def-block
 * nested in a phrase-block is emitted twice.
 */
module LemmaExamples {
  import opened Wrappers
  import opened Strings
  import opened Dom
  import opened LemmaRecords
  import opened LemmaParser

  // ---------------------------------------------------------------------------
  // Unfolding the matcher on short selectors

  lemma AllHoldOne(a: Condition, n: Node)
    requires n.Element?
    ensures AllHold([a], n) <==> Holds(a, n)
  {
    assert [a][1..] == [];
  }

  lemma AllHoldTwo(a: Condition, b: Condition, n: Node)
    requires n.Element?
    ensures AllHold([a, b], n) <==> Holds(a, n) && Holds(b, n)
  {
    assert [a, b][1..] == [b];
    AllHoldOne(b, n);
  }

  lemma MatchesAtOne(x: Complex, p: Node, i: nat)
    requires p.Element? && i < |p.children|
    ensures MatchesAt([x], p, i) <==> ComplexMatchesAt(x, p, i)
  {
    assert [x][1..] == [];
  }

  lemma MatchesAtTwo(x: Complex, y: Complex, p: Node, i: nat)
    requires p.Element? && i < |p.children|
    ensures MatchesAt([x, y], p, i) <==> ComplexMatchesAt(x, p, i) || ComplexMatchesAt(y, p, i)
  {
    assert [x, y][1..] == [y];
    MatchesAtOne(y, p, i);
  }

  lemma MatchesAtThree(x: Complex, y: Complex, z: Complex, p: Node, i: nat)
    requires p.Element? && i < |p.children|
    ensures MatchesAt([x, y, z], p, i) <==> ComplexMatchesAt(x, p, i) || ComplexMatchesAt(y, p, i) || ComplexMatchesAt(z, p, i)
  {
    assert [x, y, z][1..] == [y, z];
    MatchesAtTwo(y, z, p, i);
  }

  /** The selection below a node with one child. */
  lemma FindOnlyChild(p: Node, sel: Selector)
    requires p.Element? && |p.children| == 1
    ensures Find(p, sel) == (if MatchesAt(sel, p, 0) then [Hit(p.children[0], [])] else []) + Find(p.children[0], sel)
  {
    assert p.children[1..] == [];
    assert FindFrom(p, sel, 1) == [];
  }

  // ---------------------------------------------------------------------------
  // The pages

  function Div(cls: string, children: seq<Node>): Node {
    Element("div", cls, map[], children)
  }

  /** A British dictionary, data-id "cald4", holding the given entries. */
  function Dictionary(entries: seq<Node>): Node {
    Element("div", "dictionary", map["data-id" := "cald4"], entries)
  }

  /** A page root holding one dictionary. */
  function Page(entries: seq<Node>): Node {
    Element("html", "", map[], [Dictionary(entries)])
  }

  /** The dictionary of a page with one entry is found, and nothing inside the entry is a dictionary. */
  lemma PageDictionary(cls: string)
    ensures Find(Page([Div(cls, [])]), DictionarySel) == [Hit(Dictionary([Div(cls, [])]), [])]
  {
    var d := Dictionary([Div(cls, [])]);
    var c := DictionarySel[0].subject;
    PrefixContains("dictionary", "dictionary");
    AllHoldTwo(ClassContains("dictionary"), HasAttribute("data-id"), d);
    assert CompoundMatches(c, d);
    FindOnlyChild(Page([Div(cls, [])]), DictionarySel);
    AllHoldTwo(ClassContains("dictionary"), HasAttribute("data-id"), Div(cls, []));
    assert !CompoundMatches(c, Div(cls, []));
    FindOnlyChild(d, DictionarySel);
  }

  /** The dispatch of a childless entry whose class is a single token other than the three it knows. */
  lemma UnknownEntryPanics(cfg: Config, ctx: LemmaRecord, cls: string)
    requires IsToken(cls) && cls != "pos-header" && cls != "pv-block" && cls != "idiom-block"
    ensures Apply(cfg, ctx, Hit(Div(cls, []), []), EntryH) == Outcome([], Some(Panic(EntryPanicPrefix + cls)))
  {
    EntryTokens();
    HasClassOfUnspaced(Div(cls, []), "pos-header");
    HasClassOfUnspaced(Div(cls, []), "pv-block");
    HasClassOfUnspaced(Div(cls, []), "idiom-block");
  }

  /** The class tokens the two dispatches know. */
  lemma EntryTokens()
    ensures IsToken("pos-header") && IsToken("pv-block") && IsToken("idiom-block")
    ensures IsToken("def-block") && IsToken("phrase-block")
  {
  }

  /** A page whose dictionary holds one entry that the entry matcher selects and the dispatch rejects. */
  lemma PagePanicsOnEntry(cfg: Config, cls: string)
    requires IsToken(cls) && cls != "pos-header" && cls != "pv-block" && cls != "idiom-block"
    requires Find(Dictionary([Div(cls, [])]), EntrySel(cfg.variant)) == [Hit(Div(cls, []), [])]
    ensures ParseLemmaHTML(cfg, Success(Page([Div(cls, [])]))) == Outcome([], Some(Panic(EntryPanicPrefix + cls)))
  {
    var entry := Div(cls, []);
    var d := Dictionary([entry]);
    var ctx := EmptyRecord.(language := "british");
    var panic := Outcome([], Some(Panic(EntryPanicPrefix + cls)));
    PageDictionary(cls);
    UnknownEntryPanics(cfg, ctx, cls);
    assert Enrich(cfg, ctx, [Hit(entry, [])], EntryH) == panic;
    assert LanguageFromDataId(d) == Success("british");
    assert ParseDictionary(cfg, EmptyRecord, Hit(d, [])) == panic;
    assert Enrich(cfg, EmptyRecord, [Hit(d, [])], DictionaryH) == panic;
  }

  /**
   * The current copy's entry matcher selects any div whose class starts with
   * "idiom-block", but the dispatch wants the exact token: a div of class
   * "idiom-blocks" makes the whole page panic and loses every record.
   */
  lemma CurrentEntryPanicReachable(superscript: string -> string)
    ensures ParseLemmaHTML(Config(Current, superscript), Success(Page([Div("idiom-blocks", [])])))
         == Outcome([], Some(Panic(EntryPanicPrefix + "idiom-blocks")))
  {
    CurrentSelectsIdiomBlocks();
    ExampleTokens();
    PagePanicsOnEntry(Config(Current, superscript), "idiom-blocks");
  }

  /** The two example classes are single tokens, none of them one the entry dispatch knows. */
  lemma ExampleTokens()
    ensures IsToken("idiom-blocks") && IsToken("dpos-header")
    ensures "idiom-blocks" !in {"pos-header", "pv-block", "idiom-block"}
    ensures "dpos-header" !in {"pos-header", "pv-block", "idiom-block"}
  {
  }

  lemma CurrentSelectsIdiomBlocks()
    ensures Find(Dictionary([Div("idiom-blocks", [])]), EntrySel(Current)) == [Hit(Div("idiom-blocks", []), [])]
  {
    var entry := Div("idiom-blocks", []);
    var s := EntrySel(Current);
    assert HasPrefix("idiom-blocks", "idiom-block");
    AllHoldOne(ClassPrefix("idiom-block"), entry);
    assert ComplexMatchesAt(s[2], Dictionary([entry]), 0);
    MatchesAtThree(s[0], s[1], s[2], Dictionary([entry]), 0);
    FindOnlyChild(Dictionary([entry]), s);
  }

  /**
   * The older copy's entry matcher tests substrings: a div of class
   * "dpos-header" contains both "pos-header" and "dpos-h" without carrying
   * the pos-header token, so the page panics.
   */
  lemma LegacyEntryPanicReachable(superscript: string -> string)
    ensures ParseLemmaHTML(Config(Legacy, superscript), Success(Page([Div("dpos-header", [])])))
         == Outcome([], Some(Panic(EntryPanicPrefix + "dpos-header")))
  {
    LegacySelectsDposHeader();
    ExampleTokens();
    PagePanicsOnEntry(Config(Legacy, superscript), "dpos-header");
  }

  lemma LegacySelectsDposHeader()
    ensures Find(Dictionary([Div("dpos-header", [])]), EntrySel(Legacy)) == [Hit(Div("dpos-header", []), [])]
  {
    var entry := Div("dpos-header", []);
    var s := EntrySel(Legacy);
    ContainsAt("dpos-header", "pos-header", 1);
    PrefixContains("dpos-header", "dpos-h");
    AllHoldTwo(ClassContains("pos-header"), ClassContains("dpos-h"), entry);
    assert ComplexMatchesAt(s[0], Dictionary([entry]), 0);
    MatchesAtThree(s[0], s[1], s[2], Dictionary([entry]), 0);
    FindOnlyChild(Dictionary([entry]), s);
  }

  // ---------------------------------------------------------------------------
  // A def-block inside a phrase-block is reached twice

  /** The selection among the children of a node with one child. */
  lemma ChildrenOnlyChild(p: Node, sel: Selector)
    requires p.Element? && |p.children| == 1
    ensures Children(p, sel) == if MatchesAt(sel, p, 0) then [Hit(p.children[0], [])] else []
  {
    assert p.children[1..] == [];
    assert ChildrenFrom(p, sel, 1) == [];
  }

  /** A one-token class test on the only child of `p`. */
  lemma OneAt(tag: string, token: string, p: Node)
    requires tag != "*" && p.Element? && |p.children| == 1 && p.children[0].Element?
    requires Fields(p.children[0].classAttr) == [p.children[0].classAttr]
    ensures MatchesAt(One(tag, ClassToken(token)), p, 0)
        <==> p.children[0].tag == tag && p.children[0].classAttr == token
  {
    MatchesAtOne(Simple(Compound(tag, [ClassToken(token)])), p, 0);
    AllHoldOne(ClassToken(token), p.children[0]);
  }

  /** The dsense entry test on the only child of `p`. */
  lemma DSenseEntryAt(p: Node)
    requires p.Element? && |p.children| == 1 && p.children[0].Element? && p.children[0].tag == "div"
    requires Fields(p.children[0].classAttr) == [p.children[0].classAttr]
    ensures MatchesAt(DSenseEntrySel, p, 0)
        <==> p.children[0].classAttr == "def-block" || p.children[0].classAttr == "phrase-block"
  {
    var c := p.children[0];
    MatchesAtTwo(DSenseEntrySel[0], DSenseEntrySel[1], p, 0);
    AllHoldOne(ClassToken("def-block"), c);
    AllHoldOne(ClassToken("phrase-block"), c);
  }

  /** The class attributes of the example, each a single token. */
  lemma ClassFields()
    ensures Fields("def") == ["def"] && Fields("ddef_h") == ["ddef_h"] && Fields("def-block") == ["def-block"]
    ensures Fields("phrase-body") == ["phrase-body"] && Fields("phrase-block") == ["phrase-block"]
    ensures Fields("dsense") == ["dsense"]
  {
    assert IsToken("def") && IsToken("ddef_h") && IsToken("def-block");
    assert IsToken("phrase-body") && IsToken("phrase-block") && IsToken("dsense");
    FieldsOfToken("def");
    FieldsOfToken("ddef_h");
    FieldsOfToken("def-block");
    FieldsOfToken("phrase-body");
    FieldsOfToken("phrase-block");
    FieldsOfToken("dsense");
  }

  /**
   * A dsense holding a phrase-block whose body holds a def-block with the
   * definition text `t`:
   * div.dsense > div.phrase-block > div.phrase-body > div.def-block > div.ddef_h > div.def.
   */
  function DefText(t: string): Node { Div("def", [TextNode(t)]) }
  function DDefH(t: string): Node { Div("ddef_h", [DefText(t)]) }
  function NestedDef(t: string): Node { Div("def-block", [DDefH(t)]) }
  function PhraseBody(t: string): Node { Div("phrase-body", [NestedDef(t)]) }
  function Phrase(t: string): Node { Div("phrase-block", [PhraseBody(t)]) }
  function Sense(t: string): Node { Div("dsense", [Phrase(t)]) }

  lemma BelowDef(t: string, sel: Selector)
    requires sel == DSenseEntrySel
    ensures Find(NestedDef(t), sel) == []
  {
    ClassFields();
    assert Find(TextNode(t), sel) == [];
    MatchesAtTwo(sel[0], sel[1], DefText(t), 0);
    assert !MatchesAt(sel, DefText(t), 0);
    FindOnlyChild(DefText(t), sel);
    assert Find(DefText(t), sel) == [];
    DSenseEntryAt(DDefH(t));
    assert !MatchesAt(sel, DDefH(t), 0);
    FindOnlyChild(DDefH(t), sel);
    assert Find(DDefH(t), sel) == [];
    DSenseEntryAt(NestedDef(t));
    assert !MatchesAt(sel, NestedDef(t), 0);
    FindOnlyChild(NestedDef(t), sel);
  }

  /** The dsense matcher finds the phrase-block and, below it, the def-block. */
  lemma SenseEntries(t: string)
    ensures Find(Sense(t), DSenseEntrySel) == [Hit(Phrase(t), []), Hit(NestedDef(t), [])]
  {
    ClassFields();
    var sel := DSenseEntrySel;
    BelowDef(t, sel);
    DSenseEntryAt(PhraseBody(t));
    FindOnlyChild(PhraseBody(t), sel);
    DSenseEntryAt(Phrase(t));
    FindOnlyChild(Phrase(t), sel);
    DSenseEntryAt(Sense(t));
    FindOnlyChild(Sense(t), sel);
  }

  /** The record the nested def-block yields from a context: the normalised text, no alternative form, no examples. */
  function NestedRecord(t: string, ctx: LemmaRecord): LemmaRecord {
    ctx.(definition := NormaliseDefinition(Current, t), alternative := "", examples := [])
  }

  lemma NestedDDefH(t: string)
    ensures Children(NestedDef(t), DDefHSel) == [Hit(DDefH(t), [])]
    ensures ChildrenIn([Hit(DDefH(t), [])], DefSel) == [Hit(DefText(t), [])]
    ensures ChildrenIn([Hit(DDefH(t), [])], DefInfoSel) == []
    ensures Children(NestedDef(t), DefBodySel) == []
  {
    ClassFields();
    OneAt("div", "ddef_h", NestedDef(t));
    ChildrenOnlyChild(NestedDef(t), DDefHSel);
    OneAt("div", "def", DDefH(t));
    ChildrenOnlyChild(DDefH(t), DefSel);
    OneAt("span", "def-info", DDefH(t));
    ChildrenOnlyChild(DDefH(t), DefInfoSel);
    OneAt("div", "def-body", NestedDef(t));
    ChildrenOnlyChild(NestedDef(t), DefBodySel);
  }

  lemma NestedDefBlock(cfg: Config, t: string, ctx: LemmaRecord)
    requires cfg.variant == Current
    ensures ParseDefBlock(cfg, ctx, Hit(NestedDef(t), [])) == Outcome([NestedRecord(t, ctx)], None)
  {
    NestedDDefH(t);
    assert Text([Hit(DefText(t), [])]) == t by {
      assert TextOfSeq([TextNode(t)]) == t + "";
    }
    var ddefh := Children(NestedDef(t), DDefHSel);
    assert Definition(cfg, ddefh) == Success(NormaliseDefinition(Current, t));
    assert Grammar([]) == [];
    assert AlternativeForm([]) == "";
    assert Examples([]) == [];
    ParseDefBlockFound(cfg, ctx, Hit(NestedDef(t), []));
  }

  lemma PhraseParts(t: string)
    ensures Children(Phrase(t), PhraseHeadSel) == []
    ensures ChildrenIn(Children(Phrase(t), PhraseBodySel), DefBlockSel) == [Hit(NestedDef(t), [])]
  {
    ClassFields();
    OneAt("div", "phrase-head", Phrase(t));
    ChildrenOnlyChild(Phrase(t), PhraseHeadSel);
    OneAt("div", "phrase-body", Phrase(t));
    ChildrenOnlyChild(Phrase(t), PhraseBodySel);
    OneAt("div", "def-block", PhraseBody(t));
    ChildrenOnlyChild(PhraseBody(t), DefBlockSel);
  }

  /** parsePhraseBlock on a phrase-block with no title and one def-block in its body. */
  lemma PhraseWithOneDefBlock(cfg: Config, ctx: LemmaRecord, hit: Hit, d: Hit)
    requires cfg.variant == Current
    requires Children(hit.node, PhraseHeadSel) == []
    requires ChildrenIn(Children(hit.node, PhraseBodySel), DefBlockSel) == [d]
    ensures ParsePhraseBlock(cfg, ctx, hit) == Enrich(cfg, ctx.(alternative := ""), [d], DefBlockH)
  {
    assert ChildrenIn([], PhraseTitleSel) == [];
  }

  /** One successful node: its records. */
  lemma EnrichOne(cfg: Config, ctx: LemmaRecord, a: Hit, h: Handler, r: LemmaRecord)
    requires Apply(cfg, ctx, a, h) == Outcome([r], None)
    ensures Enrich(cfg, ctx, [a], h) == Outcome([r], None)
  {
    assert [a][1..] == [];
    assert [r] + [] == [r];
  }

  lemma NestedPhrase(cfg: Config, t: string, ctx: LemmaRecord)
    requires cfg.variant == Current
    ensures ParsePhraseBlock(cfg, ctx, Hit(Phrase(t), [])) == Outcome([NestedRecord(t, ctx)], None)
  {
    PhraseParts(t);
    var c := ctx.(alternative := "");
    PhraseWithOneDefBlock(cfg, ctx, Hit(Phrase(t), []), Hit(NestedDef(t), []));
    NestedDefBlock(cfg, t, c);
    assert NestedRecord(t, c) == NestedRecord(t, ctx);
    ApplyDefBlockH(cfg, c, Hit(NestedDef(t), []));
    EnrichOne(cfg, c, Hit(NestedDef(t), []), DefBlockH, NestedRecord(t, ctx));
  }

  /** The guide word of the example sense is empty: it has no `h3.dsense_h`. */
  lemma SenseGuideWord(cfg: Config, t: string)
    ensures GuideWord(cfg, Children(Sense(t), DSenseHSel)) == ""
  {
    ClassFields();
    OneAt("h3", "dsense_h", Sense(t));
    ChildrenOnlyChild(Sense(t), DSenseHSel);
    assert FindIn([], GuidewordSel) == [] && ChildrenIn([], GuidewordSel) == [];
    assert ChildrenIn([], AnyElement) == [];
  }

  lemma DispatchPhrase(cfg: Config, ctx: LemmaRecord, hit: Hit)
    requires !HasClass(hit.node, "def-block") && HasClass(hit.node, "phrase-block")
    ensures Apply(cfg, ctx, hit, DSenseEntryH) == ParsePhraseBlock(cfg, ctx, hit)
  {
  }

  lemma ApplyDefBlockH(cfg: Config, ctx: LemmaRecord, hit: Hit)
    ensures Apply(cfg, ctx, hit, DefBlockH) == ParseDefBlock(cfg, ctx, hit)
  {
  }

  lemma DispatchDef(cfg: Config, ctx: LemmaRecord, hit: Hit)
    requires HasClass(hit.node, "def-block")
    ensures Apply(cfg, ctx, hit, DSenseEntryH) == ParseDefBlock(cfg, ctx, hit)
  {
  }

  lemma DSenseUnfold(cfg: Config, ctx: LemmaRecord, hit: Hit)
    ensures ParseDSense(cfg, ctx, hit)
         == Enrich(cfg, ctx.(guideWord := GuideWord(cfg, Children(hit.node, DSenseHSel))),
                   Find(hit.node, DSenseEntrySel), DSenseEntryH)
  {
  }

  /** Two successful nodes in a row: their records, in order. */
  lemma EnrichTwo(cfg: Config, ctx: LemmaRecord, a: Hit, b: Hit, h: Handler, r: LemmaRecord, q: LemmaRecord)
    requires Apply(cfg, ctx, a, h) == Outcome([r], None) && Apply(cfg, ctx, b, h) == Outcome([q], None)
    ensures Enrich(cfg, ctx, [a, b], h) == Outcome([r, q], None)
  {
    assert [a, b][1..] == [b];
    EnrichOne(cfg, ctx, b, h, q);
    assert [r] + [q] == [r, q];
  }

  /** The two selected nodes each yield the nested record. */
  lemma SenseApplies(cfg: Config, t: string, c: LemmaRecord)
    requires cfg.variant == Current
    ensures Apply(cfg, c, Hit(Phrase(t), []), DSenseEntryH) == Outcome([NestedRecord(t, c)], None)
    ensures Apply(cfg, c, Hit(NestedDef(t), []), DSenseEntryH) == Outcome([NestedRecord(t, c)], None)
  {
    ExampleClasses(t);
    NestedPhrase(cfg, t, c);
    NestedDefBlock(cfg, t, c);
    DispatchPhrase(cfg, c, Hit(Phrase(t), []));
    DispatchDef(cfg, c, Hit(NestedDef(t), []));
  }

  /** The phrase-block of the example is not a def-block, and the def-block is one. */
  lemma ExampleClasses(t: string)
    ensures HasClass(Phrase(t), "phrase-block") && !HasClass(Phrase(t), "def-block")
    ensures HasClass(NestedDef(t), "def-block")
  {
    EntryTokens();
    assert Unspaced("phrase-block") && Unspaced("def-block");
    HasClassOfUnspaced(Phrase(t), "phrase-block");
    HasClassOfUnspaced(Phrase(t), "def-block");
    HasClassOfUnspaced(NestedDef(t), "def-block");
  }

  /**
   * parseDSense selects def-blocks among all descendants, so a def-block in
   * the body of a phrase-block is handled once through the phrase-block and
   * once on its own: the same record comes out twice.
   */
  lemma NestedDefBlockTwice(superscript: string -> string, t: string, ctx: LemmaRecord)
    ensures var r := NestedRecord(t, ctx.(guideWord := ""));
      ParseDSense(Config(Current, superscript), ctx, Hit(Sense(t), [])) == Outcome([r, r], None)
  {
    var cfg := Config(Current, superscript);
    var c := ctx.(guideWord := "");
    DSenseUnfold(cfg, ctx, Hit(Sense(t), []));
    SenseGuideWord(cfg, t);
    SenseEntries(t);
    SenseApplies(cfg, t, c);
    EnrichTwo(cfg, c, Hit(Phrase(t), []), Hit(NestedDef(t), []), DSenseEntryH, NestedRecord(t, c), NestedRecord(t, c));
  }

  // ---------------------------------------------------------------------------
  // The dsense panic, through a form feed

  /**
   * A class attribute holding a form feed: cascadia splits it into the tokens
   * "def-block" and "x", while goquery's HasClass sees one word.
   */
  const FormFeedClass: string := "def-block\U{C}x"

  function FormFeedEntry(): Node { Div(FormFeedClass, []) }
  function FormFeedSense(): Node { Div("dsense", [FormFeedEntry()]) }

  lemma FormFeedClassTokens()
    ensures Fields(FormFeedClass) == ["def-block", "x"]
  {
    assert "def-block" + "\U{C}x" == FormFeedClass;
    FieldsOfSeparated("def-block", "\U{C}x");
    EntryTokens();
    FieldsOfToken("def-block");
    assert "\U{C}x"[1..] == "x";
    assert IsToken("x");
    FieldsOfToken("x");
  }

  lemma FormFeedEntrySelected()
    ensures Find(FormFeedSense(), DSenseEntrySel) == [Hit(FormFeedEntry(), [])]
  {
    var e := FormFeedEntry();
    FormFeedClassTokens();
    AllHoldOne(ClassToken("def-block"), e);
    assert ComplexMatchesAt(DSenseEntrySel[0], FormFeedSense(), 0);
    MatchesAtTwo(DSenseEntrySel[0], DSenseEntrySel[1], FormFeedSense(), 0);
    FindOnlyChild(FormFeedSense(), DSenseEntrySel);
    assert Find(e, DSenseEntrySel) == [];
  }

  lemma FormFeedEntryUnclassed()
    ensures !HasClass(FormFeedEntry(), "def-block") && !HasClass(FormFeedEntry(), "phrase-block")
  {
    EntryTokens();
    assert Unspaced(FormFeedClass);
    HasClassOfUnspaced(FormFeedEntry(), "def-block");
    HasClassOfUnspaced(FormFeedEntry(), "phrase-block");
    assert |FormFeedClass| == 11;
  }

  /**
   * The dsense matcher selects the div of class "def-block\fx", but neither
   * HasClass test recognises it: the dsense falls into its `default: panic`.
   */
  lemma DSensePanicReachable(cfg: Config, ctx: LemmaRecord)
    ensures ParseDSense(cfg, ctx, Hit(FormFeedSense(), []))
         == Outcome([], Some(Panic(DSenseEntryPanicPrefix + FormFeedClass)))
  {
    var c := ctx.(guideWord := GuideWord(cfg, Children(FormFeedSense(), DSenseHSel)));
    var panic := Outcome([], Some(Panic(DSenseEntryPanicPrefix + FormFeedClass)));
    DSenseUnfold(cfg, ctx, Hit(FormFeedSense(), []));
    FormFeedEntrySelected();
    FormFeedEntryUnclassed();
    DispatchUnknown(cfg, c, Hit(FormFeedEntry(), []));
    EnrichOneFails(cfg, c, Hit(FormFeedEntry(), []), DSenseEntryH);
  }

  lemma DispatchUnknown(cfg: Config, ctx: LemmaRecord, hit: Hit)
    requires hit.node.Element? && !HasClass(hit.node, "def-block") && !HasClass(hit.node, "phrase-block")
    ensures Apply(cfg, ctx, hit, DSenseEntryH) == Outcome([], Some(Panic(DSenseEntryPanicPrefix + hit.node.classAttr)))
  {
  }

  /** One failing node: its failure and no records. */
  lemma EnrichOneFails(cfg: Config, ctx: LemmaRecord, a: Hit, h: Handler)
    requires Apply(cfg, ctx, a, h).failure.Some?
    ensures Enrich(cfg, ctx, [a], h) == Outcome([], Apply(cfg, ctx, a, h).failure)
  {
  }
}
