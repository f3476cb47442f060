/**
 * The spelling-suggestion extractor: when a search has no exact entry the
 * dictionary answers with a page listing close words, and this reads them.
 */
module SuggestionParser {
  import opened Wrappers
  import opened Strings
  import opened Dom
  import opened Errors

  /** `h1 ~ ul.hul-u`: a suggestion list is a `ul.hul-u` that follows the page heading. */
  const ListSel: Selector := [PrecededBy(Compound("h1", []), Compound("ul", [ClassToken("hul-u")]))]

  /** `li`, applied to the children of each list. */
  const ItemSel: Selector := [Simple(Compound("li", []))]

  const ParsePagePrefix := "can not parse page: "
  const NoSuggestions := "no suggestions found"

  /** Every list item selected on the page, in document order. */
  function Items(doc: Node): seq<Hit> {
    ChildrenIn(Find(doc, ListSel), ItemSel)
  }

  /** The Map over the items: each item's text with surrounding white space removed. */
  function Suggestions(doc: Node): (r: seq<string>)
    ensures |r| == |Items(doc)|
  {
    var items := Items(doc);
    seq(|items|, i requires 0 <= i < |items| => TrimSpace(TextOf(items[i].node)))
  }

  /**
   * ParseSuggestionHTML. `page` is what building the document gave: the tree,
   * or the reason it could not be built.
   */
  function ParseSuggestionHTML(page: Result<Node, string>): (r: Result<seq<string>, Error>)
    ensures page.Failure? ==> r == Failure(Wrapped(ParsePagePrefix, Plain(page.error)))
    ensures page.Success? && r.Success? ==> r.value == Suggestions(page.value) && r.value != []
    ensures page.Success? && r.Failure? ==> r.error == Plain(NoSuggestions) && Suggestions(page.value) == []
  {
    match page
    case Failure(cause) => Failure(Wrapped(ParsePagePrefix, Plain(cause)))
    case Success(doc) =>
      var suggestions := Suggestions(doc);
      if |suggestions| == 0 then Failure(Plain(NoSuggestions)) else Success(suggestions)
  }

  // ---------------------------------------------------------------------------
  // What a suggestion is

  lemma {:induction false} ChildrenInMember(hs: seq<Hit>, sel: Selector, h: Hit)
    requires h in ChildrenIn(hs, sel)
    ensures exists g :: g in hs && h in Children(g.node, sel)
  {
    if h !in Children(hs[0].node, sel) {
      ChildrenInMember(hs[1..], sel, h);
      var g :| g in hs[1..] && h in Children(g.node, sel);
      assert g in hs;
    }
  }

  /** A suggestion list is an `ul` element carrying the class `hul-u`. */
  lemma ListIsHulU(doc: Node, l: Hit)
    requires l in Find(doc, ListSel)
    ensures l.node.Element? && l.node.tag == "ul" && HasClassToken(l.node, "hul-u")
  {
    FindSubjects(doc, ListSel);
    assert SubjectMatches(ListSel, l.node);
    assert !SubjectMatches(ListSel[1..], l.node);
    assert CompoundMatches(Compound("ul", [ClassToken("hul-u")]), l.node);
    assert Holds(ClassToken("hul-u"), l.node);
  }

  /** Every selected item is an `li` child of a selected suggestion list. */
  lemma ItemIsListChild(doc: Node, h: Hit)
    requires h in Items(doc)
    ensures exists l :: (l in Find(doc, ListSel) && l.node.Element? && l.node.tag == "ul"
                         && HasClassToken(l.node, "hul-u") && h.node in l.node.children)
    ensures h.node.Element? && h.node.tag == "li"
  {
    ChildrenInMember(Find(doc, ListSel), ItemSel, h);
    var l :| l in Find(doc, ListSel) && h in Children(l.node, ItemSel);
    ListIsHulU(doc, l);
    ChildrenFromAreChildren(l.node, ItemSel, 0);
    assert SubjectMatches(ItemSel, h.node);
    assert !SubjectMatches(ItemSel[1..], h.node);
  }

  /**
   * Every suggestion is the trimmed text of an `li` child of a `ul.hul-u` list
   * that follows an `h1`, and has no white space at either end.
   */
  lemma SuggestionIsTrimmedItem(doc: Node, i: nat)
    requires i < |Suggestions(doc)|
    ensures var s := Suggestions(doc)[i];
      && Items(doc)[i].node.Element? && Items(doc)[i].node.tag == "li"
      && s == TrimSpace(TextOf(Items(doc)[i].node))
      && (exists l :: l in Find(doc, ListSel) && HasClassToken(l.node, "hul-u") && Items(doc)[i].node in l.node.children)
      && (s == [] || (s[0] !in UnicodeSpaces && s[|s| - 1] !in UnicodeSpaces))
  {
    ItemIsListChild(doc, Items(doc)[i]);
    TrimSpec(TextOf(Items(doc)[i].node), UnicodeSpaces);
  }
}
