/**
 * A parsed HTML document as a value, and the selector queries the parsers run
 * on it: goquery's FindMatcher, ChildrenMatcher, Children, Next, First and Text
 * over compiled cascadia selectors.
 */
module Dom {
  import opened Wrappers
  import opened Strings

  /**
   * An element or a text node. The `class` attribute is kept apart from the
   * other attributes; an element without one has `classAttr == ""`, which
   * selects exactly like an absent attribute because every selector argument
   * used by the parsers is non-empty.
   */
  datatype Node =
    | Element(tag: string, classAttr: string, attrs: map<string, string>, children: seq<Node>)
    | TextNode(text: string)

  /** The attribute tests of a compound selector. */
  datatype Condition =
    | ClassToken(token: string)      // .x         x is one of the whitespace-separated class tokens
    | ClassPrefix(prefix: string)    // [class^=x] x is a prefix of the whole attribute
    | ClassContains(infix: string)   // [class*=x] x occurs somewhere in the attribute
    | ClassEquals(value: string)     // [class=x]  the attribute is exactly x
    | HasAttribute(name: string)     // [name]     a non-class attribute is present

  /** A tag name ("*" for any) with attribute tests, as in `div[class*="dictionary"][data-id]`. */
  datatype Compound = Compound(tag: string, conditions: seq<Condition>)

  /** The combinators the parsers use. */
  datatype Complex =
    | Simple(subject: Compound)                       // E
    | ChildOf(parent: Compound, subject: Compound)    // P > E
    | PrecededBy(sibling: Compound, subject: Compound) // S ~ E

  /** A selector group `A, B, …`: a node is selected when any member selects it. */
  type Selector = seq<Complex>

  /** A selected node together with its following siblings (what goquery's Next looks at). */
  datatype Hit = Hit(node: Node, following: seq<Node>)

  /** cascadia's `.x`: `token` is one of the class tokens, separated by tab, newline, form feed, carriage return or space. */
  predicate HasClassToken(n: Node, token: string) {
    n.Element? && token in Fields(n.classAttr)
  }

  /** The class attribute as goquery's HasClass reads it: tab, carriage return and newline become spaces, a form feed stays. */
  function ClassSpaced(s: string): string {
    seq(|s|, i requires 0 <= i < |s| => if s[i] == '\t' || s[i] == '\r' || s[i] == '\n' then ' ' else s[i])
  }

  /**
   * goquery's Selection.HasClass on one node: the attribute, padded with a
   * space at each end and spaced out, contains `token` between two spaces.
   * An element without a class attribute reads as "".
   */
  predicate HasClass(n: Node, token: string) {
    n.Element? && Contains(ClassSpaced(" " + n.classAttr + " "), " " + token + " ")
  }

  /** No character of `w` is one that goquery's HasClass reads as a space. */
  predicate Unspaced(w: string) {
    forall i :: 0 <= i < |w| ==> w[i] != ' ' && w[i] != '\t' && w[i] != '\r' && w[i] != '\n'
  }

  lemma ClassSpacedAppend(a: string, b: string)
    ensures ClassSpaced(a + b) == ClassSpaced(a) + ClassSpaced(b)
  {
  }

  /** A class attribute with no space-like character: HasClass holds for exactly the attribute itself. */
  lemma HasClassOfUnspaced(n: Node, t: string)
    requires n.Element? && Unspaced(n.classAttr) && IsToken(t)
    ensures HasClass(n, t) <==> n.classAttr == t
  {
    var w := n.classAttr;
    var p := ClassSpaced(" " + w + " ");
    var x := " " + t + " ";
    assert p == " " + w + " ";
    if w == t {
      assert p[..|x|] == x;
    }
    if HasClass(n, t) {
      var k := ContainsWitness(p, x);
      assert p[k] == x[0] == ' ';
      assert k == 0 || k == |w| + 1;
      assert k == 0;
      assert p[|t| + 1] == x[|t| + 1] == ' ';
      assert |t| == |w|;
      assert w == p[1..|w| + 1] == x[1..|t| + 1] == t;
    }
  }

  /**
   * Without a form feed in the attribute, every cascadia class token is one
   * goquery's HasClass sees too; only a form feed separates tokens for the
   * selector and not for HasClass.
   */
  lemma FormFeedOrHasClass(n: Node, t: string)
    ensures HasClassToken(n, t) ==> HasClass(n, t) || '\U{C}' in n.classAttr
  {
    if HasClassToken(n, t) && '\U{C}' !in n.classAttr {
      TokenSpaced(n.classAttr, t);
    }
  }

  lemma {:induction false} TokenSpaced(s: string, t: string)
    requires '\U{C}' !in s && t in Fields(s)
    ensures Contains(ClassSpaced(" " + s + " "), " " + t + " ")
    decreases |s|
  {
    var x := " " + t + " ";
    assert s != [];
    if IsAsciiSpace(s[0]) {
      TokenSpaced(s[1..], t);
      SpacedSkip(s);
      ContainsSuffix(" ", ClassSpaced(" " + s[1..] + " "), x);
    } else {
      var n := WordLength(s);
      WordLengthSpec(s);
      assert Fields(s) == [s[..n]] + Fields(s[n..]);
      SpacedWord(s, n);
      if t != s[..n] {
        assert n < |s|;
        assert s[n..][1..] == s[n + 1..];
        assert Fields(s[n..]) == Fields(s[n + 1..]);
        TokenSpaced(s[n + 1..], t);
        ContainsSuffix(ClassSpaced(" " + s[..n]), ClassSpaced(" " + s[n + 1..] + " "), x);
      }
    }
  }

  /** A leading separator other than a form feed reads as one more space. */
  lemma SpacedSkip(s: string)
    requires s != [] && IsAsciiSpace(s[0]) && s[0] != '\U{C}'
    ensures ClassSpaced(" " + s + " ") == " " + ClassSpaced(" " + s[1..] + " ")
  {
    ClassSpacedAppend(" " + s[1..], " ");
    ClassSpacedAppend(" " + [s[0]] + s[1..], " ");
    assert " " + s + " " == [' ', s[0]] + (s[1..] + " ");
  }

  /** A leading word of `n` characters, followed by a separator other than a form feed or by the end. */
  lemma SpacedWord(s: string, n: nat)
    requires 0 < n <= |s| && '\U{C}' !in s
    requires forall i :: 0 <= i < n ==> !IsAsciiSpace(s[i])
    requires n < |s| ==> IsAsciiSpace(s[n])
    ensures HasPrefix(ClassSpaced(" " + s + " "), " " + s[..n] + " ")
    ensures n < |s| ==> ClassSpaced(" " + s + " ") == ClassSpaced(" " + s[..n]) + ClassSpaced(" " + s[n + 1..] + " ")
  {
    var p := ClassSpaced(" " + s + " ");
    var x := " " + s[..n] + " ";
    assert ClassSpaced(s[..n]) == s[..n];
    if n == |s| {
      assert s[..n] == s;
      ClassSpacedAppend(" " + s, " ");
      ClassSpacedAppend(" ", s);
      assert p == x;
    } else {
      assert s[n] != '\U{C}';
      assert s == s[..n] + [s[n]] + s[n + 1..];
      assert " " + s + " " == (" " + s[..n]) + ([s[n]] + (s[n + 1..] + " "));
      ClassSpacedAppend(" " + s[..n], [s[n]] + (s[n + 1..] + " "));
      ClassSpacedAppend([s[n]], s[n + 1..] + " ");
      ClassSpacedAppend(" ", s[n + 1..] + " ");
      ClassSpacedAppend(" ", s[..n]);
      assert " " + s[n + 1..] + " " == " " + (s[n + 1..] + " ");
      assert p[..|x|] == x;
    }
  }

  predicate Holds(c: Condition, n: Node)
    requires n.Element?
  {
    match c
    case ClassToken(t) => t in Fields(n.classAttr)
    case ClassPrefix(p) => HasPrefix(n.classAttr, p)
    case ClassContains(x) => Contains(n.classAttr, x)
    case ClassEquals(v) => n.classAttr == v
    case HasAttribute(name) => name in n.attrs
  }

  predicate AllHold(cs: seq<Condition>, n: Node)
    requires n.Element?
  {
    cs == [] || (Holds(cs[0], n) && AllHold(cs[1..], n))
  }

  predicate CompoundMatches(c: Compound, n: Node) {
    n.Element? && (c.tag == "*" || n.tag == c.tag) && AllHold(c.conditions, n)
  }

  /** Some node of `ns` matches `c` (the left side of `~`). */
  predicate AnyMatches(c: Compound, ns: seq<Node>) {
    ns != [] && (CompoundMatches(c, ns[0]) || AnyMatches(c, ns[1..]))
  }

  /** The node the selector group's subject would have to match. */
  predicate SubjectMatches(sel: Selector, n: Node) {
    sel != [] && (CompoundMatches(sel[0].subject, n) || SubjectMatches(sel[1..], n))
  }

  predicate ComplexMatchesAt(x: Complex, parent: Node, i: nat)
    requires parent.Element? && i < |parent.children|
  {
    var n := parent.children[i];
    match x
    case Simple(c) => CompoundMatches(c, n)
    case ChildOf(p, c) => CompoundMatches(p, parent) && CompoundMatches(c, n)
    case PrecededBy(s, c) => CompoundMatches(c, n) && AnyMatches(s, parent.children[..i])
  }

  /** The `i`-th child of `parent` is selected by `sel`. */
  predicate MatchesAt(sel: Selector, parent: Node, i: nat)
    requires parent.Element? && i < |parent.children|
  {
    sel != [] && (ComplexMatchesAt(sel[0], parent, i) || MatchesAt(sel[1..], parent, i))
  }

  /** Only elements are ever selected, and a selected node matches the subject of one member of the group. */
  lemma {:induction false} MatchesAtSubject(sel: Selector, parent: Node, i: nat)
    requires parent.Element? && i < |parent.children| && MatchesAt(sel, parent, i)
    ensures SubjectMatches(sel, parent.children[i]) && parent.children[i].Element?
  {
    if !ComplexMatchesAt(sel[0], parent, i) {
      MatchesAtSubject(sel[1..], parent, i);
    }
  }

  // ---------------------------------------------------------------------------
  // Sizes, used to show that the extraction walk terminates

  function Size(n: Node): (r: nat)
    ensures r >= 1
  {
    match n
    case TextNode(_) => 1
    case Element(_, _, _, cs) => 1 + SizeSeq(cs)
  }

  function SizeSeq(ns: seq<Node>): nat {
    if ns == [] then 0 else Size(ns[0]) + SizeSeq(ns[1..])
  }

  function HitSize(h: Hit): nat {
    Size(h.node) + SizeSeq(h.following)
  }

  /** The largest size in a selection (0 for the empty one): the walk's termination measure. */
  function MaxHitSize(hs: seq<Hit>): nat {
    if hs == [] then 0
    else if HitSize(hs[0]) >= MaxHitSize(hs[1..]) then HitSize(hs[0])
    else MaxHitSize(hs[1..])
  }

  lemma {:induction false} MaxHitSizeBelow(hs: seq<Hit>, b: nat)
    requires b > 0 && forall h :: h in hs ==> HitSize(h) < b
    ensures MaxHitSize(hs) < b
  {
    if hs != [] {
      MaxHitSizeBelow(hs[1..], b);
    }
  }

  lemma {:induction false} MaxHitSizeAtLeast(hs: seq<Hit>, i: nat)
    requires i < |hs|
    ensures HitSize(hs[i]) <= MaxHitSize(hs)
  {
    if i > 0 {
      MaxHitSizeAtLeast(hs[1..], i - 1);
    }
  }

  lemma SizeSeqAt(ns: seq<Node>, i: nat)
    requires i < |ns|
    ensures SizeSeq(ns[i..]) == Size(ns[i]) + SizeSeq(ns[i + 1..])
  {
    assert ns[i..][1..] == ns[i + 1..];
  }

  // ---------------------------------------------------------------------------
  // Queries

  /** FindMatcher on one node: every selected descendant (not the node itself), in document order. */
  function Find(n: Node, sel: Selector): seq<Hit>
    decreases n, 1
  {
    match n
    case TextNode(_) => []
    case Element(_, _, _, cs) => FindFrom(n, sel, 0)
  }

  function FindFrom(p: Node, sel: Selector, i: nat): seq<Hit>
    requires p.Element? && i <= |p.children|
    decreases p, 0, |p.children| - i
  {
    var cs := p.children;
    if i == |cs| then []
    else
      (if MatchesAt(sel, p, i) then [Hit(cs[i], cs[i + 1..])] else [])
      + Find(cs[i], sel)
      + FindFrom(p, sel, i + 1)
  }

  /** ChildrenMatcher on one node: the selected children, in order. */
  function Children(n: Node, sel: Selector): seq<Hit> {
    match n
    case TextNode(_) => []
    case Element(_, _, _, cs) => ChildrenFrom(n, sel, 0)
  }

  function ChildrenFrom(p: Node, sel: Selector, i: nat): seq<Hit>
    requires p.Element? && i <= |p.children|
    decreases |p.children| - i
  {
    var cs := p.children;
    if i == |cs| then []
    else
      (if MatchesAt(sel, p, i) then [Hit(cs[i], cs[i + 1..])] else [])
      + ChildrenFrom(p, sel, i + 1)
  }

  /** FindMatcher on a selection. */
  function FindIn(hs: seq<Hit>, sel: Selector): seq<Hit> {
    if hs == [] then [] else Find(hs[0].node, sel) + FindIn(hs[1..], sel)
  }

  /** ChildrenMatcher on a selection. */
  function ChildrenIn(hs: seq<Hit>, sel: Selector): seq<Hit> {
    if hs == [] then [] else Children(hs[0].node, sel) + ChildrenIn(hs[1..], sel)
  }

  /** The universal selector, for goquery's Children(): every element child. */
  const AnyElement: Selector := [Simple(Compound("*", []))]

  /** First(): the first node of the selection, if any. */
  function First(hs: seq<Hit>): (r: seq<Hit>)
    ensures |r| <= 1 && (hs != [] ==> r == [hs[0]])
  {
    if hs == [] then [] else [hs[0]]
  }

  /** Next() on one node: its immediately following element sibling, if any. */
  function Next(h: Hit): seq<Hit> {
    NextFrom(h.following)
  }

  function NextFrom(fs: seq<Node>): seq<Hit> {
    if fs == [] then []
    else if fs[0].Element? then [Hit(fs[0], fs[1..])]
    else NextFrom(fs[1..])
  }

  /** Text(): the concatenated text of every descendant text node. */
  function TextOf(n: Node): string {
    match n
    case TextNode(s) => s
    case Element(_, _, _, cs) => TextOfSeq(cs)
  }

  function TextOfSeq(ns: seq<Node>): string {
    if ns == [] then "" else TextOf(ns[0]) + TextOfSeq(ns[1..])
  }

  /** Text() of a selection: the texts of its nodes, concatenated. */
  function Text(hs: seq<Hit>): string {
    if hs == [] then "" else TextOf(hs[0].node) + Text(hs[1..])
  }

  // ---------------------------------------------------------------------------
  // What the queries select

  lemma {:induction false} FindSubjects(n: Node, sel: Selector)
    ensures forall h :: h in Find(n, sel) ==> SubjectMatches(sel, h.node)
    decreases n, 1
  {
    if n.Element? {
      FindFromSubjects(n, sel, 0);
    }
  }

  lemma {:induction false} FindFromSubjects(p: Node, sel: Selector, i: nat)
    requires p.Element? && i <= |p.children|
    ensures forall h :: h in FindFrom(p, sel, i) ==> SubjectMatches(sel, h.node)
    decreases p, 0, |p.children| - i
  {
    if i < |p.children| {
      if MatchesAt(sel, p, i) {
        MatchesAtSubject(sel, p, i);
      }
      FindSubjects(p.children[i], sel);
      FindFromSubjects(p, sel, i + 1);
    }
  }

  lemma {:induction false} ChildrenFromAreChildren(p: Node, sel: Selector, i: nat)
    requires p.Element? && i <= |p.children|
    ensures forall h :: h in ChildrenFrom(p, sel, i) ==> h.node in p.children && SubjectMatches(sel, h.node)
    decreases |p.children| - i
  {
    if i < |p.children| {
      if MatchesAt(sel, p, i) {
        MatchesAtSubject(sel, p, i);
      }
      ChildrenFromAreChildren(p, sel, i + 1);
    }
  }

  // ---------------------------------------------------------------------------
  // Bounds on the sizes of what the queries select

  lemma {:induction false} FindBound(n: Node, sel: Selector)
    ensures forall h :: h in Find(n, sel) ==> HitSize(h) < Size(n)
    decreases n, 1
  {
    if n.Element? {
      assert n.children[0..] == n.children;
      FindFromBound(n, sel, 0);
    }
  }

  lemma {:induction false} FindFromBound(p: Node, sel: Selector, i: nat)
    requires p.Element? && i <= |p.children|
    ensures forall h :: h in FindFrom(p, sel, i) ==> HitSize(h) <= SizeSeq(p.children[i..])
    decreases p, 0, |p.children| - i
  {
    if i < |p.children| {
      SizeSeqAt(p.children, i);
      FindBound(p.children[i], sel);
      FindFromBound(p, sel, i + 1);
    }
  }

  lemma {:induction false} ChildrenFromBound(p: Node, sel: Selector, i: nat)
    requires p.Element? && i <= |p.children|
    ensures forall h :: h in ChildrenFrom(p, sel, i) ==> HitSize(h) <= SizeSeq(p.children[i..])
    decreases |p.children| - i
  {
    if i < |p.children| {
      SizeSeqAt(p.children, i);
      ChildrenFromBound(p, sel, i + 1);
    }
  }

  lemma {:induction false} NextFromBound(fs: seq<Node>)
    ensures forall g :: g in NextFrom(fs) ==> HitSize(g) <= SizeSeq(fs)
  {
    if fs != [] && !fs[0].Element? {
      NextFromBound(fs[1..]);
    }
  }

  /** What FindMatcher selects under a node is smaller than the node with its following siblings. */
  lemma FindWithin(h: Hit, sel: Selector)
    ensures MaxHitSize(Find(h.node, sel)) < HitSize(h)
  {
    FindBound(h.node, sel);
    MaxHitSizeBelow(Find(h.node, sel), HitSize(h));
  }

  lemma ChildrenWithin(h: Hit, sel: Selector)
    ensures MaxHitSize(Children(h.node, sel)) < HitSize(h)
  {
    if h.node.Element? {
      assert h.node.children[0..] == h.node.children;
      ChildrenFromBound(h.node, sel, 0);
    }
    MaxHitSizeBelow(Children(h.node, sel), HitSize(h));
  }

  lemma NextWithin(h: Hit)
    ensures MaxHitSize(Next(h)) < HitSize(h)
  {
    NextFromBound(h.following);
    MaxHitSizeBelow(Next(h), HitSize(h));
  }

  lemma {:induction false} ChildrenInWithin(hs: seq<Hit>, sel: Selector)
    ensures MaxHitSize(ChildrenIn(hs, sel)) <= MaxHitSize(hs)
  {
    if hs != [] {
      ChildrenWithin(hs[0], sel);
      ChildrenInWithin(hs[1..], sel);
      MaxHitSizeAppend(Children(hs[0].node, sel), ChildrenIn(hs[1..], sel));
    }
  }

  lemma {:induction false} MaxHitSizeAppend(a: seq<Hit>, b: seq<Hit>)
    ensures MaxHitSize(a + b) == if MaxHitSize(a) >= MaxHitSize(b) then MaxHitSize(a) else MaxHitSize(b)
  {
    if a != [] {
      assert (a + b)[1..] == a[1..] + b;
      MaxHitSizeAppend(a[1..], b);
    } else {
      assert a + b == b;
    }
  }
}
