/**
 * What both queriers need from net/http, net/url, path and fmt: a URL kept in
 * parsed form, a request, a response, the transport that turns one into the
 * other, and the path and number formatting they apply.
 */
module Web {
  import opened Wrappers
  import opened Strings

  /** A URL in parsed form: scheme, host, path and query parameters (url.Values with one value each). */
  datatype Url = Url(scheme: string, host: string, path: string, query: map<string, string>)

  /** A GET request: its URL and its header, each extra header added once. */
  datatype Request = Request(verb: string, url: Url, header: map<string, seq<string>>)

  /**
   * What the server answered: the status, the redirect target as the
   * response's Location header parses (or why it does not), and the body.
   */
  datatype Response = Response(status: int, location: Result<Url, string>, body: string)

  /** http.Client.Do: an answer, or the text of the transport error. */
  type Transport = Request -> Result<Response, string>

  const StatusOK := 200
  const StatusFound := 302

  // ---------------------------------------------------------------------------
  // fmt's %d

  function DigitChar(d: nat): char
    requires d < 10
  {
    "0123456789"[d]
  }

  function Digits(n: nat): (r: string)
    ensures r != []
    decreases n
  {
    if n < 10 then [DigitChar(n)] else Digits(n / 10) + [DigitChar(n % 10)]
  }

  /** An integer in decimal, with a leading '-' when negative. */
  function Decimal(n: int): (r: string)
    ensures r != []
  {
    if n < 0 then "-" + Digits(-n) else Digits(n)
  }

  // ---------------------------------------------------------------------------
  // path.Base

  const SlashSet: set<char> := {'/'}

  /** The part of `p` after its last '/' (all of `p` when it has none). */
  function AfterLastSlash(p: string): (r: string)
    decreases |p|
  {
    if p == [] || p[|p| - 1] == '/' then [] else AfterLastSlash(p[..|p| - 1]) + [p[|p| - 1]]
  }

  /** What AfterLastSlash keeps: a suffix of `p` with no '/', preceded by a '/' unless it is all of `p`. */
  lemma AfterLastSlashSpec(p: string)
    ensures var r := AfterLastSlash(p);
      && |r| <= |p| && r == p[|p| - |r|..]
      && '/' !in r
      && (|r| < |p| ==> p[|p| - |r| - 1] == '/')
  {
    AfterLastSlashSuffix(p);
    AfterLastSlashNoSlash(p);
    AfterLastSlashBoundary(p);
  }

  lemma {:induction false} AfterLastSlashSuffix(p: string)
    ensures var r := AfterLastSlash(p); |r| <= |p| && r == p[|p| - |r|..]
    decreases |p|
  {
    if p != [] && p[|p| - 1] != '/' {
      var q := p[..|p| - 1];
      AfterLastSlashSuffix(q);
      var r := AfterLastSlash(q);
      assert p[|p| - |r| - 1..] == q[|q| - |r|..] + [p[|p| - 1]];
    }
  }

  lemma {:induction false} AfterLastSlashNoSlash(p: string)
    ensures '/' !in AfterLastSlash(p)
    decreases |p|
  {
    if p != [] && p[|p| - 1] != '/' {
      AfterLastSlashNoSlash(p[..|p| - 1]);
    }
  }

  lemma {:induction false} AfterLastSlashBoundary(p: string)
    ensures var r := AfterLastSlash(p); |r| < |p| ==> p[|p| - |r| - 1] == '/'
    decreases |p|
  {
    if p != [] && p[|p| - 1] != '/' {
      var q := p[..|p| - 1];
      AfterLastSlashSuffix(q);
      AfterLastSlashBoundary(q);
      var r := AfterLastSlash(q);
      if |r| + 1 < |p| {
        assert p[|p| - |r| - 2] == q[|q| - |r| - 1];
      }
    }
  }

  /** path.Base: drop trailing slashes, keep what follows the last slash; "." for "", "/" for all slashes. */
  function Base(p: string): string {
    if p == "" then "."
    else
      var q := AfterLastSlash(TrimRight(p, SlashSet));
      if q == "" then "/" else q
  }

  /**
   * The base of a path that has a character other than '/' is a non-empty
   * segment without '/': the last such run of characters in the path.
   */
  lemma BaseIsLastSegment(p: string, i: nat)
    requires i < |p| && p[i] != '/'
    ensures var b := Base(p);
      && b != [] && '/' !in b
      && Contains(p, b)
  {
    var t := TrimRight(p, SlashSet);
    TrimmedKeepsSegment(p, i);
    var b := AfterLastSlash(t);
    LastSegmentOf(t);
    assert Base(p) == b;
    var k := |t| - |b|;
    assert p[k..k + |b|] == t[k..];
    ContainsAt(p, b, k);
  }

  /** Trimming the trailing slashes of a path with another character leaves a prefix ending in one. */
  lemma TrimmedKeepsSegment(p: string, i: nat)
    requires i < |p| && p[i] != '/'
    ensures var t := TrimRight(p, SlashSet);
      t != [] && t[|t| - 1] != '/' && |t| <= |p| && t == p[..|t|]
  {
    TrimRightSpec(p, SlashSet);
    assert p[i] !in SlashSet;
  }

  /** A path ending in a character other than '/' ends in a non-empty segment. */
  lemma LastSegmentOf(t: string)
    requires t != [] && t[|t| - 1] != '/'
    ensures var b := AfterLastSlash(t);
      b != [] && '/' !in b && |b| <= |t| && b == t[|t| - |b|..]
  {
    AfterLastSlashSpec(t);
  }

  lemma {:induction false} AfterLastSlashOfWord(pre: string, w: string)
    requires '/' !in w
    ensures AfterLastSlash(pre + "/" + w) == w
    decreases |w|
  {
    var p := pre + "/" + w;
    if w != [] {
      assert p[..|p| - 1] == pre + "/" + w[..|w| - 1];
      var v := w[..|w| - 1];
      assert '/' !in v by {
        forall j | 0 <= j < |v| ensures v[j] != '/' { assert v[j] == w[j]; }
      }
      AfterLastSlashOfWord(pre, w[..|w| - 1]);
      assert w[..|w| - 1] + [w[|w| - 1]] == w;
    }
  }

  /** The base of a path ending in a segment, with or without one trailing slash, is that segment. */
  lemma BaseOfSegment(pre: string, w: string)
    requires w != "" && '/' !in w
    ensures Base(pre + "/" + w) == w
    ensures Base(pre + "/" + w + "/") == w
  {
    var p := pre + "/" + w;
    assert p[|p| - 1] == w[|w| - 1];
    assert TrimRight(p, SlashSet) == p;
    assert (p + "/")[..|p|] == p;
    assert TrimRight(p + "/", SlashSet) == p;
    AfterLastSlashOfWord(pre, w);
  }

  lemma BaseOfLemmaPage()
    ensures Base("/dictionary/english/imhere") == "imhere"
  {
    assert "/dictionary/english/imhere" == "/dictionary/english" + "/" + "imhere";
    BaseOfSegment("/dictionary/english", "imhere");
  }

  lemma BaseOfDictionaryRoot()
    ensures Base("/dictionary/english/") == "english"
  {
    assert "/dictionary/english/" == "/dictionary" + "/" + "english" + "/";
    BaseOfSegment("/dictionary", "english");
  }

  // ---------------------------------------------------------------------------
  // path.Join, for the rooted paths the queriers build

  /** The '/'-separated segments of a path ("/a//b" has "", "a", "", "b"). */
  function Segments(p: string): (r: seq<string>)
    ensures r != []
  {
    if p == [] then [""]
    else
      var rest := Segments(p[1..]);
      if p[0] == '/' then [""] + rest else [[p[0]] + rest[0]] + rest[1..]
  }

  lemma {:induction false} SegmentsOfWord(w: string)
    requires '/' !in w
    ensures Segments(w) == [w]
  {
    if w != [] {
      assert '/' !in w[1..] by {
        forall j | 0 <= j < |w[1..]| ensures w[1..][j] != '/' { assert w[1..][j] == w[j + 1]; }
      }
      SegmentsOfWord(w[1..]);
      assert [w[0]] + w[1..] == w;
    }
  }

  lemma {:induction false} SegmentsAppend(a: string, b: string)
    ensures Segments(a + "/" + b) == Segments(a) + Segments(b)
  {
    if a == [] {
      assert ("" + "/" + b)[1..] == b;
    } else {
      assert (a + "/" + b)[1..] == a[1..] + "/" + b;
      SegmentsAppend(a[1..], b);
    }
  }

  /**
   * Clean's lexical processing of the segments of a rooted path: empty and "."
   * segments vanish, ".." removes the segment before it and stays at the root.
   */
  function Resolve(segments: seq<string>, kept: seq<string>): seq<string>
    decreases |segments|
  {
    if segments == [] then kept
    else
      var s := segments[0];
      if s == "" || s == "." then Resolve(segments[1..], kept)
      else if s == ".." then Resolve(segments[1..], if kept == [] then [] else kept[..|kept| - 1])
      else Resolve(segments[1..], kept + [s])
  }

  /** path.Clean of a path that starts with '/'. */
  function CleanRooted(p: string): (r: string)
    ensures r != [] && r[0] == '/'
  {
    "/" + Join(Resolve(Segments(p), []), "/")
  }

  /** path.Join(root, elem) for a rooted, non-empty first element. */
  function JoinPath(root: string, elem: string): string {
    CleanRooted(root + "/" + elem)
  }

  /** A path segment that Clean leaves alone. */
  predicate PlainSegment(w: string) {
    w != "" && w != "." && w != ".." && '/' !in w
  }

  lemma SegmentsUnderDirectory(a: string, b: string, id: string)
    requires PlainSegment(a) && PlainSegment(b)
    ensures Segments("/" + a + "/" + b + "/" + "/" + id) == ["", a, b, ""] + Segments(id)
  {
    assert "/" + a + "/" + b + "/" + "/" + id == "" + "/" + (a + "/" + (b + "/" + ("" + "/" + id)));
    SegmentsAppend("", a + "/" + (b + "/" + ("" + "/" + id)));
    SegmentsAppend(a, b + "/" + ("" + "/" + id));
    SegmentsAppend(b, "" + "/" + id);
    SegmentsAppend("", id);
    SegmentsOfWord(a);
    SegmentsOfWord(b);
  }

  lemma ResolvePush(w: string, rest: seq<string>, kept: seq<string>)
    requires PlainSegment(w)
    ensures Resolve([w] + rest, kept) == Resolve(rest, kept + [w])
  {
    assert ([w] + rest)[1..] == rest;
  }

  lemma ResolveSkip(rest: seq<string>, kept: seq<string>)
    ensures Resolve([""] + rest, kept) == Resolve(rest, kept)
  {
    assert ([""] + rest)[1..] == rest;
  }

  lemma ResolveUnderDirectory(a: string, b: string, id: string)
    requires PlainSegment(a) && PlainSegment(b)
    ensures Resolve(Segments("/" + a + "/" + b + "/" + "/" + id), []) == Resolve(Segments(id), [a, b])
  {
    SegmentsUnderDirectory(a, b, id);
    ResolveSkip([a, b, ""] + Segments(id), []);
    assert [""] + ([a, b, ""] + Segments(id)) == ["", a, b, ""] + Segments(id);
    ResolvePush(a, [b, ""] + Segments(id), []);
    assert [a] + ([b, ""] + Segments(id)) == [a, b, ""] + Segments(id);
    assert [] + [a] == [a] && [a] + [b] == [a, b];
    ResolvePush(b, [""] + Segments(id), [a]);
    assert [b] + ([""] + Segments(id)) == [b, ""] + Segments(id);
    ResolveSkip(Segments(id), [a, b]);
  }

  /**
   * Joining a plain segment to a two-segment directory such as
   * "/dictionary/english/" appends it; joining the empty string drops the
   * directory's trailing slash.
   */
  lemma JoinUnderDirectory(a: string, b: string, id: string)
    requires PlainSegment(a) && PlainSegment(b)
    ensures PlainSegment(id) ==> JoinPath("/" + a + "/" + b + "/", id) == "/" + a + "/" + b + "/" + id
    ensures id == "" ==> JoinPath("/" + a + "/" + b + "/", id) == "/" + a + "/" + b
  {
    ResolveUnderDirectory(a, b, id);
    assert "/" + a + "/" + b + "/" + "/" + id == ("/" + a + "/" + b + "/") + "/" + id;
    if PlainSegment(id) {
      ResolvePlainId(a, b, id);
      JoinThree(a, b, id);
    } else if id == "" {
      ResolveSkip([], [a, b]);
      assert [""] + [] == Segments(id);
      assert [a, b][1..] == [b];
      assert Join([a, b], "/") == a + "/" + b;
    }
  }

  lemma ResolvePlainId(a: string, b: string, id: string)
    requires PlainSegment(id)
    ensures Resolve(Segments(id), [a, b]) == [a, b, id]
  {
    SegmentsOfWord(id);
    ResolvePush(id, [], [a, b]);
    assert [id] + [] == [id] && [a, b] + [id] == [a, b, id];
  }

  lemma JoinThree(a: string, b: string, c: string)
    ensures Join([a, b, c], "/") == a + "/" + b + "/" + c
  {
    assert [a, b, c][1..] == [b, c] && [b, c][1..] == [c];
    assert Join([c], "/") == c;
    assert Join([b, c], "/") == b + "/" + c;
    assert Join([a, b, c], "/") == a + "/" + (b + "/" + c);
  }
}
