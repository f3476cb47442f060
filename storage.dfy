/**
 * The cache store behind the caching querier: a key-value table of query and
 * lemma answers, keyed by a type byte and the UTF-8 bytes of the query or the
 * lemma id, with answers that carry an error expiring after a day.
 */
module QuerierStorage {
  import opened Wrappers
  import opened Errors
  import opened LemmaRecords
  import opened QuerierInterface

  newtype byte = b: int | 0 <= b < 256

  // ---------------------------------------------------------------------------
  // []byte(s): the UTF-8 encoding of a string

  function EncodeChar(c: char): (r: seq<byte>)
    ensures 1 <= |r| <= 4
  {
    var n := c as int;
    if n < 0x80 then [n as byte]
    else if n < 0x800 then [(0xC0 + n / 64) as byte, (0x80 + n % 64) as byte]
    else if n < 0x1_0000 then [(0xE0 + n / 4096) as byte, (0x80 + (n / 64) % 64) as byte, (0x80 + n % 64) as byte]
    else [(0xF0 + n / 262144) as byte, (0x80 + (n / 4096) % 64) as byte, (0x80 + (n / 64) % 64) as byte, (0x80 + n % 64) as byte]
  }

  function Utf8(s: string): seq<byte> {
    if s == [] then [] else EncodeChar(s[0]) + Utf8(s[1..])
  }

  /** How many bytes a sequence starting with `lead` encodes one character in. */
  function SequenceLength(lead: byte): nat {
    if lead < 0x80 then 1 else if lead < 0xE0 then 2 else if lead < 0xF0 then 3 else 4
  }

  /** The code point of one encoded character. */
  function DecodeChar(bs: seq<byte>): int
    requires bs != [] && |bs| == SequenceLength(bs[0])
  {
    if |bs| == 1 then bs[0] as int
    else if |bs| == 2 then (bs[0] as int - 0xC0) * 64 + (bs[1] as int - 0x80)
    else if |bs| == 3 then (bs[0] as int - 0xE0) * 4096 + (bs[1] as int - 0x80) * 64 + (bs[2] as int - 0x80)
    else (bs[0] as int - 0xF0) * 262144 + (bs[1] as int - 0x80) * 4096 + (bs[2] as int - 0x80) * 64 + (bs[3] as int - 0x80)
  }

  lemma SplitTwo(n: int)
    requires 0x80 <= n < 0x800
    ensures 2 <= n / 64 < 32 && n == (n / 64) * 64 + n % 64
  {
  }

  lemma SplitThree(n: int)
    requires 0x800 <= n < 0x1_0000
    ensures 0 <= n / 4096 < 16 && n == (n / 4096) * 4096 + ((n / 64) % 64) * 64 + n % 64
  {
    assert n / 64 == (n / 4096) * 64 + (n / 64) % 64;
  }

  lemma SplitFour(n: int)
    requires 0x1_0000 <= n < 0x11_0000
    ensures 0 <= n / 262144 < 5
    ensures n == (n / 262144) * 262144 + ((n / 4096) % 64) * 4096 + ((n / 64) % 64) * 64 + n % 64
  {
    assert n / 4096 == (n / 262144) * 64 + (n / 4096) % 64;
    assert n / 64 == (n / 4096) * 64 + (n / 64) % 64;
  }

  /** The lead byte tells how long a character's encoding is, and the encoding decodes to the character. */
  lemma EncodeCharDecodes(c: char)
    ensures SequenceLength(EncodeChar(c)[0]) == |EncodeChar(c)|
    ensures DecodeChar(EncodeChar(c)) == c as int
  {
    var n := c as int;
    if n < 0x80 {
    } else if n < 0x800 {
      SplitTwo(n);
    } else if n < 0x1_0000 {
      SplitThree(n);
    } else {
      SplitFour(n);
    }
  }

  /** Different strings have different bytes. */
  lemma {:induction false} Utf8Injective(a: string, b: string)
    requires Utf8(a) == Utf8(b)
    ensures a == b
  {
    if a != [] { assert |Utf8(a)| >= 1; }
    if b != [] { assert |Utf8(b)| >= 1; }
    if a != [] && b != [] {
      EncodeCharDecodes(a[0]);
      EncodeCharDecodes(b[0]);
      var ea, eb := EncodeChar(a[0]), EncodeChar(b[0]);
      assert ea[0] == Utf8(a)[0] && eb[0] == Utf8(b)[0];
      assert |ea| == |eb|;
      assert ea == Utf8(a)[..|ea|] && eb == Utf8(b)[..|eb|];
      assert a[0] == b[0];
      assert Utf8(a[1..]) == Utf8(a)[|ea|..] && Utf8(b[1..]) == Utf8(b)[|eb|..];
      Utf8Injective(a[1..], b[1..]);
      assert a == [a[0]] + a[1..] && b == [b[0]] + b[1..];
    }
  }

  // ---------------------------------------------------------------------------
  // Keys

  /** The key types: the first byte of every key. */
  const QueryKey: byte := 1
  const LemmaKey: byte := 2

  /** marshalKey: the type byte followed by the bytes of the string. */
  function MarshalKey(k: string, t: byte): seq<byte> {
    [t] + Utf8(k)
  }

  /**
   * A key is one byte longer than the string's bytes and starts with its type,
   * and the empty string's key is the type byte alone.
   */
  lemma MarshalKeyShape(k: string, t: byte)
    ensures |MarshalKey(k, t)| == |Utf8(k)| + 1 && MarshalKey(k, t)[0] == t
    ensures MarshalKey(k, t)[1..] == Utf8(k)
    ensures MarshalKey("", t) == [t]
  {
  }

  /** The key of "key": the type byte, then 'k', 'e', 'y'. */
  lemma MarshalKeyOfKey(t: byte)
    ensures MarshalKey("key", t) == [t, 107, 101, 121]
  {
    assert "key"[1..] == "ey" && "ey"[1..] == "y" && "y"[1..] == "";
  }

  /**
   * Two keys are equal only for the same type and the same string: a query
   * and a lemma id never share a key, even when they are equal strings.
   */
  lemma KeysDistinct(k1: string, t1: byte, k2: string, t2: byte)
    ensures MarshalKey(k1, t1) == MarshalKey(k2, t2) <==> k1 == k2 && t1 == t2
  {
    if MarshalKey(k1, t1) == MarshalKey(k2, t2) {
      assert t1 == MarshalKey(k1, t1)[0] && t2 == MarshalKey(k2, t2)[0];
      assert Utf8(k1) == MarshalKey(k1, t1)[1..] && Utf8(k2) == MarshalKey(k2, t2)[1..];
      Utf8Injective(k1, k2);
    }
  }

  // ---------------------------------------------------------------------------
  // Cached answers

  /** time.Hour * 24, in nanoseconds: how long an answer carrying an error is kept. */
  const TTLForErrors: int := 24 * 60 * 60 * 1_000_000_000

  /** badger.ErrKeyNotFound. */
  const ErrKeyNotFound: Error := Sentinel("badger.ErrKeyNotFound", "Key not found")

  /** CachedQuery: a Search answer with its error kept as its message ("" for none). */
  datatype CachedQuery = CachedQuery(lemmaID: string, suggestions: seq<string>, error: string, createdAt: int)

  /** CachedLemma: a GetLemma answer with its error kept as its message ("" for none). */
  datatype CachedLemma = CachedLemma(lemmas: seq<LemmaRecord>, error: string, createdAt: int)

  /** The message an error is stored as: "" for none. */
  function ErrorString(err: Option<Error>): string {
    if err.Some? then Message(err.value) else ""
  }

  /** A stored message back as an error: none for "", otherwise a new error with that message. */
  function ErrorFromString(s: string): (r: Option<Error>)
    ensures r.None? <==> s == ""
    ensures r.Some? ==> Message(r.value) == s
  {
    if s != "" then Some(Plain(s)) else None
  }

  /** CachedQuery.Return. */
  function ReturnQuery(cq: CachedQuery): (r: SearchAnswer)
    ensures r.lemmaID == cq.lemmaID && r.suggestions == cq.suggestions
    ensures r.err.None? <==> cq.error == ""
    ensures r.err.Some? ==> Message(r.err.value) == cq.error
  {
    SearchAnswer(cq.lemmaID, cq.suggestions, ErrorFromString(cq.error))
  }

  /** CachedLemma.Return. */
  function ReturnLemma(cl: CachedLemma): (r: LemmaAnswer)
    ensures r.lemmas == cl.lemmas
    ensures r.err.None? <==> cl.error == ""
    ensures r.err.Some? ==> Message(r.err.value) == cl.error
  {
    LemmaAnswer(cl.lemmas, ErrorFromString(cl.error))
  }

  /**
   * Keeping an error as its message and returning it keeps the message of
   * every error with one, but not its identity: errors.Is no longer finds any
   * sentinel in it.
   */
  lemma StoredErrorKeepsOnlyMessage(err: Error, target: Error)
    requires target.Sentinel? && Message(err) != ""
    ensures ErrorFromString(ErrorString(Some(err))).Some?
    ensures Message(ErrorFromString(ErrorString(Some(err))).value) == Message(err)
    ensures !Is(ErrorFromString(ErrorString(Some(err))).value, target)
  {
  }

  /** What a key holds: the JSON encoding of one of the two answer kinds. */
  datatype Stored = StoredQuery(cachedQuery: CachedQuery) | StoredLemma(cachedLemma: CachedLemma)

  /** An entry of the table, with the time it expires at, if it does. */
  datatype Entry = Entry(stored: Stored, expiresAt: Option<int>)

  /** The database is asked for a key: the entry if it is there and has not expired. */
  predicate Live(e: Entry, now: int) {
    e.expiresAt.None? || now < e.expiresAt.value
  }

  /** The TTL an answer gets: a day when it carries an error, none otherwise. */
  function ExpiryFor(err: Option<Error>, now: int): Option<int> {
    if err.Some? then Some(now + TTLForErrors) else None
  }

  /** An answer without an error never expires; one with an error is read for a day after it was written, and not after. */
  lemma ExpiryRule(s: Stored, err: Option<Error>, writtenAt: int, now: int)
    ensures Live(Entry(s, ExpiryFor(err, writtenAt)), now) <==> err.None? || now < writtenAt + TTLForErrors
  {
  }

  /**
   * Storage: the table the database holds, the clock that entries expire by,
   * and the failures the database itself raises (reading, writing, closing),
   * which the environment decides.
   */
  class Storage {
    var table: map<seq<byte>, Entry>
    var now: int
    var readFault: Option<Error>
    var writeFault: Option<Error>
    var closeFault: Option<Error>

    /** Every key is typed by its first byte, and holds the answer kind of its type. */
    predicate Valid()
      reads this
    {
      forall k :: k in table ==>
        && k != []
        && (k[0] == QueryKey || k[0] == LemmaKey)
        && (k[0] == QueryKey ==> table[k].stored.StoredQuery?)
        && (k[0] == LemmaKey ==> table[k].stored.StoredLemma?)
    }

    /** An empty database at time `now`, failing as the environment says. */
    constructor (now: int, readFault: Option<Error>, writeFault: Option<Error>, closeFault: Option<Error>)
      ensures Valid() && table == map[] && this.now == now
      ensures this.readFault == readFault && this.writeFault == writeFault && this.closeFault == closeFault
    {
      table := map[];
      this.now := now;
      this.readFault := readFault;
      this.writeFault := writeFault;
      this.closeFault := closeFault;
    }

    /** getFromDB: the stored answer under `key`, the store's not-found error, or its own failure. */
    function Read(key: seq<byte>): (r: Result<Stored, Error>)
      reads this
      ensures readFault.Some? ==> r == Failure(readFault.value)
      ensures readFault.None? ==>
        (r.Success? <==> key in table && Live(table[key], now))
        && (r.Success? ==> r.value == table[key].stored)
        && (r.Failure? ==> r.error == ErrKeyNotFound)
    {
      if readFault.Some? then Failure(readFault.value)
      else if key in table && Live(table[key], now) then Success(table[key].stored)
      else Failure(ErrKeyNotFound)
    }

    /** GetQuery. */
    function GetQuery(query: string): (r: Result<CachedQuery, Error>)
      reads this
      requires Valid()
      ensures Read(MarshalKey(query, QueryKey)).Success? <==> r.Success?
      ensures r.Success? ==> Read(MarshalKey(query, QueryKey)) == Success(StoredQuery(r.value))
      ensures r.Failure? ==> Read(MarshalKey(query, QueryKey)) == Failure(r.error)
    {
      match Read(MarshalKey(query, QueryKey))
      case Failure(e) => Failure(e)
      case Success(stored) =>
        assert MarshalKey(query, QueryKey)[0] == QueryKey;
        Success(stored.cachedQuery)
    }

    /** GetLemma. */
    function GetLemma(lemmaID: string): (r: Result<CachedLemma, Error>)
      reads this
      requires Valid()
      ensures Read(MarshalKey(lemmaID, LemmaKey)).Success? <==> r.Success?
      ensures r.Success? ==> Read(MarshalKey(lemmaID, LemmaKey)) == Success(StoredLemma(r.value))
      ensures r.Failure? ==> Read(MarshalKey(lemmaID, LemmaKey)) == Failure(r.error)
    {
      match Read(MarshalKey(lemmaID, LemmaKey))
      case Failure(e) => Failure(e)
      case Success(stored) =>
        assert MarshalKey(lemmaID, LemmaKey)[0] == LemmaKey;
        Success(stored.cachedLemma)
    }

    /**
     * PutQuery: keep a Search answer under the query, with its error as its
     * message and a day to live if there is one. A failing write changes nothing.
     */
    method PutQuery(query: string, lemmaID: string, suggestions: seq<string>, queryErr: Option<Error>)
      returns (err: Option<Error>)
      requires Valid()
      modifies this
      ensures Valid() && now == old(now) && readFault == old(readFault)
      ensures writeFault == old(writeFault) && closeFault == old(closeFault)
      ensures err == old(writeFault)
      ensures err.Some? ==> table == old(table)
      ensures err.None? ==> table == old(table)[MarshalKey(query, QueryKey) :=
        Entry(StoredQuery(CachedQuery(lemmaID, suggestions, ErrorString(queryErr), now)), ExpiryFor(queryErr, now))]
      ensures err.None? && readFault.None? ==>
        GetQuery(query).Success?
        && ReturnQuery(GetQuery(query).value) == SearchAnswer(lemmaID, suggestions, ErrorFromString(ErrorString(queryErr)))
      ensures forall other :: other != query ==> GetQuery(other) == old(GetQuery(other))
      ensures forall lemmaID :: GetLemma(lemmaID) == old(GetLemma(lemmaID))
    {
      var key := MarshalKey(query, QueryKey);
      var value := CachedQuery(lemmaID, suggestions, ErrorString(queryErr), now);
      if writeFault.Some? {
        return writeFault;
      }
      assert key[0] == QueryKey;
      forall other | other != query
        ensures MarshalKey(other, QueryKey) != key
      {
        KeysDistinct(other, QueryKey, query, QueryKey);
      }
      forall id
        ensures MarshalKey(id, LemmaKey) != key
      {
        KeysDistinct(id, LemmaKey, query, QueryKey);
      }
      table := table[key := Entry(StoredQuery(value), ExpiryFor(queryErr, now))];
      return None;
    }

    /** PutLemma: the same for a GetLemma answer, under the lemma id. */
    method PutLemma(lemmaID: string, lemmas: seq<LemmaRecord>, lemmaErr: Option<Error>)
      returns (err: Option<Error>)
      requires Valid()
      modifies this
      ensures Valid() && now == old(now) && readFault == old(readFault)
      ensures writeFault == old(writeFault) && closeFault == old(closeFault)
      ensures err == old(writeFault)
      ensures err.Some? ==> table == old(table)
      ensures err.None? ==> table == old(table)[MarshalKey(lemmaID, LemmaKey) :=
        Entry(StoredLemma(CachedLemma(lemmas, ErrorString(lemmaErr), now)), ExpiryFor(lemmaErr, now))]
      ensures err.None? && readFault.None? ==>
        GetLemma(lemmaID).Success?
        && ReturnLemma(GetLemma(lemmaID).value) == LemmaAnswer(lemmas, ErrorFromString(ErrorString(lemmaErr)))
      ensures forall other :: other != lemmaID ==> GetLemma(other) == old(GetLemma(other))
      ensures forall query :: GetQuery(query) == old(GetQuery(query))
    {
      var key := MarshalKey(lemmaID, LemmaKey);
      var value := CachedLemma(lemmas, ErrorString(lemmaErr), now);
      if writeFault.Some? {
        return writeFault;
      }
      assert key[0] == LemmaKey;
      forall other | other != lemmaID
        ensures MarshalKey(other, LemmaKey) != key
      {
        KeysDistinct(other, LemmaKey, lemmaID, LemmaKey);
      }
      forall query
        ensures MarshalKey(query, QueryKey) != key
      {
        KeysDistinct(query, QueryKey, lemmaID, LemmaKey);
      }
      table := table[key := Entry(StoredLemma(value), ExpiryFor(lemmaErr, now))];
      return None;
    }

    /** Time passes: entries whose TTL ran out stop being read. */
    method Advance(d: nat)
      modifies this
      ensures now == old(now) + d
      ensures table == old(table) && readFault == old(readFault)
      ensures writeFault == old(writeFault) && closeFault == old(closeFault)
    {
      now := now + d;
    }

    /** Close: what closing the database returns. */
    function Close(): Option<Error>
      reads this
    {
      closeFault
    }
  }
}
