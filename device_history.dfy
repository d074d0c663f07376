/**
 * The dashboard's history query: who may read the readings of an API key, and which readings,
 * in which order and form, they get. The signed-in user, the key-to-owner lookup, the stored
 * readings and the ISO date formatting are parameters.
 */
module DeviceHistory {

  import opened Wrappers
  import opened Json
  import ObjectId
  import opened TrackerReading

  type UserId = string

  datatype QueryError = Unauthorized | InvalidParameter

  /** The message the query throws with. */
  function Message(e: QueryError): string {
    match e
    case Unauthorized => "Unauthorized"
    case InvalidParameter => "Invalid Parameter"
  }

  /** At most this many readings are returned. */
  const Limit: nat := 500

  /** The argument must be an object whose `apiKeyId` is a string; other keys are ignored. */
  function ParseParameter(formData: Json): (k: Option<string>)
    ensures k.Some? <==> formData.JObj? && Get(formData.fields, "apiKeyId").JStr?
    ensures k.Some? ==> Get(formData.fields, "apiKeyId") == JStr(k.value)
  {
    if formData.JObj? && Get(formData.fields, "apiKeyId").JStr? then
      Some(Get(formData.fields, "apiKeyId").str)
    else None
  }

  // ---------------------------------------------------------------------------------------
  // Selection and order.

  /** The stored readings of one key, in store order. */
  function Filter(k: string, store: seq<StoredReading>): (s: seq<StoredReading>)
    ensures |s| <= |store|
    ensures forall x :: x in s ==> x in store && x.apiKeyId == k
    ensures forall x :: x in store && x.apiKeyId == k ==> x in s
    ensures forall x :: multiset(s)[x] == if x.apiKeyId == k then multiset(store)[x] else 0
  {
    if store == [] then []
    else
      assert store == [store[0]] + store[1..];
      var rest := Filter(k, store[1..]);
      if store[0].apiKeyId == k then [store[0]] + rest else rest
  }

  /** `a` comes no later than `b`: newer first, and for equal stamps the larger id first. */
  predicate NewerOrSame(a: StoredReading, b: StoredReading) {
    a.createdAt > b.createdAt || (a.createdAt == b.createdAt && a.id >= b.id)
  }

  predicate SortedNewestFirst(s: seq<StoredReading>) {
    forall i, j :: 0 <= i < j < |s| ==> NewerOrSame(s[i], s[j])
  }

  lemma NewerOrSameTransitive(a: StoredReading, b: StoredReading, c: StoredReading)
    requires NewerOrSame(a, b) && NewerOrSame(b, c)
    ensures NewerOrSame(a, c)
  {
  }

  lemma SortedTail(s: seq<StoredReading>)
    requires SortedNewestFirst(s) && s != []
    ensures SortedNewestFirst(s[1..])
  {
    forall i, j | 0 <= i < j < |s[1..]|
      ensures NewerOrSame(s[1..][i], s[1..][j])
    {
      assert s[1..][i] == s[i + 1] && s[1..][j] == s[j + 1];
    }
  }

  /** The head of a sorted sequence comes no later than anything in it. */
  lemma SortedHead(s: seq<StoredReading>, y: StoredReading)
    requires SortedNewestFirst(s) && y in s
    ensures NewerOrSame(s[0], y)
  {
    var m :| 0 <= m < |s| && s[m] == y;
  }

  lemma SortedCons(h: StoredReading, t: seq<StoredReading>)
    requires SortedNewestFirst(t)
    requires forall y :: y in t ==> NewerOrSame(h, y)
    ensures SortedNewestFirst([h] + t)
  {
    var s := [h] + t;
    forall i, j | 0 <= i < j < |s|
      ensures NewerOrSame(s[i], s[j])
    {
      assert s[j] == t[j - 1] && s[j] in t;
      if i > 0 {
        assert s[i] == t[i - 1];
      }
    }
  }

  /** Puts `x` into a sorted sequence, before the first reading it is newer than or same as. */
  function Insert(x: StoredReading, s: seq<StoredReading>): (t: seq<StoredReading>)
    requires SortedNewestFirst(s)
    ensures multiset(t) == multiset(s) + multiset{x}
    ensures SortedNewestFirst(t)
  {
    if s == [] then [x]
    else if NewerOrSame(x, s[0]) then
      InsertFront(x, s);
      [x] + s
    else
      SortedTail(s);
      var rest := Insert(x, s[1..]);
      InsertBehind(x, s, rest);
      assert s == [s[0]] + s[1..];
      [s[0]] + rest
  }

  lemma InsertFront(x: StoredReading, s: seq<StoredReading>)
    requires SortedNewestFirst(s) && s != [] && NewerOrSame(x, s[0])
    ensures SortedNewestFirst([x] + s)
  {
    forall y | y in s
      ensures NewerOrSame(x, y)
    {
      SortedHead(s, y);
      NewerOrSameTransitive(x, s[0], y);
    }
    SortedCons(x, s);
  }

  lemma InsertBehind(x: StoredReading, s: seq<StoredReading>, rest: seq<StoredReading>)
    requires SortedNewestFirst(s) && s != [] && !NewerOrSame(x, s[0])
    requires SortedNewestFirst(rest) && multiset(rest) == multiset(s[1..]) + multiset{x}
    ensures SortedNewestFirst([s[0]] + rest)
  {
    forall y | y in rest
      ensures NewerOrSame(s[0], y)
    {
      assert y in multiset(rest);
      if y != x {
        assert y in multiset(s[1..]);
        assert y in s;
        SortedHead(s, y);
      }
    }
    SortedCons(s[0], rest);
  }

  /** The readings in the query's order: a sorted arrangement of exactly the given readings. */
  function SortNewestFirst(s: seq<StoredReading>): (t: seq<StoredReading>)
    ensures multiset(t) == multiset(s)
    ensures SortedNewestFirst(t)
  {
    if s == [] then []
    else
      assert s == [s[0]] + s[1..];
      Insert(s[0], SortNewestFirst(s[1..]))
  }

  function Min(a: int, b: int): int {
    if a <= b then a else b
  }

  /** The readings the query returns before serialisation: the first 500 in the query's order. */
  function Window(k: string, store: seq<StoredReading>): seq<StoredReading> {
    var sorted := SortNewestFirst(Filter(k, store));
    sorted[..Min(Limit, |sorted|)]
  }

  // ---------------------------------------------------------------------------------------
  // Serialisation.

  /** The browser's copy of a stored reading: the id as hex text, the stamp as ISO text. */
  function Serialize(doc: StoredReading, isoOf: int -> string): SerializedReading {
    SerializedReading(ObjectId.ToHex(doc.id), doc.apiKeyId, isoOf(doc.createdAt), doc.reading)
  }

  function SerializeAll(docs: seq<StoredReading>, isoOf: int -> string): seq<SerializedReading> {
    seq(|docs|, i requires 0 <= i < |docs| => Serialize(docs[i], isoOf))
  }

  // ---------------------------------------------------------------------------------------
  // The query.

  /**
   * The readings of the key named by `formData`, for the signed-in user `session`. `owners`
   * maps each existing key to its owner; `store` is the readings collection; `isoOf` formats a
   * stamp in milliseconds as an ISO date. The session is checked first, then the argument,
   * then the key's owner.
   */
  function GetDeviceHistory(
    session: Option<UserId>,
    formData: Json,
    owners: map<string, UserId>,
    store: seq<StoredReading>,
    isoOf: int -> string
  ): Result<seq<SerializedReading>, QueryError> {
    if session.None? then Failure(Unauthorized)
    else
      match ParseParameter(formData)
      case None => Failure(InvalidParameter)
      case Some(k) =>
        if k !in owners || owners[k] != session.value then Failure(Unauthorized)
        else Success(SerializeAll(Window(k, store), isoOf))
  }

  // ---------------------------------------------------------------------------------------
  // Guards.

  /** Without a session the query fails as unauthorised, whatever it was asked. */
  lemma NoSessionUnauthorized(formData: Json, owners: map<string, UserId>,
                              store: seq<StoredReading>, isoOf: int -> string)
    ensures GetDeviceHistory(None, formData, owners, store, isoOf) == Failure(Unauthorized)
    ensures Message(GetDeviceHistory(None, formData, owners, store, isoOf).error) == "Unauthorized"
  {
  }

  /**
   * With a session, a malformed argument fails as an invalid parameter before any key or
   * reading is looked at: the outcome does not depend on the owners or the store.
   */
  lemma BadParameterRejected(u: UserId, formData: Json,
                             owners: map<string, UserId>, store: seq<StoredReading>,
                             owners': map<string, UserId>, store': seq<StoredReading>,
                             isoOf: int -> string)
    requires ParseParameter(formData).None?
    ensures GetDeviceHistory(Some(u), formData, owners, store, isoOf) == Failure(InvalidParameter)
    ensures Message(GetDeviceHistory(Some(u), formData, owners, store, isoOf).error) == "Invalid Parameter"
    ensures GetDeviceHistory(Some(u), formData, owners, store, isoOf)
         == GetDeviceHistory(Some(u), formData, owners', store', isoOf)
  {
  }

  /**
   * A key that does not exist and a key of another user are refused alike: both give the same
   * unauthorised failure, so the caller cannot tell which it was.
   */
  lemma MissingAndForeignKeysAlike(u: UserId, formData: Json, k: string,
                                   missing: map<string, UserId>, foreign: map<string, UserId>,
                                   store: seq<StoredReading>, isoOf: int -> string)
    requires ParseParameter(formData) == Some(k)
    requires k !in missing
    requires k in foreign && foreign[k] != u
    ensures GetDeviceHistory(Some(u), formData, missing, store, isoOf) == Failure(Unauthorized)
    ensures Message(GetDeviceHistory(Some(u), formData, foreign, store, isoOf).error) == "Unauthorized"
    ensures GetDeviceHistory(Some(u), formData, missing, store, isoOf)
         == GetDeviceHistory(Some(u), formData, foreign, store, isoOf)
  {
  }

  /** The query succeeds exactly for a signed-in user asking, correctly, about a key they own. */
  lemma SucceedsIff(session: Option<UserId>, formData: Json, owners: map<string, UserId>,
                    store: seq<StoredReading>, isoOf: int -> string)
    ensures GetDeviceHistory(session, formData, owners, store, isoOf).Success? <==>
      && session.Some?
      && ParseParameter(formData).Some?
      && ParseParameter(formData).value in owners
      && owners[ParseParameter(formData).value] == session.value
  {
  }

  // ---------------------------------------------------------------------------------------
  // What a successful query returns.

  /** How many readings of one key the store holds. */
  function CountOf(k: string, store: seq<StoredReading>): nat {
    |Filter(k, store)|
  }

  lemma SortedPrefix(s: seq<StoredReading>, n: nat)
    requires SortedNewestFirst(s) && n <= |s|
    ensures SortedNewestFirst(s[..n])
  {
    forall i, j | 0 <= i < j < n
      ensures NewerOrSame(s[..n][i], s[..n][j])
    {
      assert s[..n][i] == s[i] && s[..n][j] == s[j];
    }
  }

  /** The window holds as many readings as the key has, up to 500, sorted newest first. */
  lemma WindowSorted(k: string, store: seq<StoredReading>)
    ensures |Window(k, store)| == Min(Limit, CountOf(k, store))
    ensures SortedNewestFirst(Window(k, store))
  {
    var sorted := SortNewestFirst(Filter(k, store));
    assert |sorted| == |multiset(sorted)| == |Filter(k, store)|;
    SortedPrefix(sorted, Min(Limit, |sorted|));
  }

  /** The window holds readings of the requested key only, all taken from the store. */
  lemma WindowOwnKey(k: string, store: seq<StoredReading>)
    ensures multiset(Window(k, store)) <= multiset(Filter(k, store))
    ensures forall x :: x in Window(k, store) ==> x in store && x.apiKeyId == k
  {
    var sorted := SortNewestFirst(Filter(k, store));
    var n := Min(Limit, |sorted|);
    assert sorted == sorted[..n] + sorted[n..];
    assert multiset(sorted) == multiset(sorted[..n]) + multiset(sorted[n..]);
    forall x | x in sorted[..n]
      ensures x in store && x.apiKeyId == k
    {
      assert x in multiset(sorted);
      assert x in Filter(k, store);
    }
  }

  /** In a sorted sequence, everything before a cut comes no later than everything after it. */
  lemma SortedCut(s: seq<StoredReading>, n: nat)
    requires SortedNewestFirst(s) && n <= |s|
    ensures forall x, y :: x in s[..n] && y in s[n..] ==> NewerOrSame(x, y)
  {
    forall x, y | x in s[..n] && y in s[n..]
      ensures NewerOrSame(x, y)
    {
      var i :| 0 <= i < n && s[..n][i] == x;
      var j :| 0 <= j < |s| - n && s[n..][j] == y;
      assert s[i] == x && s[n + j] == y;
    }
  }

  /** No reading of the key that the window leaves out is newer than one it lets in. */
  lemma WindowIsNewest(k: string, store: seq<StoredReading>)
    ensures forall x, y :: x in Window(k, store) && y in multiset(Filter(k, store)) - multiset(Window(k, store)) ==>
      NewerOrSame(x, y)
  {
    var sorted := SortNewestFirst(Filter(k, store));
    CutIsNewest(sorted, Min(Limit, |sorted|));
  }

  /** What a cut of a sorted sequence leaves out comes no earlier than what it keeps. */
  lemma CutIsNewest(s: seq<StoredReading>, n: nat)
    requires SortedNewestFirst(s) && n <= |s|
    ensures forall x, y :: x in s[..n] && y in multiset(s) - multiset(s[..n]) ==> NewerOrSame(x, y)
  {
    assert s == s[..n] + s[n..];
    assert multiset(s) - multiset(s[..n]) == multiset(s[n..]);
    SortedCut(s, n);
  }

  /**
   * A successful query returns the window, one serialised reading per stored one, in order:
   * the id as hex text that reads back as the id, the stamp as ISO text, and the key and all
   * telemetry unchanged.
   */
  lemma SuccessIsSerializedWindow(u: UserId, formData: Json, owners: map<string, UserId>,
                                  store: seq<StoredReading>, isoOf: int -> string)
    requires GetDeviceHistory(Some(u), formData, owners, store, isoOf).Success?
    ensures var k := ParseParameter(formData).value;
      var out := GetDeviceHistory(Some(u), formData, owners, store, isoOf).value;
      var w := Window(k, store);
      && |out| == |w|
      && forall i :: 0 <= i < |out| ==>
           && ObjectId.ParseHex(out[i].id) == w[i].id
           && out[i].createdAt == isoOf(w[i].createdAt)
           && out[i].apiKeyId == k
           && out[i].reading == w[i].reading
  {
    var k := ParseParameter(formData).value;
    var w := Window(k, store);
    WindowOwnKey(k, store);
    forall i | 0 <= i < |w|
      ensures ObjectId.ParseHex(ObjectId.ToHex(w[i].id)) == w[i].id && w[i].apiKeyId == k
    {
      ObjectId.ParseToHex(w[i].id);
      assert w[i] in w;
    }
  }

  // ---------------------------------------------------------------------------------------
  // The order is determined.

  /** No two readings of a sequence share an id, as in a collection. */
  predicate DistinctIds(s: seq<StoredReading>) {
    forall i, j :: 0 <= i < j < |s| ==> s[i].id != s[j].id
  }

  lemma DistinctIdsTail(s: seq<StoredReading>)
    requires DistinctIds(s) && s != []
    ensures DistinctIds(s[1..])
  {
    forall p, q | 0 <= p < q < |s[1..]|
      ensures s[1..][p].id != s[1..][q].id
    {
      assert s[1..][p] == s[p + 1] && s[1..][q] == s[q + 1];
    }
  }

  /** Two sorted arrangements of the same readings with distinct ids start alike. */
  lemma SameHead(a: seq<StoredReading>, b: seq<StoredReading>)
    requires multiset(a) == multiset(b) && a != []
    requires SortedNewestFirst(a) && SortedNewestFirst(b)
    requires DistinctIds(b)
    ensures b != [] && a[0] == b[0]
  {
    assert |b| == |multiset(b)| == |a|;
    assert b[0] in multiset(a) && a[0] in multiset(b);
    SortedHead(a, b[0]);
    SortedHead(b, a[0]);
    var j :| 0 <= j < |b| && b[j] == a[0];
  }

  /**
   * When ids are distinct, there is only one way to sort readings newest first: the query's
   * order is fully determined, ties on the stamp included.
   */
  lemma {:induction false} SortedArrangementUnique(a: seq<StoredReading>, b: seq<StoredReading>)
    requires multiset(a) == multiset(b)
    requires SortedNewestFirst(a) && SortedNewestFirst(b)
    requires DistinctIds(b)
    ensures a == b
  {
    if a != [] {
      SameHead(a, b);
      assert a == [a[0]] + a[1..] && b == [b[0]] + b[1..];
      assert multiset(a) == multiset{a[0]} + multiset(a[1..]);
      assert multiset(b) == multiset{b[0]} + multiset(b[1..]);
      assert multiset(a[1..]) == multiset(a) - multiset{a[0]} == multiset(b) - multiset{b[0]} == multiset(b[1..]);
      SortedTail(a);
      SortedTail(b);
      DistinctIdsTail(b);
      SortedArrangementUnique(a[1..], b[1..]);
    } else {
      assert |b| == |multiset(b)| == 0;
    }
  }

  lemma {:induction false} FilterKeepsAll(k: string, s: seq<StoredReading>)
    requires forall x :: x in s ==> x.apiKeyId == k
    ensures Filter(k, s) == s
  {
    if s != [] {
      assert s == [s[0]] + s[1..];
      FilterKeepsAll(k, s[1..]);
    }
  }

  /** When readings are already sorted with distinct ids, the window is those readings. */
  lemma WindowOfSorted(k: string, store: seq<StoredReading>, expected: seq<StoredReading>)
    requires forall x :: x in store ==> x.apiKeyId == k
    requires |store| <= Limit
    requires multiset(expected) == multiset(store)
    requires SortedNewestFirst(expected) && DistinctIds(expected)
    ensures Window(k, store) == expected
  {
    FilterKeepsAll(k, store);
    var sorted := SortNewestFirst(store);
    assert |sorted| == |multiset(store)| == |store|;
    assert sorted[..|sorted|] == sorted;
    SortedArrangementUnique(sorted, expected);
  }

  /**
   * Three readings of one key with the same stamp, stored in increasing id order, come back
   * in decreasing id order.
   */
  lemma TiesByDescendingId(k: string, t: int, r: Reading)
    ensures var a, b, c := StoredReading(1, k, t, r), StoredReading(2, k, t, r), StoredReading(3, k, t, r);
      Window(k, [a, b, c]) == [c, b, a]
  {
    var a, b, c := StoredReading(1, k, t, r), StoredReading(2, k, t, r), StoredReading(3, k, t, r);
    DescendingIdsSorted([c, b, a]);
    assert multiset([c, b, a]) == multiset([a, b, c]);
    WindowOfSorted(k, [a, b, c], [c, b, a]);
  }

  /** Readings with one stamp and strictly decreasing ids are sorted and have distinct ids. */
  lemma DescendingIdsSorted(s: seq<StoredReading>)
    requires forall i :: 0 <= i < |s| ==> s[i].createdAt == s[0].createdAt
    requires forall i :: 0 < i < |s| ==> s[i].id < s[i - 1].id
    ensures SortedNewestFirst(s) && DistinctIds(s)
  {
    forall i, j | 0 <= i < j < |s|
      ensures s[i].id > s[j].id
    {
      DescendingFrom(s, i, j);
    }
  }

  lemma {:induction false} DescendingFrom(s: seq<StoredReading>, i: nat, j: nat)
    requires forall i :: 0 < i < |s| ==> s[i].id < s[i - 1].id
    requires i < j < |s|
    ensures s[i].id > s[j].id
    decreases j - i
  {
    if i + 1 < j {
      DescendingFrom(s, i + 1, j);
    }
  }
}
