/** The bot's state store, as the poll cycles and the commands use it.

    The collections themselves (`GithubSubscription`, `RssSubscription`) are
    not part of this model; their records are rebuilt here from the fields
    the code reads and writes. A collection is a sequence of documents in
    store order, and a document is addressed by its identity: the room it
    belongs to together with the source key (the Github user or the feed
    URL). `find` is a lookup by identity, `for_room` a filter by room,
    `insert` / `update` an upsert by identity and `delete` a removal by
    identity. */
module Database {
  import opened Wrappers
  import opened Chat
  import opened Seqs

  /** Identity of a subscription document: (room, source key). */
  type Key = (RoomId, string)

  /** A Github notification subscription: the room, the Github login and its
      API token, and the time up to which notifications were delivered. */
  datatype GithubSubscription =
    GithubSubscription(room: RoomId, user: string, token: string, latestUpdate: int)

  /** A feed subscription: the room, the feed URL and the time of the newest
      feed entry seen. */
  datatype RssSubscription = RssSubscription(room: RoomId, url: string, latestUpdate: int)

  function GithubKey(s: GithubSubscription): Key { (s.room, s.user) }

  function RssKey(s: RssSubscription): Key { (s.room, s.url) }

  /** At most one document per identity. */
  ghost predicate UniqueKeys<S>(store: seq<S>, key: S -> Key) {
    forall i, j :: 0 <= i < j < |store| ==> key(store[i]) != key(store[j])
  }

  /** The first document with identity `k`, if any. */
  function Find<S(==,!new)>(store: seq<S>, key: S -> Key, k: Key): (r: Option<S>)
    ensures r.Some? ==> r.value in store && key(r.value) == k
    ensures r.None? <==> forall s :: s in store ==> key(s) != k
  {
    if |store| == 0 then None
    else if key(store[0]) == k then Some(store[0])
    else Find(store[1..], key, k)
  }

  /** Filtering keeps identities distinct. */
  lemma {:induction false} FilterUnique<S(!new)>(store: seq<S>, keep: S -> bool, key: S -> Key)
    ensures UniqueKeys(store, key) ==> UniqueKeys(Filter(store, keep), key)
  {
    if |store| > 0 && UniqueKeys(store, key) {
      FilterUnique(store[1..], keep, key);
      if keep(store[0]) {
        forall s | s in Filter(store[1..], keep)
          ensures key(s) != key(store[0])
        {
          var j :| 0 <= j < |store[1..]| && store[1..][j] == s;
          assert store[j + 1] == s;
        }
        ConsUnique(store[0], Filter(store[1..], keep), key);
      }
    }
  }

  /** A document whose identity is new can be put in front of a store with
      distinct identities. */
  lemma ConsUnique<S(!new)>(s: S, rest: seq<S>, key: S -> Key)
    requires UniqueKeys(rest, key)
    requires forall t :: t in rest ==> key(t) != key(s)
    ensures UniqueKeys([s] + rest, key)
  {
    var r := [s] + rest;
    forall i, j | 0 <= i < j < |r|
      ensures key(r[i]) != key(r[j])
    {
      assert r[j] == rest[j - 1];
      if i > 0 {
        assert r[i] == rest[i - 1];
      }
    }
  }

  /** Lookups of an identity all of whose documents survive the filter are
      unaffected by it. */
  lemma {:induction false} FindFilter<S(!new)>(store: seq<S>, keep: S -> bool, key: S -> Key, k: Key)
    requires forall s :: s in store && key(s) == k ==> keep(s)
    ensures Find(Filter(store, keep), key, k) == Find(store, key, k)
  {
    if |store| > 0 {
      FindFilter(store[1..], keep, key, k);
    }
  }

  /** `update` / `insert`: the document with the same identity is replaced in
      place, or the document is appended when its identity is new. */
  function Upsert<S(==,!new)>(store: seq<S>, key: S -> Key, s: S): (r: seq<S>)
    ensures Find(r, key, key(s)) == Some(s)
    ensures forall k :: k != key(s) ==> Find(r, key, k) == Find(store, key, k)
    ensures forall t :: t in r ==> t == s || t in store
    ensures UniqueKeys(store, key) ==> UniqueKeys(r, key)
    ensures |r| == if Find(store, key, key(s)).Some? then |store| else |store| + 1
  {
    if |store| == 0 then [s]
    else if key(store[0]) == key(s) then
      var r := [s] + store[1..];
      assert UniqueKeys(store, key) ==> UniqueKeys(r, key) by {
        if UniqueKeys(store, key) {
          forall i, j | 0 <= i < j < |r|
            ensures key(r[i]) != key(r[j])
          {
            assert r[j] == store[j];
            if i > 0 {
              assert r[i] == store[i];
            }
          }
        }
      }
      r
    else
      var rest := Upsert(store[1..], key, s);
      assert UniqueKeys(store, key) ==> UniqueKeys([store[0]] + rest, key) by {
        if UniqueKeys(store, key) {
          assert UniqueKeys(store[1..], key);
          forall t | t in rest
            ensures key(t) != key(store[0])
          {
            if t != s {
              var j :| 0 <= j < |store[1..]| && store[1..][j] == t;
              assert store[j + 1] == t;
            }
          }
          ConsUnique(store[0], rest, key);
        }
      }
      [store[0]] + rest
  }

  /** `delete` of the document with identity `k`. */
  function Remove<S(==,!new)>(store: seq<S>, key: S -> Key, k: Key): (r: seq<S>)
    ensures forall s :: s in r <==> s in store && key(s) != k
    ensures Find(r, key, k).None?
    ensures forall k' :: k' != k ==> Find(r, key, k') == Find(store, key, k')
    ensures UniqueKeys(store, key) ==> UniqueKeys(r, key)
  {
    var keep := (s: S) => key(s) != k;
    assert forall k' :: k' != k ==> Find(Filter(store, keep), key, k') == Find(store, key, k') by {
      forall k' | k' != k
        ensures Find(Filter(store, keep), key, k') == Find(store, key, k')
      {
        FindFilter(store, keep, key, k');
      }
    }
    FilterUnique(store, keep, key);
    Filter(store, keep)
  }

  /** `for_room`: the documents of one room, in store order. */
  function ForRoom<S(==,!new)>(store: seq<S>, key: S -> Key, room: RoomId): (r: seq<S>)
    ensures forall s :: s in r <==> s in store && key(s).0 == room
  {
    Filter(store, (s: S) => key(s).0 == room)
  }

  /** Deleting every document of `for_room(room)`: the documents of other
      rooms stay, in order, and lookups of other rooms' identities are
      unaffected. */
  function RemoveRoom<S(==,!new)>(store: seq<S>, key: S -> Key, room: RoomId): (r: seq<S>)
    ensures forall s :: s in r <==> s in store && key(s).0 != room
    ensures forall k: Key :: k.0 == room ==> Find(r, key, k).None?
    ensures forall k: Key :: k.0 != room ==> Find(r, key, k) == Find(store, key, k)
    ensures UniqueKeys(store, key) ==> UniqueKeys(r, key)
  {
    var keep := (s: S) => key(s).0 != room;
    assert forall k: Key :: k.0 != room ==> Find(Filter(store, keep), key, k) == Find(store, key, k) by {
      forall k: Key | k.0 != room
        ensures Find(Filter(store, keep), key, k) == Find(store, key, k)
      {
        FindFilter(store, keep, key, k);
      }
    }
    FilterUnique(store, keep, key);
    Filter(store, keep)
  }
}
