/** The remote collection the dashboard talks to, seen as a map from key to
    document, and the listing that turns a GET body into user records. */
module RemoteStore {

  datatype Option<T> = None | Some(value: T)

  /** A stored document: what a POST or PUT sends, `{name, email}`. */
  datatype Doc = Doc(name: string, email: string)

  /** A listed record: the document's fields plus its key as `id`. */
  datatype User = User(id: string, name: string, email: string)

  /** The whole collection, key to document. */
  type Store = map<string, Doc>

  /** Characters a key may not hold: the store's reserved key characters and
      the URL delimiters `/`, `?` and `#`. */
  const ReservedKeyChars: set<char> := {'/', '?', '#', '.', '$', '[', ']'}

  /** A key the store can assign: one non-empty path segment with no reserved
      character. */
  predicate ValidKey(key: string)
  {
    key != "" && forall i :: 0 <= i < |key| ==> key[i] !in ReservedKeyChars
  }

  /** The body a GET of the collection returns: an empty collection reads as
      null, which the listing's `response.data ?` test catches. */
  function Body(store: Store): Option<Store>
  {
    if |store| == 0 then None else Some(store)
  }

  /** The record built for one entry, `{id: key, ...doc}`. */
  function ToUser(key: string, doc: Doc): User
  {
    User(key, doc.name, doc.email)
  }

  predicate Distinct(order: seq<string>)
  {
    forall i, j :: 0 <= i < j < |order| ==> order[i] != order[j]
  }

  /** `order` names every key of `keys` exactly once, as `Object.keys` does. */
  predicate Enumerates(order: seq<string>, keys: set<string>)
  {
    && Distinct(order)
    && (forall i :: 0 <= i < |order| ==> order[i] in keys)
    && (forall k :: k in keys ==> k in order)
  }

  /** The records for the keys of `order`, in that order: the `.map` over the keys. */
  function UsersOf(store: Store, order: seq<string>): (r: seq<User>)
    requires forall i :: 0 <= i < |order| ==> order[i] in store
    ensures |r| == |order|
    ensures forall i :: 0 <= i < |r| ==> r[i] == ToUser(order[i], store[order[i]])
  {
    if order == [] then [] else [ToUser(order[0], store[order[0]])] + UsersOf(store, order[1..])
  }

  /** The listing of a GET body: nothing for a null body, otherwise one record
      per key, taken in the enumeration order `order`. */
  function Listing(body: Option<Store>, order: seq<string>): (r: seq<User>)
    requires body.Some? ==> Enumerates(order, body.value.Keys)
    ensures body.None? ==> r == []
    ensures body.Some? ==> |r| == |body.value|
  {
    if body.None? then []
    else
      EnumerationLength(order, body.value.Keys);
      UsersOf(body.value, order)
  }

  /** What a listing of `store` is, whatever the enumeration order: ids without
      duplicates, every id a key holding exactly that record's fields, and every
      key listed. */
  ghost predicate ListsStore(users: seq<User>, store: Store)
  {
    && (forall i, j :: 0 <= i < j < |users| ==> users[i].id != users[j].id)
    && (forall i :: 0 <= i < |users| ==> users[i].id in store && users[i] == ToUser(users[i].id, store[users[i].id]))
    && (forall k :: k in store ==> exists i :: 0 <= i < |users| && users[i].id == k)
  }

  function Ids(users: seq<User>): seq<string>
  {
    seq(|users|, i requires 0 <= i < |users| => users[i].id)
  }

  /** Enumerates the keys of the store in some order (`Object.keys`). */
  method EnumerateKeys(store: Store) returns (order: seq<string>)
    ensures Enumerates(order, store.Keys)
  {
    var rest := store.Keys;
    order := [];
    while rest != {}
      invariant rest <= store.Keys
      invariant Distinct(order)
      invariant forall i :: 0 <= i < |order| ==> order[i] in store && order[i] !in rest
      invariant forall k :: k in store ==> k in rest || k in order
      decreases rest
    {
      var k :| k in rest;
      order := order + [k];
      rest := rest - {k};
    }
  }

  lemma {:induction false} EnumerationLength(order: seq<string>, keys: set<string>)
    requires Enumerates(order, keys)
    ensures |order| == |keys|
  {
    if order == [] {
      assert keys == {};
    } else {
      var rest := keys - {order[0]};
      forall k | k in rest
        ensures k in order[1..]
      {
        assert k in order;
        var i :| 0 <= i < |order| && order[i] == k;
        assert i != 0;
        assert order[1..][i - 1] == k;
      }
      assert Enumerates(order[1..], rest);
      EnumerationLength(order[1..], rest);
    }
  }

  /** The null test only short-cuts the empty collection: for every store the
      listing of its GET body is the record-per-key map over the enumeration. */
  lemma NullTestListsEveryKey(store: Store, order: seq<string>)
    requires Enumerates(order, store.Keys)
    ensures Listing(Body(store), order) == UsersOf(store, order)
  {
    if |store| == 0 {
      EnumerationLength(order, store.Keys);
    }
  }

  /** Every enumeration order gives a listing of the store. */
  lemma ListingListsStore(store: Store, order: seq<string>)
    requires Enumerates(order, store.Keys)
    ensures ListsStore(Listing(Body(store), order), store)
  {
    var r := Listing(Body(store), order);
    if |store| == 0 {
      assert r == [];
    } else {
      forall k | k in store
        ensures exists i :: 0 <= i < |r| && r[i].id == k
      {
        assert k in order;
        var i :| 0 <= i < |order| && order[i] == k;
        assert r[i].id == k;
      }
    }
  }

  /** Conversely, every listing of the store is the listing for the order of its own ids. */
  lemma ListsStoreIsSomeListing(users: seq<User>, store: Store)
    requires ListsStore(users, store)
    ensures Enumerates(Ids(users), store.Keys)
    ensures users == Listing(Body(store), Ids(users))
  {
    var order := Ids(users);
    forall k | k in store
      ensures k in order
    {
      var i :| 0 <= i < |users| && users[i].id == k;
      assert order[i] == k;
    }
    assert Enumerates(order, store.Keys);
    if |store| == 0 {
      EnumerationLength(order, store.Keys);
    } else {
      var r := UsersOf(store, order);
      assert |r| == |users|;
      forall i | 0 <= i < |users|
        ensures r[i] == users[i]
      {
      }
    }
  }

  /** A listing has exactly as many records as the store has keys. */
  lemma ListingLength(users: seq<User>, store: Store)
    requires ListsStore(users, store)
    ensures |users| == |store|
  {
    ListsStoreIsSomeListing(users, store);
    EnumerationLength(Ids(users), store.Keys);
  }

  lemma {:induction false} DistinctOccurrences(s: seq<User>)
    requires forall i, j :: 0 <= i < j < |s| ==> s[i] != s[j]
    ensures forall x :: multiset(s)[x] == if x in s then 1 else 0
  {
    if s != [] {
      DistinctOccurrences(s[1..]);
      assert s == [s[0]] + s[1..];
      forall x
        ensures multiset(s)[x] == if x in s then 1 else 0
      {
        assert multiset(s) == multiset{s[0]} + multiset(s[1..]);
        if x == s[0] {
          assert x !in s[1..];
        }
      }
    }
  }

  /** Two listings of the same store differ only in order. */
  lemma ListingsArePermutations(a: seq<User>, b: seq<User>, store: Store)
    requires ListsStore(a, store) && ListsStore(b, store)
    ensures multiset(a) == multiset(b)
  {
    DistinctOccurrences(a);
    DistinctOccurrences(b);
    forall x | x in a
      ensures x in b
    {
      var j :| 0 <= j < |b| && b[j].id == x.id;
      assert b[j] == x;
    }
    forall x | x in b
      ensures x in a
    {
      var j :| 0 <= j < |a| && a[j].id == x.id;
      assert a[j] == x;
    }
    assert forall x :: multiset(a)[x] == multiset(b)[x];
  }

  /** A finite set of strings leaves out every string at least `n` long. */
  lemma {:induction false} KeyLengthBound(keys: set<string>) returns (n: nat)
    ensures forall k :: k in keys ==> |k| < n
  {
    if keys == {} {
      n := 0;
    } else {
      var k :| k in keys;
      var m := KeyLengthBound(keys - {k});
      n := if |k| < m then m else |k| + 1;
    }
  }

  /** The store can always assign a valid key that is not yet in use. */
  lemma ExistsFreshKey(keys: set<string>)
    ensures exists k :: ValidKey(k) && k !in keys
  {
    var n := KeyLengthBound(keys);
    var k := seq(n + 1, _ => 'k');
    assert k[0] == 'k';
    assert ValidKey(k) && k !in keys;
  }
}
