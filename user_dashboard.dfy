/** The dashboard's reconciliation state machine: the committed list of users,
    the name/email draft and the optional selection that puts it in edit mode,
    kept in step with the remote store by re-listing after every mutation.

    Each handler is one atomic step. Every remote call is a boolean parameter
    saying whether it succeeded; the re-listing that follows a mutation is its
    own call with its own outcome. */
module UserDashboard {
  import opened RemoteStore

  /** The form's contents, `newUser`. */
  datatype Draft = Draft(name: string, email: string)

  const EmptyDraft := Draft("", "")

  /** The guard `newUser.name && newUser.email`: a string is truthy exactly
      when it is non-empty. */
  predicate Filled(d: Draft)
  {
    d.name != "" && d.email != ""
  }

  /** The body a POST or PUT sends for the draft, `{name, email}`: listed
      under any key, it reads back as the draft. */
  function DocOf(d: Draft): (doc: Doc)
    ensures forall key :: ToUser(key, doc) == User(key, d.name, d.email)
  {
    Doc(d.name, d.email)
  }

  /** A snapshot of the remote store and of the three state slots. */
  datatype State = State(store: Store, users: seq<User>, draft: Draft, selection: Option<User>)

  /** The committed list after a re-listing of `store`: a listing of it on
      success, the old list on failure. */
  ghost predicate Refreshed(getOk: bool, before: seq<User>, store: Store, after: seq<User>)
  {
    if getOk then ListsStore(after, store) else after == before
  }

  /** `fetchUsers`: only the committed list can change. */
  ghost predicate FetchStep(s: State, getOk: bool, t: State)
  {
    && t.store == s.store && t.draft == s.draft && t.selection == s.selection
    && Refreshed(getOk, s.users, s.store, t.users)
  }

  /** `saveUser`: with a filled draft and a successful POST, one fresh key holds
      the draft, the draft is cleared and the list is refreshed; otherwise
      nothing changes. */
  ghost predicate SaveStep(s: State, postOk: bool, getOk: bool, t: State)
  {
    if Filled(s.draft) && postOk then
      && (exists key :: ValidKey(key) && key !in s.store && t.store == s.store[key := DocOf(s.draft)])
      && t.draft == EmptyDraft && t.selection == s.selection
      && Refreshed(getOk, s.users, t.store, t.users)
    else
      t == s
  }

  /** `updateUser`: with a selection, a filled draft and a successful PUT, the
      selected key holds exactly the draft, selection and draft are cleared and
      the list is refreshed; otherwise nothing changes. */
  ghost predicate UpdateStep(s: State, putOk: bool, getOk: bool, t: State)
  {
    if s.selection.Some? && Filled(s.draft) && putOk then
      && t.store == s.store[s.selection.value.id := DocOf(s.draft)]
      && t.draft == EmptyDraft && t.selection == None
      && Refreshed(getOk, s.users, t.store, t.users)
    else
      t == s
  }

  /** `deleteUser(id)`: on a successful DELETE the key is gone and the list is
      refreshed; draft and selection never change. */
  ghost predicate DeleteStep(s: State, id: string, deleteOk: bool, getOk: bool, t: State)
  {
    if deleteOk then
      && t.store == s.store - {id}
      && t.draft == s.draft && t.selection == s.selection
      && Refreshed(getOk, s.users, t.store, t.users)
    else
      t == s
  }

  /** The button's handler: update when a selection is present, save otherwise. */
  ghost predicate SubmitStep(s: State, remoteOk: bool, getOk: bool, t: State)
  {
    if s.selection.Some? then UpdateStep(s, remoteOk, getOk, t) else SaveStep(s, remoteOk, getOk, t)
  }

  class Dashboard {
    /** The remote collection. */
    var store: Store
    /** `users`: the committed list. */
    var users: seq<User>
    /** `newUser`: the draft. */
    var draft: Draft
    /** `editUser`: present exactly in edit mode. */
    var selection: Option<User>

    ghost function Snapshot(): State
      reads this
    {
      State(store, users, draft, selection)
    }

    /** The component as first rendered, before its mount-time fetch. */
    constructor (remote: Store)
      ensures Snapshot() == State(remote, [], EmptyDraft, None)
    {
      store := remote;
      users := [];
      draft := EmptyDraft;
      selection := None;
    }

    /** The component mounted: the initial slots followed by the fetch that
        `useEffect` schedules once. */
    constructor Mount(remote: Store, getOk: bool)
      ensures store == remote && draft == EmptyDraft && selection == None
      ensures Refreshed(getOk, [], remote, users)
    {
      store := remote;
      users := [];
      draft := EmptyDraft;
      selection := None;
      new;
      Fetch(getOk);
    }

    method Fetch(getOk: bool)
      modifies this`users
      ensures FetchStep(old(Snapshot()), getOk, Snapshot())
    {
      if getOk {
        var order := EnumerateKeys(store);
        ListingListsStore(store, order);
        users := Listing(Body(store), order);
      }
    }

    method Save(postOk: bool, getOk: bool)
      modifies this
      ensures SaveStep(old(Snapshot()), postOk, getOk, Snapshot())
    {
      if Filled(draft) && postOk {
        ExistsFreshKey(store.Keys);
        var key :| ValidKey(key) && key !in store;
        store := store[key := DocOf(draft)];
        Fetch(getOk);
        draft := EmptyDraft;
      }
    }

    method Update(putOk: bool, getOk: bool)
      modifies this
      ensures UpdateStep(old(Snapshot()), putOk, getOk, Snapshot())
    {
      if selection.Some? && Filled(draft) && putOk {
        store := store[selection.value.id := DocOf(draft)];
        selection := None;
        Fetch(getOk);
        draft := EmptyDraft;
      }
    }

    method Delete(id: string, deleteOk: bool, getOk: bool)
      modifies this
      ensures DeleteStep(old(Snapshot()), id, deleteOk, getOk, Snapshot())
    {
      if deleteOk {
        store := store - {id};
        Fetch(getOk);
      }
    }

    method Select(u: User)
      modifies this`selection, this`draft
      ensures Snapshot() == old(Snapshot()).(selection := Some(u), draft := Draft(u.name, u.email))
    {
      selection := Some(u);
      draft := Draft(u.name, u.email);
    }

    method Cancel()
      modifies this`selection, this`draft
      ensures Snapshot() == old(Snapshot()).(selection := None, draft := EmptyDraft)
    {
      selection := None;
      draft := EmptyDraft;
    }

    /** Typing in the name field. */
    method EditName(name: string)
      modifies this`draft
      ensures draft == old(draft).(name := name)
    {
      draft := draft.(name := name);
    }

    /** Typing in the email field. */
    method EditEmail(email: string)
      modifies this`draft
      ensures draft == old(draft).(email := email)
    {
      draft := draft.(email := email);
    }

    method Submit(remoteOk: bool, getOk: bool)
      modifies this
      ensures SubmitStep(old(Snapshot()), remoteOk, getOk, Snapshot())
    {
      if selection.Some? {
        Update(remoteOk, getOk);
      } else {
        Save(remoteOk, getOk);
      }
    }
  }

  /** In edit mode a submit never POSTs, whatever the draft holds and whatever
      the remote outcomes: the store is unchanged or the selected key holds
      the draft, and no other key appears. */
  lemma SubmitInEditModeNeverPosts(s: State, remoteOk: bool, getOk: bool, t: State)
    requires s.selection.Some? && SubmitStep(s, remoteOk, getOk, t)
    ensures t.store == s.store || t.store == s.store[s.selection.value.id := DocOf(s.draft)]
    ensures t.store.Keys <= s.store.Keys + {s.selection.value.id}
  {
  }

  /** In create mode a submit never replaces: every existing key keeps its
      document, and at most one valid new key appears. */
  lemma SubmitInCreateModeNeverReplaces(s: State, remoteOk: bool, getOk: bool, t: State)
    requires s.selection.None? && SubmitStep(s, remoteOk, getOk, t)
    ensures forall k :: k in s.store ==> k in t.store && t.store[k] == s.store[k]
    ensures forall k :: k in t.store && k !in s.store ==> ValidKey(k) && t.store[k] == DocOf(s.draft)
    ensures |t.store| <= |s.store| + 1
  {
    if Filled(s.draft) && remoteOk {
      var key :| ValidKey(key) && key !in s.store && t.store == s.store[key := DocOf(s.draft)];
    }
  }

  /** After a successful save and re-listing there is exactly one record the
      old store did not have, it carries the draft's fields, and every other
      record is the old store's. */
  lemma SaveRoundTrip(s: State, t: State)
    requires Filled(s.draft) && SaveStep(s, true, true, t)
    ensures |t.users| == |s.store| + 1
    ensures exists i :: 0 <= i < |t.users| && t.users[i] == User(t.users[i].id, s.draft.name, s.draft.email) && t.users[i].id !in s.store && ValidKey(t.users[i].id)
    ensures forall i, j :: 0 <= i < |t.users| && 0 <= j < |t.users| && t.users[i].id !in s.store && t.users[j].id !in s.store ==> i == j
    ensures forall i :: 0 <= i < |t.users| && t.users[i].id in s.store ==> t.users[i] == ToUser(t.users[i].id, s.store[t.users[i].id])
    ensures t.draft == EmptyDraft && t.selection == s.selection
  {
    var key :| ValidKey(key) && key !in s.store && t.store == s.store[key := DocOf(s.draft)];
    ListingLength(t.users, t.store);
    assert key in t.store;
    var i :| 0 <= i < |t.users| && t.users[i].id == key;
    forall i, j | 0 <= i < |t.users| && 0 <= j < |t.users| && t.users[i].id !in s.store && t.users[j].id !in s.store
      ensures i == j
    {
      assert t.users[i].id == key == t.users[j].id;
    }
  }

  /** After a successful update of a listed key and re-listing, the key set is
      unchanged, the selected id holds exactly the draft (a full replace) and
      every other record is the old store's. */
  lemma UpdateRoundTrip(s: State, t: State)
    requires s.selection.Some? && s.selection.value.id in s.store
    requires Filled(s.draft) && UpdateStep(s, true, true, t)
    ensures t.store.Keys == s.store.Keys && |t.users| == |s.store|
    ensures exists i :: 0 <= i < |t.users| && t.users[i] == User(s.selection.value.id, s.draft.name, s.draft.email)
    ensures forall i :: 0 <= i < |t.users| && t.users[i].id != s.selection.value.id ==> t.users[i] == ToUser(t.users[i].id, s.store[t.users[i].id])
    ensures t.draft == EmptyDraft && t.selection == None
  {
    var id := s.selection.value.id;
    assert t.store.Keys == s.store.Keys;
    ListingLength(t.users, t.store);
    var i :| 0 <= i < |t.users| && t.users[i].id == id;
  }

  /** Updating with a selection whose key has since been deleted writes the key
      back: the PUT is a set, not a guarded replace. */
  lemma UpdateAfterDeleteRecreates(s: State, t: State)
    requires s.selection.Some? && s.selection.value.id !in s.store
    requires Filled(s.draft) && UpdateStep(s, true, true, t)
    ensures t.store.Keys == s.store.Keys + {s.selection.value.id}
    ensures |t.users| == |s.store| + 1
  {
    ListingLength(t.users, t.store);
  }

  /** After a successful delete and re-listing the records are exactly those of
      the remaining keys. */
  lemma DeleteListsRemaining(s: State, id: string, t: State)
    requires DeleteStep(s, id, true, true, t)
    ensures forall i :: 0 <= i < |t.users| ==> t.users[i].id != id && t.users[i].id in s.store
    ensures forall k :: k in s.store && k != id ==> exists i :: 0 <= i < |t.users| && t.users[i].id == k
    ensures |t.users| == |s.store - {id}|
  {
    ListingLength(t.users, t.store);
    forall k | k in s.store && k != id
      ensures exists i :: 0 <= i < |t.users| && t.users[i].id == k
    {
      assert k in t.store;
    }
  }

  /** Deleting twice ends as deleting once: the same store, the same records up
      to order, the same draft and selection. */
  lemma DeleteIdempotent(s: State, id: string, once: State, mid: State, twice: State)
    requires DeleteStep(s, id, true, true, once)
    requires DeleteStep(s, id, true, true, mid) && DeleteStep(mid, id, true, true, twice)
    ensures twice.store == once.store
    ensures multiset(twice.users) == multiset(once.users)
    ensures twice.draft == once.draft && twice.selection == once.selection
  {
    assert twice.store == once.store;
    ListingsArePermutations(twice.users, once.users, once.store);
  }

  /** A listing of an empty store (a null body) has no records. */
  lemma EmptyStoreListsNothing(s: State, t: State)
    requires |s.store| == 0 && FetchStep(s, true, t)
    ensures t.users == []
  {
    ListingLength(t.users, t.store);
  }
}
