# User dashboard reconciliation model

A Dafny model of the CRUD controller inside the `UserDashboard` component. The controller keeps three state slots:

- `users`: the committed list of records;
- `newUser`: the name/email draft;
- `editUser`: the optional selection, whose presence means edit mode.

It keeps them consistent with a remote key-to-document collection. There are four remote operations: list (GET), create (POST), full replace (PUT) and delete (DELETE). Every successful mutation is followed by a fresh listing.

- `remote_store.dfy` (module `RemoteStore`) holds the collection as a `map<string, Doc>` and the listing that turns a GET body into records, one record per key with the key as `id`. `Object.keys` follows the order of the GET response (index-like keys first), which the store does not fix, so `EnumerateKeys` may produce any order. `ListsStore` describes a listing without reference to order: ids have no duplicates, every id is a key holding exactly that record's fields, and every key appears. Two lemmas show this matches the listing in both directions. A third shows that any two listings of one store are permutations of each other.
- `user_dashboard.dfy` (module `UserDashboard`) holds the class `Dashboard`. Its fields are the store and the three slots. Its methods are the handlers. Each handler is one atomic step, and each remote call's outcome is a `bool` parameter. Each handler that makes a remote call is specified by a step relation on a `State` snapshot (`FetchStep`, `SaveStep`, `UpdateStep`, `DeleteStep`, `SubmitStep`). The constructors, `Select`, `Cancel`, `EditName` and `EditEmail` state their new state directly. The lemmas beside the class state the round trips and scenarios over these relations.

Assumptions about the remote store, which the component's code relies on but does not contain:

- a GET of an empty collection returns `null`;
- a POST stores the body under a key not yet in use, and that key is non-empty and free of `/`, `?`, `#` and the store's reserved characters `.`, `$`, `[`, `]` (`ValidKey`);
- a PUT sets the document at its key, creating the key if it is missing;
- a DELETE of a missing key succeeds;
- no other client writes the collection while a handler runs. The collection sits at a fixed shared URL (src/components/UserDashboard.tsx:15-16), so another client could write between a mutation and the listing that follows it. The round-trip lemmas (`SaveRoundTrip`, `UpdateRoundTrip`, `DeleteListsRemaining`, `DeleteIdempotent`) hold only when this dashboard is the only writer.

## Model

| member | source | states |
|---|---|---|
| `RemoteStore.NullTestListsEveryKey` | src/components/UserDashboard.tsx:22-27 | the `response.data ?` null test (`Body`) only short-cuts the empty collection: for every store the listing is the record-per-key map over the enumeration |
| `RemoteStore.UsersOf` | src/components/UserDashboard.tsx:23-26 | one record per key, in the keys' order; record `i` is `ToUser` of key `i` and its document, `{id: key, ...doc}`: the key as `id` and that key's stored name and email |
| `RemoteStore.Listing` | src/components/UserDashboard.tsx:22-27 | a null body lists nothing; otherwise the listing has exactly as many records as the collection has keys |
| `RemoteStore.EnumerateKeys` | src/components/UserDashboard.tsx:23 | the key enumeration names every key of the collection exactly once |
| `RemoteStore.EnumerationLength` | src/components/UserDashboard.tsx:23 | an enumeration without repeats has as many entries as there are keys |
| `RemoteStore.ListingListsStore` | src/components/UserDashboard.tsx:22-27 | whatever the enumeration order, the listing has distinct ids, each id a key carrying its stored fields, and every key listed |
| `RemoteStore.ListsStoreIsSomeListing` | src/components/UserDashboard.tsx:22-27 | conversely, any sequence with those properties is the listing for the order of its own ids |
| `RemoteStore.ListingLength` | src/components/UserDashboard.tsx:22-27 | a listing has exactly one record per key |
| `RemoteStore.ListingsArePermutations` | src/components/UserDashboard.tsx:22-27 | two listings of the same collection are equal as multisets, so they differ only in order |
| `RemoteStore.ExistsFreshKey` | src/components/UserDashboard.tsx:38-41 | the store always has an unused `ValidKey` (non-empty, no URL delimiter or reserved character) for a POST |
| `UserDashboard.DocOf` | src/components/UserDashboard.tsx:38-41 | the POST/PUT body is `{name, email}` of the draft, and listed under any key it reads back as the draft |
| `UserDashboard.Dashboard.constructor` | src/components/UserDashboard.tsx:12-14 | initial slots: no users, empty draft, no selection |
| `UserDashboard.Dashboard.Mount` | src/components/UserDashboard.tsx:89-91 | the initial slots followed by one fetch: `users` is a listing of the store on success and stays empty on failure |
| `UserDashboard.Dashboard.Fetch` | src/components/UserDashboard.tsx:19-32 | on success `users` becomes a listing of the store; on failure `users` is unchanged; store, draft and selection are never touched |
| `UserDashboard.Dashboard.Save` | src/components/UserDashboard.tsx:35-48 | silent no-op unless both draft fields are non-empty (the truthiness guard `Filled`); no-op on a failed POST (draft kept for retry); otherwise exactly one fresh key holds the draft, other keys are untouched, the draft is cleared, the selection is kept and `users` is refreshed |
| `UserDashboard.Dashboard.Update` | src/components/UserDashboard.tsx:51-65 | no-op unless a selection is present and both draft fields are non-empty (`Filled`); no-op on a failed PUT (selection and draft kept); otherwise the selected key holds exactly the draft, selection and draft are cleared and `users` is refreshed |
| `UserDashboard.Dashboard.Delete` | src/components/UserDashboard.tsx:68-75 | without any existence guard, removes only the given key on success and refreshes `users`; no-op on failure; draft and selection never change |
| `UserDashboard.Dashboard.Select` | src/components/UserDashboard.tsx:78-81 | the selection becomes the record and the draft its name and email; store and `users` are unchanged |
| `UserDashboard.Dashboard.Cancel` | src/components/UserDashboard.tsx:84-87 | no selection and an empty draft, from either mode; store and `users` are unchanged |
| `UserDashboard.Dashboard.EditName` | src/components/UserDashboard.tsx:102 | only the draft's name changes |
| `UserDashboard.Dashboard.EditEmail` | src/components/UserDashboard.tsx:109 | only the draft's email changes |
| `UserDashboard.Dashboard.Submit` | src/components/UserDashboard.tsx:114 | an update when a selection is present and a save otherwise; nothing else decides the mode |
| `UserDashboard.SubmitInEditModeNeverPosts` | src/components/UserDashboard.tsx:114 | with a selection present, whatever the draft and the remote outcomes, a submit leaves the store as it was or sets the selected key to the draft, and adds no other key |
| `UserDashboard.SubmitInCreateModeNeverReplaces` | src/components/UserDashboard.tsx:114 | without a selection, a submit keeps every existing key's document and adds at most one valid key holding the draft |
| `UserDashboard.SaveRoundTrip` | src/components/UserDashboard.tsx:38-43 | after a successful save and listing: one more record than there were keys, exactly one record with a new, non-empty id, that record carrying the draft's fields, all other records the old store's |
| `UserDashboard.UpdateRoundTrip` | src/components/UserDashboard.tsx:52-60 | after a successful update of a listed id and listing: same key set, the id carries exactly the draft's fields (full replace), all other records unchanged |
| `UserDashboard.UpdateAfterDeleteRecreates` | src/components/UserDashboard.tsx:51-65 | a selection whose key was deleted meanwhile is written back by a successful update, because `Delete` keeps the selection and the PUT creates the key |
| `UserDashboard.DeleteListsRemaining` | src/components/UserDashboard.tsx:68-75 | after a successful delete and listing, the records are exactly those of the remaining keys |
| `UserDashboard.DeleteIdempotent` | src/components/UserDashboard.tsx:68-75 | deleting twice gives the same store, the same records up to order, and the same draft and selection as deleting once |
| `UserDashboard.EmptyStoreListsNothing` | src/components/UserDashboard.tsx:22-28 | a successful listing of an empty collection (a null body) sets `users` to the empty sequence |

## Left out

- Rendering (src/components/UserDashboard.tsx:93-167): the table, the alternating row colours and the button labels are presentation only. The two input handlers at lines 102 and 109 are kept, as `EditName` and `EditEmail`.
- HTTP plumbing (lines 15-16, 21, 38, 54, 70): the endpoint, the URL building and axios are not modelled. Each call is an abstract store operation whose outcome is a `bool` parameter.
- Asynchrony: the mutation handlers call `fetchUsers()` without awaiting it (lines 42, 59, 71), so listings can race and the last one to finish wins. The model runs each handler as one atomic step followed by a synchronous listing, so it does not capture these races.
- Mount-time fetch (`useEffect`, lines 89-91): modelled by the `Mount` constructor, which runs one `Fetch`. React's scheduling of the effect is not modelled.
- `console.error` logging (lines 30, 45, 62, 73) has no effect on state and is not modelled.
- Stored documents are assumed to carry exactly `name` and `email`. The spread on line 25 comes after `id: key`, so a stored `id` field would override the key, and extra fields would be copied into the record. Documents with missing fields would give `undefined` names. None of these cases is modelled.
- Key order and fresh keys are nondeterministic. `EnumerateKeys` may produce any order, and `Save` picks any unused key. The model does not predict which order or which key the store actually uses.
- `Delete` and `Select` accept any string as id, and the model treats it as a single key: `Delete` removes `store - {id}` and a later `Update` sets `store[id]`. The handlers build the URL `${apiUrl}/${id}.json` (lines 54, 70), so this matches the source only for a key the store could hold (`ValidKey`). An empty id would address the whole collection, and an id such as `a/b` would address a field inside document `a`. Neither case is modelled. Keys assigned by `Save` are always valid (`SaveStep` requires `ValidKey`), but the model does not require the keys of the store given at construction to be valid.
- `Select` and `Delete` have no precondition that the record is in the committed list. The handlers do not check this; only the rendering makes it hold.
- An update of a missing key is modelled as re-creating it, following the store's set semantics for PUT. A store that rejected such a PUT would make that step a failed update.
