# qurator: a verified model

qurator hands out short codes, prints them as QR images and redirects scans. This project models its state-changing
core in Dafny and proves what that core promises over every input, every run and every interleaving.

| area | files | in one sentence |
|---|---|---|
| short-code namespace | `Domain`, `Namespace`, `Drivers`, `MemStore`, `SqliteStore`, `Simulation`, `Store` | users, code rows and the reservation ledger as atomic steps; the map store and the relational store are both proved against those steps, and hence against each other |
| listing | `Sorting`, `Listing` | keyset pages over a store that changes between pages |
| code lifecycle | `Inputs`, `Blobs`, `Creation`, `Edits`, `Batch`, `Service` | the service object with its store, blob store and cache, the joint invariant of the three, and other requests between its store calls |
| scans | `Resolution`, `Staleness` | the resolver cache against direct lookups, sequentially and with split reads |
| analytics | `Recorder`, `Rollups`, `ScanStore`, `Pipeline`, `Retention` | the recorder as an interleaved step system, rollups, queries, in-place pruning, and the recorder driving the store |
| export and import | `Archive`, `Import`, `RoundTrip` | writing a store's archive and replaying it into either store |
| images | `Geometry`, `LogoHole`, `Raster`, `SvgPath` | module cover, logo hole, pixel buffer and path data |
| guards | `RateLimit`, `TokenAuth` | the token bucket and the token cache |

Objects the program updates in place are classes whose methods are proved against a step function of the old state;
what the program promises is then proved about those functions and about runs of them. `Services.Service.Valid` is the
joint invariant: the store is sound; the blob store holds exactly the objects of the rows and of the rows still on
their way into the store; each image shows the scan address of a dynamic code or the destination of a direct one in the
row's styling; and the cache answers every scan as the store would, but for keys whose invalidation is still to come.
Between any two store calls of a request, any number of edits and creations by other requests may take place
(`Edits.Foreign`); every request keeps the joint invariant through them, and its result is tied to the run of writes,
own and foreign, that took place.

The functions the specifications are built from are tied to what they mean: for each main operation a lemma, or the
operation's own contract, says in the plain fields of rows, events, requests and pixels what its result is, without
going through those functions.

Texts are compared in two ways, and the model keeps them apart. Go lower-cases letters of all of Unicode
(`Domain.GO_LOWER` is any folding that agrees with ASCII, keeps white space apart and folds the Kelvin sign, as
`strings.ToLower` does); SQLite folds ASCII letters alone (`Domain.AsciiLower`). Each store's tables name their driver,
and `Domain.Fold` is its comparison.

Some promises do not hold without a condition. The exact condition is proved for each, and a concrete store shows each
failing:

- an archive can be imported if and only if the importing store can tell its rows apart: no two code rows, deleted ones
  included, share a short code; the map store also needs emails that differ when lower-cased; the relational store also
  needs owners that exist and styling profiles of their own (`RoundTrips.RoundTrip`). From a store of the same driver
  only the short codes matter, and re-registering a released code is the step that breaks it
  (`RoundTrips.ReachableIsExportable`, `RoundTrips.ReuseBreaksImport`); five ordinary operations, all accepted by either
  driver, reach such a store (`RoundTrips.ReuseIsReachable`). The comment at internal/export/read.go:15-25 promises the
  import for every store;
- the cache files an answer under the trimmed, lower-cased short code, the store looks up the short code as its driver
  folds it. A scan leaves the cache in agreement exactly when the two keys are one, the key was cached, or what is filed
  under it lands unrecorded (`Resolutions.ScanKeepsAgreementExactly`). The keys differ for outer white space of any kind
  and, on the relational store, for letters that only Go folds (`Resolutions.KeysMeetExactly`); one scan of a live code
  with a space on either side, or with a Kelvin sign for its k, hides it from the scans after it
  (`Resolutions.StraySpaceHides`, `Resolutions.StrayLetterHides`);
- from equal rows the two stores accept the same operation exactly when owners exist, styling ids are new and no email
  clashes by the case of a letter outside ASCII alone (`Simulation.StoresStepTogether`), and answer the same question
  exactly when they fold its short code alike or it is not taken (`Simulation.ReadsAgreeExactly`). An unknown owner and
  a pair of emails show the difference (`Simulation.UnknownOwnerSplits`, `Simulation.EmailCaseSplits`); even an operation
  both refuse may get different errors (`Simulation.ErrorKindsMayDiffer`).

Values that come from outside are parameters: clock readings, random ids and short codes, whether the renderer, a blob
write or the store succeeds, and what other requests do in between. Theorems that need fresh ids say so. Times are
whole microseconds (scan events: seconds; the limiter: nanoseconds), and limiter tokens are scaled integers, so nothing
is rounded.

## Model

| member | source | states |
|---|---|---|
| `Namespace.StepPreservesInv` | internal/store/migrations/0002_release_and_precision.go:23-42 | every store operation keeps the namespace invariant: ids, emails and client refs are unique, every row is in the ledger, a live row owns the unreleased reservation of its short code, every reservation points at a row with that code, and a released one at a deleted row; in the relational store owners exist and styling profiles differ as well |
| `Namespace.RunPreservesInv` | internal/store/sqlite/sqlite.go:499-524 | the invariant holds after every prefix of every run of operations |
| `Namespace.ReachableHasOneLiveRow` | internal/store/migrations/0002_release_and_precision.go:5-15 | in every store reached from the empty one, two live rows never share a short code |
| `Namespace.ReachableRefsAreUnique` | internal/store/migrations/0004_client_ref.go:17-27 | in every reachable store a user has at most one code per client ref, deleted codes included |
| `Namespace.AvailabilityIsOneCondition` | internal/store/sqlite/sqlite.go:772-809 | "not taken", "resolves to nothing" and "a row with a fresh id and ref can be created under it" are the same condition for every short code the driver folds as Go lower-cases it; any other looks free and resolves to nothing |
| `Namespace.LookupFindsLive` | internal/store/storetest/memstore.go:341-352 | a live row is what its own short code resolves to |
| `Namespace.InsertedCodes` | internal/store/storetest/memstore.go:299-324 | a batch adds exactly its own rows, each with its defaults applied, and touches no other row |
| `Namespace.InsertedKeys` | internal/store/storetest/memstore.go:318-319 | a batch reserves exactly its own short codes and leaves every other reservation alone |
| `Namespace.RowPersisted` | internal/store/storetest/memstore.go:299-324 | the persisted row, field by field: what the caller chose, the short code lower-cased, version one, and the defaults for what was left open |
| `Namespace.UserStored` | internal/store/storetest/memstore.go:81-104 | a user is accepted if and only if id and email are given and new, and is stored as given with the creation time filled in |
| `Namespace.DestinationWritten` | internal/store/storetest/memstore.go:476-497 | an update is accepted if and only if it comes from the owner of a row that is not deleted, at its version; it then writes destination, version and time of that row and nothing else |
| `Namespace.StateWritten` | internal/store/storetest/memstore.go:499-523 | the same for the state, which must be active or disabled |
| `Namespace.DeletionWritten` | internal/store/storetest/memstore.go:525-545 | the same for a deletion, which dates a row once and touches no reservation |
| `Namespace.ReleaseWritten` | internal/store/storetest/memstore.go:565-589 | a release is accepted if and only if the reservation is unreleased and its row deleted; it dates that reservation and nothing else |
| `Namespace.StepEvolves` | internal/store/sqlite/sqlite.go:696-768 | no operation removes a row, changes its identity, lowers its version, or changes a deleted row at all |
| `Namespace.RunEvolves` | internal/store/sqlite/sqlite.go:696-768 | the same between any two moments of a run |
| `Namespace.VersionCountsMutations` | internal/store/sqlite/sqlite.go:696-768 | over any stretch of a run a row's version grows by exactly the number of operations that changed it |
| `Namespace.VersionIsOnePlusMutations` | internal/store/storetest/memstore.go:310-311 | a row's version is one plus its mutations since it was created, whatever else ran |
| `Namespace.OneWinnerPerVersion` | internal/store/sqlite/sqlite.go:694-714 | of two updates of a code with the same expected version, anywhere in a run, at most one succeeds |
| `Domain.TrimTakesOuterSpace` | internal/codes/cache.go:44 | trimming takes all white space from both ends and nothing else |
| `Domain.SpacesListed` | internal/codes/cache.go:44 | all twenty-five code points with the white-space property are trimmed |
| `Domain.OnlySpacesListed` | internal/codes/cache.go:44 | and no others |
| `Domain.CapitalsFold` | internal/store/sqlite/sqlite.go:570-580 | the relational folding turns the twenty-six capitals into small letters and changes nothing else |
| `Domain.FirstDifferenceDecides` | internal/store/storetest/memstore.go:468-474 | ids are compared by their first difference, a prefix coming first |
| `Drivers.RefusedExactlyWhenFailing` | internal/store/storetest/memstore.go:476-589 | the error reported for a single-row operation is absent exactly when the operation changes the store |
| `Drivers.RefusalOfEdit` | internal/store/storetest/memstore.go:476-545 | which error an edit gets: a bad state, "not found" for unknown and other people's rows, a conflict for deleted rows and stale versions |
| `Drivers.RefusalOfRelease` | internal/store/storetest/memstore.go:565-589 | releasing a code nobody holds is "not found", one that a row not deleted holds a conflict |
| `Drivers.RefusalOfUser` | internal/store/storetest/memstore.go:81-104 | a user without id or email is incomplete, one whose id or email is known a conflict |
| `Drivers.MapAcceptsExactlyAdmissible` | internal/store/storetest/memstore.go:259-298 | checking each row against the store and the rows before it accepts exactly the batches whose rows fit the store and one another |
| `Drivers.SqlRowAccepted` | internal/store/sqlite/sqlite.go:499-524 | the constraints one relational insert meets accept exactly a row the namespace admits whose owner exists and whose styling id is new |
| `Drivers.SqlFirstAccepted` | internal/store/sqlite/sqlite.go:422-458 | inserting rows one by one in a transaction accepts exactly the admissible batches that also satisfy the foreign key and styling constraints |
| `Drivers.StoresAcceptTogether` | internal/store/sqlite/sqlite.go:422-458 | a batch goes through on the relational store if and only if it does on the map store, every owner exists and every styling id is new |
| `MemStores.MemStore.constructor` | internal/store/storetest/memstore.go:64-79 | a new map store is the empty store, with empty indexes |
| `MemStores.MemStore.CreateUser` | internal/store/storetest/memstore.go:81-104 | refuses and stores exactly as the user step prescribes, with emails compared as Go lower-cases them, and keeps rows, ledger and all indexes consistent |
| `MemStores.MemStore.CreateCodes` | internal/store/storetest/memstore.go:252-326 | all or nothing: the new tables are the batch's step, the error is the first offending row's, and a refusal changes nothing |
| `MemStores.MemStore.CheckBatch` | internal/store/storetest/memstore.go:259-298 | the pass over the batch with its three seen-sets finds exactly the first row that does not fit |
| `MemStores.MemStore.WriteBatch` | internal/store/storetest/memstore.go:299-324 | writing an admissible batch row by row yields the tables of the whole batch and keeps both secondary indexes right |
| `MemStores.MemStore.GetCodeByShortCode` | internal/store/storetest/memstore.go:341-352 | the index lookup returns the owner of the unreleased reservation, or nothing |
| `MemStores.MemStore.GetCodeByID` | internal/store/storetest/memstore.go:354-375 | returns the row if and only if it exists and is the caller's |
| `MemStores.MemStore.GetCodeByClientRef` | internal/store/storetest/memstore.go:328-339 | finds a row if and only if some row of the user carries the ref, and the row found carries it |
| `MemStores.MemStore.IsAliasAvailable` | internal/store/storetest/memstore.go:549-562 | true if and only if the short code has no unreleased reservation |
| `MemStores.MemStore.UpdateDestination` | internal/store/storetest/memstore.go:476-497 | compare-and-increment: writes destination, version and time of exactly one row of the owner at the expected version, or reports why not and changes nothing |
| `MemStores.MemStore.SetCodeState` | internal/store/storetest/memstore.go:499-523 | changes the state of a row that is not deleted, or reports why not and changes nothing |
| `MemStores.MemStore.DeleteCode` | internal/store/storetest/memstore.go:525-545 | soft-deletes once; the reservation stays |
| `MemStores.MemStore.ReleaseAlias` | internal/store/storetest/memstore.go:565-589 | marks the reservation of a deleted code released and drops the index entry; live codes and unknown aliases are refused |
| `SqliteStores.SqliteStore.CreateUser` | internal/store/sqlite/sqlite.go:260-273 | the same user step with emails compared over ASCII, as the case-insensitive index does |
| `SqliteStores.SqliteStore.CreateCodes` | internal/store/sqlite/sqlite.go:422-458 | one transaction: either the tables after every insert, or the tables as they were, including rows inserted before the failure |
| `SqliteStores.SqliteStore.InsertCode` | internal/store/sqlite/sqlite.go:499-524 | one row against the unique indexes, the foreign key and the reservation upsert that re-arms only a released row |
| `SqliteStores.SqliteStore.GetCodeByShortCode` | internal/store/sqlite/sqlite.go:570-580 | the ordered query, folding ASCII letters only, returns the row the ledger names under the folded key |
| `SqliteStores.CandidateIsLookup` | internal/store/sqlite/sqlite.go:570-580 | the short-code query has at most one candidate row, the ledger's, so its ordering never decides anything |
| `SqliteStores.OwnerIsTheLiveRow` | internal/store/sqlite/sqlite.go:787-809 | counting live rows of a reserved code and looking at the reservation's owner give the same answer |
| `SqliteStores.SqliteStore.IsAliasAvailable` | internal/store/sqlite/sqlite.go:772-783 | counting live rows and unreleased reservations over the ASCII-folded alias says whether that key is unreserved |
| `SqliteStores.SqliteStore.UpdateDestination` | internal/store/sqlite/sqlite.go:694-714 | the guarded update writes the same fields of the same row, and its follow-up query reports what the map store reports |
| `SqliteStores.SqliteStore.SetCodeState` | internal/store/sqlite/sqlite.go:718-744 | likewise for state changes |
| `SqliteStores.SqliteStore.DeleteCode` | internal/store/sqlite/sqlite.go:747-768 | likewise for deletion, which is idempotent |
| `SqliteStores.SqliteStore.ReleaseAlias` | internal/store/sqlite/sqlite.go:783-811 | likewise for releasing an alias |
| `Simulation.StoresStepTogether` | internal/store/sqlite/sqlite.go:422-524 | from equal rows, an operation succeeds on both stores or on neither if and only if owners exist, styling ids are new and no email clashes by the case of a letter outside ASCII alone; then the rows are equal again |
| `Simulation.ReadsAgreeExactly` | internal/store/sqlite/sqlite.go:570-616 | from equal rows, lookups by short code, id and client ref and availability have one answer on both stores, except exactly for a taken short code the two fold differently |
| `Simulation.RunBoth` | internal/store/storetest/memstore.go:252-326 | for every run of such calls, reads and writes mixed, the two stores give equal replies call by call, each the right one, and end with the same rows and ledger |
| `Simulation.ErrorKindsMayDiffer` | internal/store/storetest/memstore.go:277-294 | on one concrete sound store a refused row is "alias taken" to the map store and "client ref taken" to the relational one, so only success is compared |
| `Simulation.UnknownOwnerSplits` | internal/store/sqlite/sqlite.go:499-524 | on empty stores a row of an unknown owner is accepted by the map store and refused by the relational one |
| `Simulation.EmailCaseSplits` | internal/store/storetest/memstore.go:91-96 | emails that differ by the Kelvin sign alone: the map store refuses the second user, the relational store accepts it |
| `Listing.ListPage` | internal/store/storetest/memstore.go:407-466 | a page holds the first matching rows after the cursor in listing order, at most the limit, and names a next cursor if and only if rows were left over |
| `Listing.PageMeans` | internal/store/storetest/memstore.go:407-474 | in the rows' own fields: each row is the user's, not deleted, within the dates, with the text in its destination and older than the cursor; rows come newest first; the limit is fifty unless given; what is wanted is on the page or older than where it ends |
| `Listing.SelectedMeans` | internal/store/storetest/memstore.go:425-444 | the filter is exactly those conditions, the text being found anywhere in the destination |
| `Listing.WalkDescends` | internal/store/storetest/memstore.go:407-474 | pages read one after another from a changing store concatenate to one strictly descending list |
| `Listing.FullWalkVisitsAll` | internal/store/sqlite/sqlite.go:620-681 | a finished walk has visited every code that was there and matched from the first page to the last, and the whole walk runs from newest to oldest |
| `Listing.NoCodeTwice` | internal/store/storetest/memstore.go:469-474 | no code appears twice in a walk, even if it was edited between two pages |
| `Listing.RelationalListsNoMore` | internal/store/sqlite/sqlite.go:637-640 | whatever the relational store lists under a destination filter the map store lists as well |
| `Inputs.Prepare` | internal/codes/service.go:463-515 | a prepared request has an owner, a known mode, a trimmed destination that fits the symbol if direct, and an alias that is canonical, not reserved and never of generated shape; dynamic codes need a base URL |
| `Inputs.PreparedExactly` | internal/codes/service.go:463-515 | a request is prepared if and only if owner, mode, base URL, ref length, destination, symbol capacity and alias are each acceptable |
| `Inputs.FirstFaultNamed` | internal/codes/service.go:463-515 | the error names the first check that fails, in the order user, mode, base URL, ref, destination, capacity, alias shape, reserved word, generated shape |
| `Inputs.CapacityIsWhatIsLeft` | internal/qr/encode.go:17-27 | the byte capacities are what version 40 leaves after error correction (ISO/IEC 18004, Tables 7 and 9) |
| `Inputs.AliasLooks` | internal/shortcode/alias.go:52-81 | three to 64 letters, digits and hyphens, no hyphen at an end and no two in a row |
| `Inputs.GeneratedLooks` | internal/shortcode/generate.go:12-32 | twelve lower-case letters or digits, none of i, l, o, u |
| `Inputs.GeneratedIsCanonical` | internal/shortcode/generate.go:24-32 | a generated short code is its own lower-case trimmed form |
| `Inputs.AliasIsCanonical` | internal/shortcode/alias.go:37-81 | an accepted alias is its own lower-case trimmed form |
| `Blobs.KeysIdentify` | internal/codes/service.go:273-303 | image and logo keys determine the id they were made from, and an image key is never a logo key |
| `Blobs.FreshIdHasNoBlobs` | internal/codes/service.go:519-569 | while the blob store matches the rows, an unused id has no object under its keys |
| `Blobs.AddRowBlobs` | internal/codes/service.go:519-569 | storing a new row's objects keeps the exact correspondence between rows and objects |
| `Blobs.RemoveRowBlobs` | internal/codes/service.go:571-584 | removing a row's objects leaves exactly the objects of the other rows |
| `Blobs.ImageShowsRow` | internal/codes/service.go:519-569 | the stored image of a row shows its scan address, base plus /r/ plus short code, or its destination if direct, in the row's colours, shape, margin, size and level; the logo object holds the logo's bytes |
| `Blobs.NothingElseStored` | internal/codes/service.go:571-584 | every object in the store is some row's image or logo |
| `Blobs.KeyLayout` | internal/codes/service.go:273-303 | objects lie under codes/ or logos/, sharded by the first four characters of the id's random part |
| `Services.Service.constructor` | internal/codes/service.go:147-186 | a service over an empty store satisfies the joint invariant of store, blobs and cache |
| `Services.Service.Materialise` | internal/codes/service.go:519-569 | renders the scan URL of a dynamic code or the destination of a direct one in the requested styling; on failure the blob store is exactly as before, on success it has gained exactly the row's objects and the row is on its way |
| `Services.Service.RemoveBlobs` | internal/codes/service.go:571-584 | removes exactly the row's image and logo |
| `Services.Service.Create` | internal/codes/service.go:589-625 | with edits and creations of others between each attempt's image and its insert: the attempt that decides is the first that does not collide with the store it met, success if and only if that attempt wins there; success is one own write in the run and adds one row carrying the request, failure is none; the joint invariant holds throughout; the first of these that goes wrong names the error: rendering, the blob writes, the store, a reserved code, a used ref; a generated code is given up after five collisions |
| `Creation.ConcludesMeans` | internal/codes/service.go:589-625 | the same told from the request, the draws and the stores the attempts met |
| `Creation.AttemptMeans` | internal/codes/service.go:600-622 | why one attempt wins, collides or stops, in the order things can go wrong |
| `Creation.CarriesAsked` | internal/codes/service.go:463-515 | a created row carries the requested user, mode, destination, ref and styling, with the defaults for what was left open |
| `Creation.RowAsRendered` | internal/codes/service.go:519-569 | the row of a rendered attempt has the drawn id and its keys, and the level the renderer reports |
| `Services.Service.Attempt` | internal/codes/service.go:600-622 | one attempt wins if and only if it renders, the store is up and code and ref are free in the store the insert meets; it counts as a collision if and only if a generated code was taken there; a lost attempt leaves no image behind |
| `Creation.LandedRow` | internal/codes/service.go:605-622 | inserting the row of an attempt either lands the persisted row with the image and everything the request asked for, or is refused for its code, else its ref, and changes nothing |
| `Creation.SingleInsert` | internal/codes/service.go:605-612 | inserting a fresh row is refused as "alias taken" exactly when the code is taken, and accepted exactly when code and ref are free |
| `Services.Service.CreateBatch` | internal/codes/service.go:666-787 | with edits and creations of others before every lookup of every item and before the transaction: one answer per item at its input position; the transaction goes through if and only if nothing was rendered, or the store is up and every needed code and ref is free in the store it meets; refused, it writes nothing at all; the rows answered as created are exactly the rows gained; the joint invariant holds on every path; an item answered as existing has the destination and the mode of the row it gets, and a row that carries its ref but differs in either is a conflict |
| `Batches.BatchMeans` | internal/codes/service.go:683-734 | what the answers say of the items, against the stores their lookups met: existing, conflicting, repeated and created ones |
| `Services.Service.Classify` | internal/codes/service.go:680-734 | the scan with seen-refs and seen-aliases decides each item as its position in the batch and the stores its ref and its alias were looked up in demand, the mode compared with an empty one read as dynamic |
| `Batches.KnownRefDecides` | internal/codes/service.go:691-703 | the first item to use a ref that a row of the user carries gets that row if destination and mode agree, and a conflict naming it otherwise |
| `Batches.RepeatedRefDecides` | internal/codes/service.go:684-690 | a later item with the same ref is an error |
| `Batches.InputDecides` | internal/codes/service.go:706-733 | without a ref that decides, an item is refused for its input, for an alias that is reserved or taken by an earlier item, or left to insert |
| `Batches.AnswerMeans` | internal/codes/service.go:736-786 | an item left to insert fails for its rendering, its blob writes or the transaction, in this order, or is created as asked |
| `Batches.CandidatesDiffer` | internal/codes/service.go:683-734 | whatever was written between the lookups, no two items left to insert share a client ref or an alias |
| `Services.Service.RenderAll` | internal/codes/service.go:736-773 | exactly the candidates whose images were produced have rows, in input order, and the blob store has gained exactly their objects |
| `Batches.BatchAcceptedExactly` | internal/codes/service.go:773-781 | the transaction is admissible if and only if every code and every ref the rendered items need is still free and no code is needed twice |
| `Batches.RefsLostExactly` | internal/codes/service.go:663-665 | a ref the batch needs is no longer free if and only if somebody else took it after its item was checked |
| `Batches.LostRacesAreReported` | internal/codes/service.go:773-781 | with every code free, the caller is told "client ref taken" if and only if such a race was lost, and nothing else |
| `Services.Service.InsertRows` | internal/codes/service.go:770-786 | against the store as others left it: on refusal every image of the batch is removed again, on success every new short code is invalidated, and either way the verdict is the one its rows deserve |
| `Services.Service.UndoRows` | internal/codes/service.go:777-780 | removing the images of a refused batch one row after the other restores the correspondence with the rows stored and still on their way |
| `Services.Service.Report` | internal/codes/service.go:777-786 | each row's outcome lands at the input position it came from and no other position changes |
| `Batches.EveryItemAnswered` | internal/codes/service.go:666-787 | the assembled answers are right for every item, and new ids in the store are exactly the ids answered as created |
| `Batches.ResentIsExisting` | internal/codes/service.go:691-703 | whatever happened in between, an item with a client ref that got a code is answered with that code's present row as existing, or with a conflict naming it once its destination was changed |
| `Services.Service.SendTwice` | internal/codes/service.go:666-787 | the same for a batch sent twice through the service with other requests before, between and during both: an unedited code comes back unchanged |
| `Services.Service.Get` | internal/codes/service.go:817-819 | the row if and only if it is the caller's |
| `Services.Service.Write` | internal/codes/service.go:880-883 | a store write keeps the joint invariant, frozen direct codes and the monotone evolution of rows, and leaves one key to be invalidated |
| `Services.Service.Invalidate` | internal/codes/cache.go:56-60 | dropping a key settles it and keeps the joint invariant |
| `Services.Service.InterfereFrom` | internal/codes/service.go:589-930 | any number of edits and creations by others, between two store calls, keep the joint invariant and the rows, and extend the run by their own writes only |
| `Services.Service.UpdateDestination` | internal/codes/service.go:850-893 | with other requests writing in between: success is exactly one accepted store write in the run, every failure is none; not-owned, direct and invalid-destination answers are given exactly in those cases; a conflict names the actual version; without other writers it succeeds if and only if the code is the caller's, dynamic, live and at the expected version; "kept losing" only if others changed the code three times; what it then wrote is the destination, one version up, and nothing else |
| `Services.Service.UpdateOnce` | internal/codes/service.go:865-891 | one attempt ends in an accepted write, a reported conflict, or a version that moved on since it was read |
| `Edits.LostRace` | internal/codes/service.go:865-891 | an update refused at the version just read means somebody else changed the row in between |
| `Edits.OwnWriteStays` | internal/codes/service.go:850-893 | an accepted write stays the only own write of every longer run |
| `Services.Service.SetState` | internal/codes/service.go:899-916 | the same guarantees for enabling and disabling, with the invalidation after the row was read again; direct codes and unknown states are refused exactly; without other writers the row has the state, one version up, and nothing else changed |
| `Services.Service.Delete` | internal/codes/service.go:920-930 | succeeds exactly on owned codes, ends deleted, keeps the reservation |
| `Edits.KeptStep` | internal/codes/service.go:899-905 | no permitted write changes a direct code's destination, or its state to anything but deleted |
| `Edits.WriteKeepsImages` | internal/codes/service.go:918-930 | no write after creation breaks the correspondence between rows and images, of rows stored or on their way |
| `Services.Service.ReleaseAlias` | internal/httpapi/v1/admin.go:29-42 | releasing an alias dates one reservation or says "not found" or "conflict", changes no row and, although it invalidates nothing, keeps the cache in agreement with the store |
| `Resolutions.ReleaseIsUnobservable` | internal/httpapi/v1/admin.go:29-42 | releasing an alias changes neither the outcome nor the record decision of any scan |
| `Resolutions.MutationKeepsAgreement` | internal/codes/service.go:882-930 | after any store operation, dropping the keys the service invalidates leaves every cached answer observably the store's |
| `Resolutions.KeysMeetExactly` | internal/codes/cache.go:44 | cache and store use one key if and only if the short code has no outer white space and the driver folds it as Go lower-cases it |
| `Resolutions.ScanKeepsAgreementExactly` | internal/codes/service.go:941-957 | after a scan of any short code the cache still agrees if and only if cache and store use one key, the key was cached, or what is filed under it lands unrecorded |
| `Resolutions.ScanAnswersExactly` | internal/codes/service.go:941-957 | and it is answered as a direct lookup would be if and only if the keys are one, the short code was looked up, or what is filed under the key lands unrecorded |
| `Resolutions.StraySpaceHides` | internal/codes/service.go:945-949 | on a store reached by two operations, one scan of the live code with any white space before or after it makes the next scan of the code itself land as unknown, on either driver |
| `Resolutions.StrayLetterHides` | internal/store/sqlite/sqlite.go:570-580 | on the relational store the same for the Kelvin sign in place of its k |
| `Resolutions.EveryScanIsDirect` | internal/httpapi/public/redirect.go:105-123 | in every sequential run of mutations, expiries and scans whose keys are one, every scan has the outcome and the record decision of a direct lookup |
| `Resolutions.ScanSeesRow` | internal/httpapi/public/redirect.go:105-123 | told from the tables: a scan redirects, to the row's destination and recorded as that row, if and only if the row holding its key is active; other rows land, recorded unless deleted; a key nobody holds lands unrecorded |
| `Resolutions.ScanOfRow` | internal/httpapi/public/redirect.go:105-123 | the same for every row not deleted, scanned under its own short code |
| `Resolutions.EveryScanSeesRow` | internal/httpapi/public/redirect.go:105-123 | the same for every scan of every such run, cached or not |
| `Services.Service.Resolve` | internal/codes/service.go:941-957 | the scan path on the real maps: a looked-up answer is the store's, a cached one is exactly under the condition above, and the joint invariant is kept exactly when cache and store use one key, the key was cached or is yet to be invalidated, or what is filed under it lands unrecorded; afterwards the answer is cached under the trimmed, lower-cased short code |
| `Services.Service.HandleScan` | internal/httpapi/public/redirect.go:105-123 | the visitor is sent to the destination of the row that holds the short code if and only if that row is active, and the row is recorded if and only if it is not deleted |
| `Staleness.HitIsBoundedlyStale` | internal/codes/cache.go:16-22 | a cached answer was the store's answer at a moment less than the TTL plus the filling call's time from its miss to its fill ago, for every split of misses, reads, fills, writes and invalidations |
| `Staleness.MissIsFresh` | internal/codes/service.go:941-957 | an answer that was looked up was the store's answer between the call's miss and its answer |
| `Staleness.HitIsTheLastFill` | internal/codes/cache.go:56-60 | a hit is answered by the last fill before it with no invalidation in between, so what an invalidation removed is never answered again |
| `Recorders.RunPreservesInv` | internal/analytics/recorder.go:101-192 | every interleaving of callers, workers and close keeps conservation, the channel bound and the worker states |
| `Recorders.RunConserves` | internal/analytics/recorder.go:101-192 | in every interleaving recorded events are, as a multiset, those persisted, dropped, in the channel, being sent or held by workers |
| `Recorders.NoSendAfterClose` | internal/analytics/recorder.go:104-131 | no send follows the close |
| `Recorders.CleanClose` | internal/analytics/recorder.go:120-145 | when all workers have exited the channel is empty, Unflushed is zero, and every recorded event was persisted or counted as dropped |
| `Recorders.UnflushedCounts` | internal/analytics/recorder.go:141-145 | in every interleaving, events in the channel and in workers' hands exceed Unflushed by at most the number of workers that have received an event and not yet put it in their batch |
| `Recorders.LostOnlyWhen` | internal/analytics/recorder.go:101-192 | an event is given up only when the recorder is closed, the channel is full or the store refused its batch |
| `Recorders.BatchesStaySmall` | internal/analytics/recorder.go:147-172 | a collecting worker always holds less than a full batch, and no batch is larger |
| `Recorders.DrainingAdvances` | internal/analytics/recorder.go:147-192 | after the close every worker step but an idle tick lowers a natural measure, and no caller step raises it |
| `Recorders.DrainingNeverStuck` | internal/analytics/recorder.go:147-172 | after the close a running worker always has a step that is not an idle tick |
| `Rollups.BuildRollups` | internal/analytics/rollup.go:18-56 | the deltas are strictly key-sorted, one per key that anything falls under, each with exactly the number of events of that code and hour whose own field has the key's value |
| `Rollups.CountMeans` | internal/analytics/rollup.go:26-37 | a key counts the events whose code, hour and, by dimension, user agent family, device, referrer host or bot flag are the key's |
| `Rollups.CountPermutation` | internal/analytics/rollup.go:26-37 | counts do not depend on the order of events |
| `Rollups.TableIsDetermined` | internal/store/storetest/memstore.go:618-622 | two tables that count the same events, in any order and batching, are equal |
| `Rollups.ApplyConcat` | internal/store/storetest/memstore.go:618-622 | applying deltas in chunks is applying them at once |
| `Rollups.BatchIsCounted` | internal/store/storetest/memstore.go:593-624 | a batch's deltas move the table from counting the old events to counting old and new |
| `ScanStores.BatchingIsInvisible` | internal/analytics/rollup.go:18-56 | stores fed the same events in different batches hold the same table and give the same sums |
| `ScanStores.ScanStore.InsertScanBatch` | internal/store/storetest/memstore.go:593-624 | accepted if and only if every event and delta is well-formed; then events are appended in order and deltas added at the hour, otherwise nothing changes |
| `ScanStores.ScanStore.Flush` | internal/analytics/recorder.go:178-192 | a batch is persisted if and only if all its events name known codes and set times; then the table counts it as well, otherwise everything is as before |
| `ScanStores.ScanStore.FlushAll` | internal/analytics/recorder.go:147-192 | after any sequence of batches, some refused and some never reaching the store, the table counts exactly the accepted ones and the drop count makes up the rest |
| `Pipelines.RunIsBacked` | internal/analytics/recorder.go:174-192 | at every moment of every interleaving of callers, workers and close, the rollup table counts exactly the events the recorder holds for persisted |
| `Pipelines.EveryScanIsCountedOrDropped` | internal/analytics/recorder.go:120-145 | after a clean close every recorded scan is counted in the total, the series and every breakdown of every answer, or stands in the drop counter, each entry of a breakdown counting the events with its value |
| `Pipelines.Drive` | internal/analytics/recorder.go:147-192 | any sequence of moves of the recorder carried out against the store class is such a run, whichever batches get through |
| `ScanStores.BucketHoldsItsTime` | internal/store/sqlite/sqlite.go:949-962 | a bucket is an aligned interval holding its time; weeks start on Monday |
| `ScanStores.BucketsTile` | internal/store/sqlite/sqlite.go:949-962 | two times have the same bucket start if and only if one lies in the other's bucket |
| `ScanStores.ScanStore.QueryAnalytics` | internal/store/storetest/memstore.go:629-685 | total, series and every breakdown are the sums of the matching rollups, and total equals the series sum |
| `ScanStores.EveryAnswerAddsUp` | internal/store/storetest/memstore.go:629-685 | total, series sum and all four breakdown sums equal the number of persisted events whose hour is in range, for every range and bucket size |
| `ScanStores.EveryNumberCountsItsField` | internal/store/storetest/memstore.go:629-685 | the total, each point of the series and each entry of each breakdown is the number of persisted events in range with that bucket or that value in the field the breakdown is named for |
| `ScanStores.ScanStore.PruneScanEvents` | internal/store/storetest/memstore.go:689-731 | removes exactly min(limit, number older) events, the oldest by time and sequence, keeps the rest in order and the rollups untouched |
| `ScanStores.CompactInPlace` | internal/store/storetest/memstore.go:717-729 | filtering the list over its own backing array leaves the kept rows in front in order, never overwrites a row still to be read, and clears what is behind them |
| `ScanStores.ScanStore.OldestFirst` | internal/store/storetest/memstore.go:700-716 | the victims are the first old rows in (time, sequence) order |
| `Retentions.Retention.RunOnce` | internal/analytics/retention.go:84-103 | terminates, leaves exactly the events younger than the cutoff in order and returns how many went: those dated at or after the cutoff and no others |
| `Retentions.PruneKeepsYounger` | internal/analytics/retention.go:90-102 | dropping old rows never changes which rows are young |
| `Archives.Write` | internal/export/write.go:63-165 | the archive of either store holds every row of every table once, in ascending key order, without password hashes, with row counts in the manifest |
| `Archives.DumpSaysWhatIsThere` | internal/export/write.go:82-160 | row by row and field by field: accounts with everything but the password hash, codes and rollups as they are, the ledger with its dates, and the counts in the manifest |
| `Imports.Read` | internal/export/read.go:26-86 | refuses a non-empty store unless forced; otherwise replays the files in order into either store, and ends exactly as the row-by-row replay does, with an error if any row is refused or the manifest is missing |
| `Imports.ReadUsers` | internal/export/read.go:103-120 | users are created one by one without credentials; the first refusal stops the import |
| `Imports.ReadCode` | internal/export/read.go:125-147 | a code is created as it was, a deleted one as disabled and then deleted |
| `Imports.ReadCodes` | internal/export/read.go:125-149 | codes are recreated in order; the first refusal stops the import |
| `Imports.ReadReservations` | internal/export/read.go:155-169 | exactly the released reservations of imported codes are released again |
| `Imports.ReadRollups` | internal/export/read.go:171-204 | flushing in chunks of 500 is one insertion of all rows of imported codes, refused if and only if one of them is malformed |
| `RoundTrips.UsersImported` | internal/export/read.go:103-120 | users of a sound store are accepted again, in any order, if and only if no two emails are one to the importing driver, and come back without credentials |
| `RoundTrips.CodesImported` | internal/export/read.go:125-149 | recreating rows in any order goes through if and only if no two of them carry one short code and, on the relational store, owners exist and styling profiles differ; it restores each row, its reservation and nothing else |
| `RoundTrips.ReservationsImported` | internal/export/read.go:155-169 | once the rows are back every released reservation is released again without a refusal |
| `RoundTrips.RollupsImported` | internal/export/read.go:171-204 | importing the rows of a table into an empty one gives the same table |
| `RoundTrips.RoundTrip` | internal/export/read.go:13-86 | importing a store's archive into an empty store of either driver succeeds if and only if that driver can tell its rows apart, and then rebuilds users, rows, ledger and rollups, for every enumeration order: every account has its id, email, administrator flag, token version, source and dates again and no password |
| `RoundTrips.RebuiltAnswersAlike` | internal/export/read.go:15-25 | a rebuilt store has every key as taken and as resolved as before and the same client-ref lookups; of the same driver, it gives every string the same availability and the same scan outcome |
| `RoundTrips.ReuseBreaksImport` | internal/export/read.go:139-169 | from an importable store, a step makes its archive impossible to import if and only if it creates a row under a short code already in the ledger |
| `RoundTrips.ReuseIsReachable` | internal/export/read.go:139-169 | create a user, create, delete, release and create again, each accepted by either driver, reaches a store whose archive cannot be imported into that driver |
| `RoundTrips.ReachableIsExportable` | internal/export/write.go:63-165 | every store reached by operations with real clocks and ids meets the other conditions of the round trip into its own driver: owners exist and styling profiles differ along every relational run |
| `RoundTrips.RelationalTakesAllEmails` | internal/store/sqlite/sqlite.go:260-273 | emails of any sound store are told apart by the relational store |
| `RoundTrips.CountedTableOk` | internal/export/write.go:149-154 | so does every rollup table that counts events of known codes |
| `RoundTrips.CopyStore` | internal/export/read.go:26-86 | end to end: writing one store and reading the archive into an empty one, of whichever driver each is, succeeds exactly on the condition above and rebuilds it |
| `Geometries.ComputeGeometry` | internal/qr/shape.go:58-112 | for every grid, shape, margin and hole, runs and dots cover each dark module outside the hole exactly once and nothing else; corners are rounded exactly at light neighbours; no run of a non-square shape mixes finder and data modules |
| `Geometries.RunFrom` | internal/qr/shape.go:86-107 | a run begins and ends where modules do not belong together: at a light neighbour or, unless modules are square, where finder meets data |
| `Geometries.DarkMeans` | internal/qr/shape.go:64-69 | dark are the grid's dark modules outside the hole, and nothing outside the grid |
| `Geometries.FindersAre` | internal/qr/shape.go:70-72 | the finder regions are the seven modules at either end of both axes but for the lower right corner |
| `Geometries.HasSquareAt` | internal/qr/shape.go:113-122 | true if and only if a run without rounded corners covers the module |
| `Geometries.FindersStaySquare` | internal/qr/shape.go:58-112 | every dark finder module outside the hole is covered by a plain rectangle, whatever the shape |
| `LogoHoles.RawDataModules` | internal/qr/logo.go:103-116 | the formula gives the symbol area less its function patterns, which is the tabulated data capacity for each of the versions 1 to 40 (ISO/IEC 18004, Table 1) |
| `LogoHoles.LogoHole` | internal/qr/logo.go:118-139 | the hole is odd, centred, at least eight modules from each edge, within scale times the codeword area unless widened to three, and the largest such square |
| `LogoHoles.HoleSparesFinders` | internal/qr/logo.go:118-139 | clearing the hole leaves every finder module as it was |
| `LogoHoles.GeometryWithLogo` | internal/qr/shape.go:58-122 | with the computed hole in place every dark finder module is still drawn square, for every symbol, shape, margin and scale |
| `LogoHoles.ResolveLogoLevel` | internal/qr/logo.go:43-62 | the least level, not below the requested one, whose budget covers the scale; an answer exists if and only if there is one that may be used |
| `LogoHoles.BudgetsLeaveMargin` | internal/qr/logo.go:30-38 | each level's budget stays below the share it can recover, and budgets rise with the levels |
| `Rasters.EdgeMonotone` | internal/qr/render_png.go:30-39 | module edges in pixels never decrease |
| `Rasters.EdgesFit` | internal/qr/render_png.go:30-39 | edges stay inside the image and, below one pixel per module, run from 0 to the full size |
| `Rasters.EdgesAre` | internal/qr/render_png.go:30-39 | with a pixel per module or more, all modules are equally wide, as wide as fits, and the rest is split evenly around them; with less, each edge is the nearest pixel |
| `Rasters.BytesOfPixel` | internal/qr/render_png.go:206-214 | pixels lie row by row, four bytes each: red, green, blue, opaque |
| `Rasters.OwnerUnique` | internal/qr/render_png.go:30-39 | no pixel column or row belongs to two modules |
| `Rasters.OwnerExists` | internal/qr/render_png.go:30-39 | every pixel between the outer edges belongs to a module |
| `Rasters.Image.FillRow` | internal/qr/render_png.go:206-214 | paints exactly the bytes of one row's pixels |
| `Rasters.Image.FillRect` | internal/qr/render_png.go:206-214 | paints exactly the pixels of the rectangle, all writes in bounds |
| `Rasters.Image.FillAll` | internal/qr/render_png.go:216-225 | every pixel shows the colour |
| `Rasters.Image.RenderPlain` | internal/qr/render_png.go:53-73 | a pixel is foreground if and only if some plain run paints it; rounded runs are left for the curved pass |
| `Rasters.RenderSquare` | internal/qr/render_png.go:53-73 | for square modules, every symbol, hole, margin and size: a pixel is foreground if and only if the module owning its column and row is dark and outside the hole |
| `SvgPaths.EmitPlainRuns` | internal/qr/render_svg.go:33-55 | the loop over the builder emits the printed form of every run |
| `SvgPaths.PrintedExample` | internal/qr/render_svg.go:40-52 | a run of five modules at (3, 40) prints as M3 40h5v1h-5z |
| `SvgPaths.RunRead` | internal/qr/render_svg.go:40-52 | reading a printed run as path data gives its five commands, numbers and signs included, and the rest of the text |
| `SvgPaths.PathRoundTrip` | internal/qr/render_svg.go:33-55 | parsing the emitted text by the grammar of path data (SVG 1.1, section 8.3: signed numbers, separators, absolute and relative moveto, horizontal, vertical and closepath) yields the outline of every run |
| `SvgPaths.PrintedFills` | internal/qr/render_svg.go:33-55 | tracing the pen and filling by the nonzero rule, the document fills a pixel if and only if one of the runs covers it |
| `SvgPaths.RenderSquarePath` | internal/qr/render_svg.go:33-55 | under that reading the emitted path fills exactly the dark modules outside the hole, the module set the raster shows |
| `RateLimits.RateLimiter.Allow` | internal/httpapi/middleware/ratelimit.go:42-61 | refill, spend and answer as the bucket's level prescribes, with the advertised wait on denial |
| `RateLimits.RateLimiter.Evict` | internal/httpapi/middleware/ratelimit.go:63-74 | drops exactly the buckets idle for more than ten minutes |
| `RateLimits.EvictionUnobservable` | internal/httpapi/middleware/ratelimit.go:63-74 | in every run every request is answered as if no bucket were ever evicted |
| `RateLimits.WindowBound` | internal/httpapi/middleware/ratelimit.go:42-61 | in any window a peer is allowed at most the burst plus the rate times the window's length |
| `RateLimits.RetryIsHonoured` | internal/httpapi/middleware/ratelimit.go:87-89 | a denied peer that stays silent for the advertised whole seconds is allowed, whatever others did |
| `RateLimits.WaitIsTight` | internal/httpapi/middleware/ratelimit.go:42-61 | the advertised wait is at most one second longer than the refill takes |
| `RateLimits.BurstIsGranted` | internal/httpapi/middleware/ratelimit.go:29-40 | the first requests of a peer are all allowed, as many as a minute's worth, however close together |
| `TokenAuth.Authenticator.VerifySecret` | internal/auth/apitoken.go:90-127 | the cache, store, hash, revocation and expiry checks in order, with their effects on cache and last-used bookkeeping |
| `TokenAuth.Authenticator.Get` | internal/auth/authenticator.go:152-166 | a hit returns the entry without extending it, an expired entry is removed |
| `TokenAuth.Authenticator.Put` | internal/auth/authenticator.go:168-181 | stores the entry with a fresh expiry, sweeping only expired entries when full |
| `TokenAuth.Authenticator.NoteUse` | internal/auth/apitoken.go:129-148 | writes at most once per interval and sweeps only entries that are due |
| `TokenAuth.AcceptedExactlyWhen` | internal/auth/apitoken.go:90-127 | a token is accepted if and only if it exists, its hash matches, it has not expired and it is unrevoked or still cached from before its revocation |
| `TokenAuth.RevokedExactlyWhen` | internal/auth/apitoken.go:90-127 | "revoked" is said if and only if the token was looked up, its hash matches and it was revoked |
| `TokenAuth.AcceptedIsCached` | internal/auth/authenticator.go:152-181 | an accepted token is cached for one TTL from its lookup, and a hit keeps the old expiry |
| `TokenAuth.RevocationIsBounded` | internal/auth/apitoken.go:90-127 | no verification succeeds at or after revocation time plus the cache TTL, in any run |
| `TokenAuth.ExpiredIsRefused` | internal/auth/apitoken.go:113-117 | an expired token is refused even while cached |
| `TokenAuth.TouchesAreSpaced` | internal/auth/apitoken.go:129-148 | last-used writes of one token are at least the touch interval apart despite the sweep |
| `TokenAuth.UseIsWrittenWhenDue` | internal/auth/apitoken.go:129-148 | in every run a use is written if and only if the token was accepted and no use of it was written within the last minute |

## Left out

- Services.Service.CreateBatch: the rendering goroutines run one after the other; each writes only its own slots, so their order is not observable.
- Services.Service.Materialise: what a render produces is a value that records what was rendered; deleting a blob is assumed to succeed (the program only logs a failure there).
- Services.Service.Create: an insert and the invalidation that follows it are one step, as an edit and its invalidation are not. Other requests run to their end between two store calls; what they leave unfinished beforehand appears as rows on their way and keys still to be invalidated. A batch of somebody else appears as single creations one after the other. The same holds for CreateBatch, UpdateDestination, SetState and Delete.
- Services.Service.UpdateDestination: store reads fail only with "not found". The same holds for Create, CreateBatch, SetState and Delete.
- Services.Service.Resolve: the size bound and the TTL of the cache library appear as entries that may vanish at any time (`Resolutions.EveryScanIsDirect`) and as explicit expiry times (`Staleness`), not in the map of the service object.
- Services.Service.constructor: the service object is over the map store; that its scans meet the relational store's folding instead is covered by the driver of the tables in `Resolutions`.
- Domain.Lower: texts are sequences of Unicode scalar values; what Go and SQLite make of malformed UTF-8 is not modelled.
- Inputs.Prepare: URL parsing, allowed schemes, the self-reference check and the reserved-word list are parameters of the configuration; all alias faults but "reserved" are one error. Lengths count characters, where the program counts bytes of refs and of direct destinations.
- Drivers.SqlFault: SQLite does not document which of several violated constraints is reported, so only success and failure are compared between the stores.
- MemStores.MemStore.CreateUser: lookups by user id or email and token-version bumps are not modelled.
- SqliteStores.SqliteStore.CreateCodes: stored times are taken as microseconds already; the truncation of finer clock readings is not modelled.
- ScanStores.ScanStore.QueryAnalytics: series and breakdowns are maps; the order in which the program lists their entries is not modelled.
- Recorders.RunConserves: timers, the context deadline of Close and the flush timeout are free choices of the interleaving.
- Archives.Write: the tar and JSON encoding; an archive is the list of its files and a file the list of its rows. Token rows are opaque texts.
- Imports.Read: API tokens are not restored; the program does not restore them either.
- TokenAuth.Authenticator.VerifySecret: parsing and hashing of the presented secret are outside; hash equality is equality of values. The user cache beside it is not modelled.
- Rasters.RenderSquare: anti-aliased curves and the composited logo are not modelled.
- SvgPaths.PathRoundTrip: rounded runs and the document head are not modelled; of the path grammar, fractions, exponents, repeated argument groups and the curve, arc and general line commands are not read.
- RateLimits.RateLimiter.Allow: rates are at least one request a minute, as the configuration demands.
- The PostgreSQL driver states the same relational steps as the SQLite one and is not modelled separately.
- HTTP routing and handlers, console pages, configuration, QR codeword encoding, image decoding, contrast checks, password hashing, session tokens, and the filesystem and S3 blob drivers are outside the model.
