# infra-inventory: versioned asset store, version diffs and write validation

This project models three pieces of the `inventory` package of
infra-inventory, an asset inventory service backed by Elasticsearch:

- **the version-diff engine** (`inventory/version_diff.go`), in module
  `VersionDiffs`. It covers `parseVersion` and `GenerateVersionDiffs`.
  `GenerateVersionDiffs` walks a newest-first run of snapshot maps and
  produces one `VersionDiff` record per adjacent pair. It also mutates the
  caller's maps, which the model returns explicitly.
- **the versioned asset store** (`inventory/inventory_datastore.go`), in
  module `InventoryDatastore`. It is a functional state machine over a
  `Store`, which holds:
  - a primary index `(type, id) -> body`;
  - a version index `(type, "<id>.<version>") -> body with version`;
  - the cached list of asset types.
  Each operation is a pure function from the store before to the result
  and the store after. What the cluster answers that cannot be computed
  from the store comes in as parameters: the freshly listed types, the
  answer of the latest-version query, and which requests fail (`Faults`).
  Module `VersionSearch` states what the prefix/sort query of
  `GetAssetVersions` may answer (`IsListing`; ties in the sort may come back
  in any order), with a selection sort that meets it.
- **write-request validation and status codes**
  (`inventory/asset_handler.go`), in module `AssetHandler`. It covers
  `checkWriteRequest` after JSON decoding, and the status decisions of
  `assetPostPutHandler`, `assetGetVersionHandler` and the DELETE branch of
  `AssetHandler`.

Supporting modules:

- `Base`: the JSON value, `int64`, `Result`/`Option`, the error kinds,
  Go's float-to-int64 conversion and ASCII case folding.
- `Decimal`: `%d` formatting and `strconv.ParseInt(s, 10, 64)`.
- `VersionChain`: properties across operations. Snapshot numbering is
  contiguous per asset, a snapshot holds the body from before the change,
  and a failed snapshot is invisible to the caller. It also covers the
  quirks of the type cache, of the create path and of the prefix query.

Go's map iteration order is unspecified. Operations that iterate over a map
(`ListAssetTypes`, the key pass of `checkWriteRequest`) are methods that
pick the next key nondeterministically. Their contracts hold for every
order.

## Model

| member | source | states |
|---|---|---|
| Base.TruncTowardZero | inventory/version_diff.go:28-31 | converting a float64 version drops its fractional part toward zero: the result lies between 0 and the value and is less than one away from it |
| Base.FloatToInt64 | inventory/version_diff.go:28-31 | a float64 version inside the int64 range loses its fractional part toward zero; one outside the range becomes the minimum int64 |
| Base.EqualFold | inventory/asset_handler.go:31 | two keys match exactly when they are equal after ASCII upper case is folded to lower case; matching keys have the same length |
| Decimal.ParseInt | inventory/asset_handler.go:137 | the `version` query text is accepted exactly when it is an optional `+` or `-` followed by one or more decimal digits whose value fits an int64 (down to -2^63 after `-`); the value is the one the digits denote, negated after `-` |
| Decimal.FormatInt | inventory/inventory_datastore.go:183-184 | the `%d` text of a number is non-empty, starts with `-` exactly when the number is negative, is otherwise all digits, and never holds a '.' |
| Decimal.FormatParseRoundTrip | inventory/asset_handler.go:137-143 | every int64 printed with `%d` parses back to itself, so a version number written into a snapshot id can be asked for by its decimal text |
| Decimal.FormatIntInjective | inventory/inventory_datastore.go:183-184 | distinct version numbers never print to the same text |
| VersionDiffs.ParseVersion | inventory/version_diff.go:26-43 | `parseVersion` succeeds exactly on float64, int64 and int values; int64 and int come back unchanged; an in-range float comes back truncated toward zero; anything else, nil included, is an `UnparseableVersion` error carrying the value |
| VersionDiffs.ParseVersionRoundTrip | inventory/version_diff.go:26-43 | a version number parses back to itself whether held as an int, an int64, or the float64 that a JSON round trip turns it into; a map without the key has no version |
| VersionDiffs.LabelInjective | inventory/version_diff.go:79-81 | the `v%d` labels of distinct versions differ, so the two sides of a diff are told apart |
| VersionDiffs.PairDiff | inventory/version_diff.go:60-85 | a pair record exists exactly when both versions parse and both serialisations and the diff succeed; its `Version` is the newer map's version, its `AgainstVersion` the older map's, and its text is the diff from the older map's serialisation without "version", labelled with the older version, to the newer one's, labelled with the newer version; otherwise the error is that of the first failing step, in the order newer version, older version, newer serialisation, older serialisation, diff |
| VersionDiffs.RestoredMapSameRecord | inventory/version_diff.go:87 | putting the parsed version back as an int64 does not change the record the map later yields as the newer side of the next pair |
| VersionDiffs.DiffRecordsEntries | inventory/version_diff.go:48-88 | the records of the first k pairs exist exactly when none of those pairs fails, and entry j is then the record of maps j and j+1 |
| VersionDiffs.DiffPairInPlace | inventory/version_diff.go:60-87 | one loop iteration computes the pair record of maps i and i+1; afterwards map i has lost "version", map i+1 has it back as the int64 it parsed to, and every other map and every other key is unchanged; on an error the maps are untouched when the newer version does not parse, only map i has lost "version" when the older one does not parse, and both have lost it when a later step fails |
| VersionDiffs.StageOffKey | inventory/version_diff.go:64-87 | at every point of the loop the maps differ from the caller's only in their "version" keys |
| VersionDiffs.DiffStep | inventory/version_diff.go:48-88 | an iteration on the maps as earlier iterations left them yields the record computed from the caller's original maps, and either extends the records so far by it or fixes the overall result to its error |
| VersionDiffs.DiffLoop | inventory/version_diff.go:46-89 | for n >= 1 maps, the list has n-1 entries; on success entry i is the record of pair i; on the first failing pair its error is returned, the entries before it are filled and the later ones are zero; on success every map but the last has lost "version" and the last has it as its parsed int64; on an error at pair i the maps before i have lost "version", maps i and i+1 stand as `DiffPairInPlace` leaves them, and later maps are untouched |
| VersionDiffs.GenerateVersionDiffs | inventory/version_diff.go:45-90 | as written: panics exactly when there is no input; one input gives an empty list, no error and untouched maps; otherwise the records, the error and the maps left behind are those `DiffLoop` states, and every map differs from the caller's only in "version" |
| VersionDiffs.GenerateVersionDiffsTotal | inventory/version_diff.go:45-51 | corrected: zero or one input gives an empty list with no error; otherwise n-1 records or the error of the first failing pair; on an error it names that pair, every record from it on is zero-valued, and the maps are left with the pairs before it stripped and the rest as they came |
| VersionSearch.OutranksTotalPreorder | inventory/inventory_datastore.go:207 | sorting on "version" descending with missing values last is a total preorder, so the sorted answer exists |
| VersionSearch.Matching | inventory/inventory_datastore.go:206-209 | the prefix query selects exactly the documents of the type whose `_id` starts with the asset id |
| VersionSearch.SelectTop | inventory/inventory_datastore.go:205-210 | the search answer: min(count, matches) distinct matching documents with their bodies, in descending version order, none left out ranking above one returned |
| InventoryDatastore.GetAsset | inventory/inventory_datastore.go:29-35 | succeeds exactly when the document is present and the read works, returning its body; otherwise "Not found" for that type and id |
| InventoryDatastore.ListAssetTypes | inventory/inventory_datastore.go:130-156 | a failed request or decode is passed on; otherwise each type under the index's mappings appears exactly once, "_default_" excluded |
| InventoryDatastore.DoesAssetTypeExist | inventory/inventory_datastore.go:38-55 | a cached type is accepted without refresh; on a miss the cache becomes the refreshed list, or empty when the refresh fails, and the check succeeds exactly when the type is in the resulting cache; a miss after a successful refresh reports an invalid type |
| InventoryDatastore.CreateAsset | inventory/inventory_datastore.go:57-81 | an unknown type without `createType` fails and writes nothing; a readable existing asset fails with "already exists" and writes nothing; success happens exactly when the asset is absent and the write works, and then the data is stored under the id; no snapshot is ever written; a failed read of an existing asset lets the write overwrite it and still fail |
| InventoryDatastore.SnapshotId | inventory/inventory_datastore.go:183-184 | the snapshot `_id` is the asset id, a '.', and the `%d` text of the version, which parses back to the version |
| InventoryDatastore.SnapshotBody | inventory/inventory_datastore.go:180-184 | the snapshot is the pre-change body with "version" set to the new number and every other key kept |
| InventoryDatastore.StringField | inventory/inventory_datastore.go:11-15 | a string field of `AssetData` decodes exactly when every key equal to its name up to case holds a string or null; the value is that of the exact key, empty when it is absent or null |
| InventoryDatastore.VersionField | inventory/inventory_datastore.go:16 | the `int64` version decodes exactly when every key equal to "version" up to case holds null or an integer within int64; the value is the exact key's number, 0 when absent or null |
| InventoryDatastore.DecodeAssetData | inventory/inventory_datastore.go:175-180 | the latest snapshot decodes exactly when its four string fields and every case variant of "version" decode, and carries the exact key's version |
| InventoryDatastore.DecodeFoldsKeys | inventory/inventory_datastore.go:175-178 | a number under "Status" makes the decoding fail, since keys are matched to fields without regard to case |
| InventoryDatastore.DecodeExactKeyWins | inventory/inventory_datastore.go:175-178 | when "Status" and "status" both hold strings, the decoded status is that of "status" |
| InventoryDatastore.FieldsOkOffVersion | inventory/inventory_datastore.go:175-184 | whether the string fields decode does not depend on the exact "version" key, which the snapshot overwrites |
| InventoryDatastore.DecodeSnapshotVersion | inventory/inventory_datastore.go:172-184 | a snapshot written with version v decodes back with version v |
| InventoryDatastore.WrapInc | inventory/inventory_datastore.go:180 | `ba.Version + 1` is the successor below the int64 maximum and wraps to the minimum at it |
| InventoryDatastore.NextVersion | inventory/inventory_datastore.go:169-181 | the new version is 1 when the latest-version query fails or finds nothing; otherwise one more than the version decoded from the top hit, or that decoding error |
| InventoryDatastore.CreateAssetVersion | inventory/inventory_datastore.go:163-191 | succeeds exactly when a version number is found and the write works; it then stores the pre-change body plus that version under `"<id>.<version>"` and returns that id; a failure leaves the version index unchanged |
| InventoryDatastore.MergeValue | inventory/inventory_datastore.go:90 | an object sent for an object field is merged into it key by key, keeping the old keys it lacks, adding its new ones and merging the values of keys in both the same way, at every depth; any other value replaces the old one |
| InventoryDatastore.Merge | inventory/inventory_datastore.go:90 | the partial update keeps every old field, a field of the update replaces the old value unless both are objects, and a field present on both sides takes the recursive merge of the two values, so two objects are merged over the union of their keys |
| InventoryDatastore.MergeIdempotent | inventory/inventory_datastore.go:90 | sending the same partial update twice leaves what sending it once left |
| InventoryDatastore.MergeValueSelf | inventory/inventory_datastore.go:90 | an update whose value equals the stored one, at any depth, changes nothing |
| InventoryDatastore.MergeEmpty | inventory/inventory_datastore.go:90 | an empty update changes nothing |
| InventoryDatastore.EditAsset | inventory/inventory_datastore.go:83-103 | a missing or unreadable asset is "Not found" and changes nothing; success happens exactly when the asset is present and the read and update work; the current document is then the merge and the snapshot written is the pre-edit body, whatever the snapshot's outcome |
| InventoryDatastore.CreateThenGet | inventory/inventory_datastore.go:29-81 | reading an asset after a create that succeeded returns exactly the body that was written |
| InventoryDatastore.EditThenGet | inventory/inventory_datastore.go:29-103 | reading an asset after an edit that succeeded returns the old body merged with the update, and every other asset reads as before |
| InventoryDatastore.RemoveAsset | inventory/inventory_datastore.go:107-128 | reports true exactly when the asset is present and the read and delete work; it then removes the current document and snapshots the pre-delete body; otherwise nothing changes |
| InventoryDatastore.GetAssetVersion | inventory/inventory_datastore.go:194-202 | returns the snapshot stored under `"<id>.<version>"` exactly when present and readable, else "Not found" naming that key |
| InventoryDatastore.GetAssetVersions | inventory/inventory_datastore.go:205-210 | fails exactly when the search fails; otherwise it is a valid answer of the prefix query sorted by version descending, of size at most `count` |
| VersionChain.SnapshotIdOwn | inventory/inventory_datastore.go:183-184 | the snapshot id `"<id>.<v>"` starts with the asset id and reads back as version v |
| VersionChain.SnapshotIdInjective | inventory/inventory_datastore.go:183-184 | distinct versions of one asset never share a snapshot id |
| VersionChain.SortValueDecodes | inventory/inventory_datastore.go:175-180 | a snapshot that sorts on v and has decodable fields decodes with version v |
| VersionChain.VersionMatchesSortValue | inventory/inventory_datastore.go:175-180 | the version a hit decodes with is the number the search sorted it on |
| VersionChain.ListingTopOutranks | inventory/inventory_datastore.go:205-210 | asked for one document, the search returns one whenever any matches, ranking at least as high as every match |
| VersionChain.TopHitIsNewest | inventory/inventory_datastore.go:169-180 | over a contiguous chain 1..n, the top hit is snapshot n, whatever order ties come back in |
| VersionChain.NextVersionOnChain | inventory/inventory_datastore.go:169-181 | after a chain 1..n the next version is n+1 (1 for an empty chain) |
| VersionChain.SnapshotBodyFacts | inventory/inventory_datastore.go:180-184 | a snapshot body sorts on its own version, and its fields decode exactly when those of its source do |
| VersionChain.ChainOkExtend | inventory/inventory_datastore.go:183-184 | writing snapshot n+1 of an asset whose matching snapshots are 1..n makes them 1..n+1 |
| VersionChain.SnapshotExtendsChain | inventory/inventory_datastore.go:163-191 | on a chain 1..n, `CreateAssetVersion` writes the given body as snapshot n+1 under `"<id>.<n+1>"` and the chain becomes 1..n+1 |
| VersionChain.EditExtendsChain | inventory/inventory_datastore.go:83-103 | an edit without faults returns the id, snapshots the pre-edit body as version n+1, and keeps numbering contiguous |
| VersionChain.RemoveExtendsChain | inventory/inventory_datastore.go:107-128 | a remove without faults reports true, deletes the current document, snapshots the deleted body as version n+1, and keeps numbering contiguous |
| VersionChain.CreateKeepsChain | inventory/inventory_datastore.go:57-81 | creating an asset writes no snapshot, so every chain is kept |
| VersionChain.CreateKeepsOwnChain | inventory/inventory_datastore.go:57-81 | the same for the asset's own snapshots |
| VersionChain.MergeFieldsOk | inventory/inventory_datastore.go:90 | an update of a decodable asset with decodable fields leaves a decodable asset |
| VersionChain.EditStep | inventory/inventory_datastore.go:83-103 | one edit keeps the asset present and decodable and grows its chain by one |
| VersionChain.ChainHasSnapshot | inventory/inventory_datastore.go:194-198 | every version 1..n of a chain is stored under its snapshot id |
| VersionChain.EditOnce | inventory/inventory_datastore.go:83-103 | one edit request, latest-version query included, turns an editable asset with snapshots 1..n into one with snapshots 1..n+1 |
| VersionChain.EditSnapshotFailureInvisible | inventory/inventory_datastore.go:95-102 | whether the snapshot fails and whatever the latest-version query says, an edit returns the same result and leaves the same current documents and cache; a failed snapshot leaves the version index untouched |
| VersionChain.RemoveSnapshotFailureInvisible | inventory/inventory_datastore.go:120-127 | the same for a remove |
| VersionChain.SnapshotRetrievable | inventory/inventory_datastore.go:194-198 | a snapshot that was written is fetched back by its version number |
| VersionChain.FailedQueryOverwritesFirstSnapshot | inventory/inventory_datastore.go:169-172 | when the latest-version query fails, the snapshot is numbered 1 and replaces an existing snapshot 1 |
| VersionChain.FailedRefreshEmptiesCache | inventory/inventory_datastore.go:46-48 | a failed refresh empties the cache, so a type that was cached is rejected when the next refresh fails too |
| VersionChain.CreateOverwritesOnFailedRead | inventory/inventory_datastore.go:65-78 | when the read of an existing asset fails, create overwrites the document and still reports failure |
| VersionChain.NumberStatusUndecodable | inventory/inventory_datastore.go:90 | an update `{"status": 3}` is stored as sent, and neither the edited body nor any snapshot of it decodes as `AssetData` |
| VersionChain.UndecodableNewestStopsVersioning | inventory/inventory_datastore.go:95-100 | once the newest snapshot does not decode, an edit still succeeds but writes no snapshot |
| VersionChain.PrefixCollisionSkipsVersion | inventory/inventory_datastore.go:205-210 | as written: when another id starting with the asset id has a snapshot numbered above n, the next snapshot of an asset with own snapshots 1..n is not numbered n+1 |
| VersionChain.GetOwnAssetVersions | inventory/inventory_datastore.go:205-210 | corrected query: a valid sorted answer over the asset's own snapshots only |
| VersionChain.OwnSnapshotExtendsChain | inventory/inventory_datastore.go:163-191 | corrected: the next snapshot of an asset with own snapshots 1..n is n+1, whatever other ids share its prefix |
| VersionChain.OwnEditStep | inventory/inventory_datastore.go:83-103 | corrected: one edit keeps the asset present and decodable and grows its own snapshots from 1..n to 1..n+1 |
| VersionChain.OwnEditOnce | inventory/inventory_datastore.go:83-103 | corrected: one edit request, with the latest-version query restricted to the asset's own snapshots, keeps numbering contiguous whatever other ids share the prefix |
| VersionChain.SnapshotIdSplit | inventory/inventory_datastore.go:183-184 | a snapshot `_id` determines both its asset id and its version |
| VersionChain.OtherSnapshotNotOwn | inventory/inventory_datastore.go:183-184 | a snapshot of another asset is never one of this asset's own |
| VersionChain.OtherWriteKeepsOwnChain | inventory/inventory_datastore.go:183-184 | writing a document that is not one of the asset's own snapshots keeps its own snapshots 1..n |
| VersionChain.OtherSnapshotKeepsOwnChain | inventory/inventory_datastore.go:163-191 | a snapshot of another asset, whatever number it gets, keeps this asset's own snapshots 1..n |
| VersionChain.OtherEditKeepsOwnChain | inventory/inventory_datastore.go:83-103 | an edit of another asset, under any faults and any latest-version answer, keeps this asset's own snapshots 1..n |
| VersionChain.OtherRemoveKeepsOwnChain | inventory/inventory_datastore.go:107-128 | the same for a remove of another asset |
| AssetHandler.EqualFoldEquivalence | inventory/asset_handler.go:31 | case-insensitive key matching is reflexive, symmetric and transitive |
| AssetHandler.TrimSpace | inventory/asset_handler.go:37 | the trimmed value is no longer than the input and neither starts nor ends with white space |
| AssetHandler.TrimSpaceKeepsCore | inventory/asset_handler.go:37 | trimming keeps exactly the run from the first to the last non-space character |
| AssetHandler.TrimSpaceEmptyIff | inventory/asset_handler.go:37-38 | the trimmed value is empty exactly when the input is all white space |
| AssetHandler.TrimSpaceIdempotent | inventory/asset_handler.go:37 | trimming twice removes nothing more |
| AssetHandler.FirstFold | inventory/asset_handler.go:29-31 | finds the first configured required field that the key matches case-insensitively, or reports that none matches |
| AssetHandler.CheckField | inventory/asset_handler.go:29-50 | a key matching no required field passes through with its value; a matching key needs a string (else "must be a string" for the field), whose trimmed value must be non-empty (else "value required"), and is stored trimmed under the configured spelling |
| AssetHandler.StoreAll | inventory/asset_handler.go:25-52 | the key pass succeeds exactly when every key is kept; otherwise it fails with the error of some rejected key; on success the result has exactly the destination keys, each holding the value of some key sent there |
| AssetHandler.NormalisedUnique | inventory/asset_handler.go:26-52 | when every key is kept under a distinct destination, the normalised body is the same in every iteration order |
| AssetHandler.NormaliseBody | inventory/asset_handler.go:25-52 | the key loop succeeds exactly when no key is rejected, and then stores what `StoreAll` states; when no two keys fold to the same required field, the result is exactly the normalised body |
| AssetHandler.NormalisedKeys | inventory/asset_handler.go:42-49 | a key is in the normalised body exactly when some body key is stored under it |
| AssetHandler.FirstMissing | inventory/asset_handler.go:55-60 | finds the first configured required field that is not a key, or reports that all are present |
| AssetHandler.CheckPresent | inventory/asset_handler.go:54-61 | the POST check passes exactly when every required field was provided, and returns the data unchanged; otherwise it reports "field required" for the first one missing |
| AssetHandler.CheckWriteRequest | inventory/asset_handler.go:14-63 | a rejected key fails with its error; otherwise PUT always succeeds and POST succeeds exactly when every required field was provided, else "field required" for the first missing one; a success is the normalised body |
| AssetHandler.PostPutResponse | inventory/asset_handler.go:99-131 | a validation error is 400 and touches nothing; POST creates with `createType` set and PUT edits; the answer is 200 exactly when validation passes and the create or edit succeeds, with body `{"id": "<id>"}`; a validated request whose create or edit fails is 404 carrying that error; the code is always 200, 400 or 404 |
| AssetHandler.WriteAnswer | inventory/asset_handler.go:121-129 | any datastore error, "already exists" included, is a 404 carrying the error; success is a 200 carrying the id |
| AssetHandler.DuplicatePostIs404 | inventory/asset_handler.go:112-124 | POST of a readable existing asset is a 404 reporting "already exists" and changes no document |
| AssetHandler.PostCreatesUnregisteredType | inventory/asset_handler.go:113-114 | POST of a new asset succeeds even when its type is unknown and the type listing fails |
| AssetHandler.GetVersionResponse | inventory/asset_handler.go:136-162 | a version text that is not a base-10 int64 is a 404; otherwise a failed snapshot lookup is 404 with its error, a snapshot that does not assemble is 400 with the assembly error, and one that assembles is 200 with the document; 200 happens exactly when the snapshot exists and is readable and assembles; the code is always 200, 400 or 404 |
| AssetHandler.BadVersionSkipsLookup | inventory/asset_handler.go:137-141 | the answer to an unparseable version does not depend on the version index or on whether reads fail |
| AssetHandler.GetVersionFindsSnapshot | inventory/asset_handler.go:137-143 | asking for the version a snapshot was just written with, in decimal, finds that snapshot |
| AssetHandler.DeleteResponse | inventory/asset_handler.go:192-198 | DELETE answers 200 exactly when the asset is present and the read and delete work, else 500, with no body; on 200 the asset is gone, on 500 nothing changed |

## Left out

- All I/O is left out: the HTTP request and response, the Elasticsearch
  client and logging. The cluster's answers are parameters.
  - `refreshed`: the listed types, the result of `ListAssetTypes`.
  - `latest`: the search hits.
  - `resp`: the decoded `_mapping` answer.
  - `Faults`: which read or write fails.
- Reading the request body and `json.Unmarshal` in `checkWriteRequest`
  (inventory/asset_handler.go:15-23) are left out. The model starts from
  the decoded map.
- `GenerateDiff` (difflib) and `json.MarshalIndent` are left uninterpreted,
  as the parameters `generateDiff` and `marshalIndent`. Their output text
  is not modelled.
- `AssembleResponseFromBaseResponse` is the parameter `assemble`.
  `inventory/handler_utils.go` is not part of this model. The ignored
  `json.Marshal` error at inventory/asset_handler.go:157 is not modelled.
- Response headers (Content-Type) are not modelled. Error texts are error
  kinds, not formatted strings.
- `assetGetHandler` (inventory/asset_handler.go:68-93) and
  `AssetVersionsHandler` (inventory/asset_handler.go:207-258) are left out.
  They are plain reads plus response assembly outside the modelled core.
- In `CreateAssetVersion`, the decoding of the stored `_source`
  (inventory/inventory_datastore.go:165-167) is left out: a body the store
  returns always decodes in the model.
- The `Created`, `Found` and `Id` fields of the cluster's answers are
  derived from the store. A create reports "created" exactly when the key
  was absent. A delete after a successful read reports "found". The id
  returned is the one requested.
- Concurrency is left out: the version-number race between concurrent
  edits, and concurrent cache refreshes. Operations run one at a time.
- JSON numbers are exact rationals. float64 rounding, such as versions
  above 2^53, is not modelled.
- Base.EqualFold: models `strings.EqualFold` and the key matching of
  `encoding/json` with ASCII case folding only; Unicode simple folding
  (such as 'K' and the Kelvin sign) and invalid UTF-8 are not modelled.
- Go's `int64(f)` for an out-of-range float is implementation-defined. The
  model takes the amd64 result, the minimum int64.
- The filter and sort query compiler is not part of this model.
  `buildQuery` (inventory/inventory_handler.go:138-153) only calls into a
  library whose code is not available.
- AssetHandler.CheckWriteRequest: if two body keys fold to the same
  required field, it says only that the stored value is one of theirs, and
  an error is the error of some rejected key. Go's map iteration order
  decides both. With no clash the result is exact (`Normalises`).
- VersionChain.EditOnce: states a single edit step, for an asset whose id
  is not a prefix of another id with snapshots (`ChainOk`). A run of edits
  follows by repeating it. No lemma over a whole sequence of edits is
  stated. `VersionChain.OwnEditOnce` is the same step with the corrected
  query, and has no such restriction. Editing asset `id + "0"` writes a
  snapshot the prefix query for `id` also finds, so `ChainOk` for `id` is
  not kept by edits of other assets (`PrefixCollisionSkipsVersion`); the
  own-snapshot chain is (`OtherEditKeepsOwnChain`).
- VersionDiffs.GenerateVersionDiffs: the maps are values, so one map
  passed twice (`GenerateVersionDiffs(m, m)`) is two equal maps. In Go both
  arguments are the same map: deleting "version" from the first removes it
  from the second, whose parse then fails. The model succeeds there.
- InventoryDatastore.StringField: Go stores the value of the matching key
  that comes last in the document text. The model reads the exact key,
  which is last when the keys are sorted as `json.Marshal` writes them,
  and reads the field as empty when only a case variant is present. Only
  which string is read can differ; whether decoding fails is exact.
- InventoryDatastore.VersionField: likewise, a version held only under a
  case variant reads as 0 in the model.
- InventoryDatastore.Merge: Elasticsearch's handling of `detect_noop` and
  of scripts is not modelled; the merge is the recursive object merge of a
  plain partial update.
- InventoryDatastore.GetAssetVersions: the asset id is spliced into the
  JSON text of the query without escaping
  (inventory/inventory_datastore.go:206-208). An id holding a `"` changes or
  breaks the query. The model takes the query as the prefix query for the
  id as given.
- InventoryDatastore.NextVersion: the search sees a snapshot only after the
  index refreshes, about once a second. Two edits in quick succession can
  both read the same newest snapshot and write the same number, the second
  overwriting the first. The model has every written snapshot visible at
  once.
- VersionChain.EditOnce: also, contiguity is proved only for updates whose fields
  decode (`AssetFieldsOk`). An update such as `{"status": 3}` is stored as
  sent. The next edit snapshots that body, and from then on the newest
  snapshot does not decode, so every later edit succeeds without a snapshot
  (`NumberStatusUndecodable`, `UndecodableNewestStopsVersioning`). Required
  fields are checked to be strings by `checkWriteRequest`; other fields of
  `AssetData`, and case variants of "version", are not.

## Findings

| source | as written | input that shows it | evidently intended | confidence | as-written member | corrected member |
|---|---|---|---|---|---|---|
| inventory/version_diff.go:46 | the result list is allocated with length `len(versions)-1` before any check, which panics for an empty argument list | `GET /<type>/<id>/versions?diff` for an asset with no snapshots: the search finds 0 hits and the handler calls `GenerateVersionDiffs()` with no maps (inventory/asset_handler.go:219-238) | no pairs, so an empty list and no error | not executed | VersionDiffs.GenerateVersionDiffs | VersionDiffs.GenerateVersionDiffsTotal |
| inventory/inventory_datastore.go:205-210 | the latest-version query is a prefix query on `_id`, so it also matches the snapshots of every id that starts with the asset id | asset "web1" with snapshots "web1.1" and "web1.2", and asset "web10" with a snapshot "web10.5" of version 5: the next snapshot of "web1" is numbered 6, not 3 | only the asset's own snapshots `"<id>.<n>"` count, so the next version is 3 | not executed | VersionChain.PrefixCollisionSkipsVersion | VersionChain.OwnSnapshotExtendsChain |
