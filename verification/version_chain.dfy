/** Properties of the store across operations: snapshot numbering is
    contiguous per asset, snapshots hold the body from before the change,
    a failed snapshot is invisible to the caller, and the quirks of the
    type cache, the create path and the prefix query on `_id`. */
module VersionChain {
  import opened Base
  import Decimal
  import opened VersionSearch
  import opened InventoryDatastore

  /** The version a snapshot `_id` of asset `id` carries: the text after
      `"<id>."` read as an integer. */
  function OwnVersion(id: string, kid: string): Option<int64> {
    if |kid| > |id| && kid[..|id| + 1] == id + "." then Decimal.ParseInt(kid[|id| + 1..]) else None
  }

  /** `kid` is exactly the `_id` `CreateAssetVersion` gives some snapshot
      of asset `id`. */
  predicate IsOwnSnapshot(id: string, kid: string) {
    OwnVersion(id, kid).Some? && kid == SnapshotId(id, OwnVersion(id, kid).value)
  }

  /** Every snapshot `_id` names its asset and version, and reads back as
      them. */
  lemma SnapshotIdOwn(id: string, v: int64)
    ensures OwnVersion(id, SnapshotId(id, v)) == Some(v)
    ensures IsOwnSnapshot(id, SnapshotId(id, v))
    ensures IsPrefix(id, SnapshotId(id, v))
  {
    var s := SnapshotId(id, v);
    assert s[..|id| + 1] == id + ".";
    assert s[|id| + 1..] == Decimal.FormatInt(v);
    assert s[..|id|] == id;
    Decimal.FormatParseRoundTrip(v);
  }

  /** Distinct versions of one asset never share a snapshot `_id`. */
  lemma SnapshotIdInjective(id: string, v: int64, w: int64)
    requires SnapshotId(id, v) == SnapshotId(id, w)
    ensures v == w
  {
    SnapshotIdOwn(id, v);
    SnapshotIdOwn(id, w);
  }

  /** The `_id` of each version of asset `id`. */
  function SnapshotIdsOf(id: string): int64 -> string {
    (v: int64) => SnapshotId(id, v)
  }

  predicate Injective(ids: int64 -> string) {
    forall v, w :: ids(v) == ids(w) ==> v == w
  }

  lemma SnapshotIdsInjective(id: string)
    ensures Injective(SnapshotIdsOf(id))
  {
    forall v, w | SnapshotIdsOf(id)(v) == SnapshotIdsOf(id)(w)
      ensures v == w
    {
      SnapshotIdInjective(id, v, w);
    }
  }

  /** `docs` are the snapshots of one asset numbered 1 to n, where `ids`
      names the snapshot of each version: each carries its own number as
      version, and the newest one decodes. */
  predicate ChainDocs(docs: map<DocKey, Body>, t: string, ids: int64 -> string, n: int64) {
    && 0 <= n
    && ChainVersions(docs, t, ids, n)
    && (forall k :: k in docs ==> k.assetType == t && exists v: int64 :: 1 <= v <= n && k.id == ids(v))
    && (n >= 1 ==> AssetFieldsOk(docs[DocKey(t, ids(n))]))
  }

  /** Each of versions 1 to n is present and sorts on its own number. */
  predicate ChainVersions(docs: map<DocKey, Body>, t: string, ids: int64 -> string, n: int64) {
    forall v: int64 :: 1 <= v <= n ==>
      DocKey(t, ids(v)) in docs && SortValue(docs[DocKey(t, ids(v))]) == Some(v as real)
  }

  /** The invariant for the query as written: the documents the prefix
      query for `id` finds are exactly the snapshots 1 to n of the asset. */
  predicate ChainOk(versions: map<DocKey, Body>, t: string, id: string, n: int64) {
    ChainDocs(Matching(versions, t, id), t, SnapshotIdsOf(id), n)
  }

  /** The snapshots of the asset itself, ignoring other ids that share its
      prefix. */
  function OwnMatching(versions: map<DocKey, Body>, t: string, id: string): (m: map<DocKey, Body>)
    ensures forall k :: k in m <==> k in versions && k.assetType == t && IsOwnSnapshot(id, k.id)
    ensures forall k :: k in m ==> m[k] == versions[k]
  {
    map k | k in versions && k.assetType == t && IsOwnSnapshot(id, k.id) :: versions[k]
  }

  /** The invariant for the corrected query: the asset's own snapshots are
      exactly 1 to n; snapshots of other ids are unconstrained. */
  predicate OwnChainOk(versions: map<DocKey, Body>, t: string, id: string, n: int64) {
    ChainDocs(OwnMatching(versions, t, id), t, SnapshotIdsOf(id), n)
  }

  /** A body whose sort value is v decodes with version v. */
  lemma SortValueDecodes(b: Body, v: int64)
    requires SortValue(b) == Some(v as real) && AssetFieldsOk(b)
    ensures DecodeAssetData(b).Ok? && DecodeAssetData(b).value.version == v
  {
    assert (v as real).Floor == v;
  }

  /** The version a snapshot decodes with is the number it sorts on. */
  lemma VersionMatchesSortValue(b: Body, x: real)
    requires SortValue(b) == Some(x) && VersionField(b).Ok?
    ensures VersionField(b).value as real == x
  {
  }

  /** Asked for one document, the search returns one whenever there is one,
      and it ranks at least as high as every document. */
  lemma ListingTopOutranks(docs: map<DocKey, Body>, hits: seq<Hit>, k: DocKey)
    requires IsListing(docs, 1, hits) && k in docs
    ensures |hits| == 1 && Outranks(hits[0].body, docs[k])
  {
    assert k in docs.Keys;
    if hits[0].key != k {
      assert k !in KeysOf(hits);
    }
  }

  /** Whatever order the search returns ties in, the top hit over a
      non-empty contiguous chain is its newest snapshot. */
  lemma TopHitIsNewest(docs: map<DocKey, Body>, t: string, ids: int64 -> string, n: int64, hits: seq<Hit>)
    requires ChainDocs(docs, t, ids, n) && Injective(ids) && n >= 1
    requires IsListing(docs, 1, hits)
    ensures |hits| == 1 && hits[0].key == DocKey(t, ids(n)) && hits[0].body == docs[DocKey(t, ids(n))]
  {
    var top := DocKey(t, ids(n));
    ListingTopOutranks(docs, hits, top);
    var h := hits[0];
    assert h.key in docs;
    var w: int64 :| 1 <= w <= n && h.key.id == ids(w);
    assert h.key == DocKey(t, ids(w));
    assert SortValue(h.body) == Some(w as real);
    assert w == n;
  }

  /** Hence the version after a chain of n is n + 1. */
  lemma NextVersionOnChain(docs: map<DocKey, Body>, t: string, ids: int64 -> string, n: int64, hits: seq<Hit>)
    requires ChainDocs(docs, t, ids, n) && Injective(ids) && n < Int64Max
    requires IsListing(docs, 1, hits)
    ensures NextVersion(Ok(hits)) == Ok(n + 1)
  {
    if n == 0 {
      assert |hits| == 0;
    } else {
      TopHitIsNewest(docs, t, ids, n, hits);
      SortValueDecodes(hits[0].body, n);
      assert WrapInc(n) == n + 1;
    }
  }

  /** A snapshot body sorts on its own version number and keeps the
      decodable fields of its source. */
  lemma SnapshotBodyFacts(src: Body, v: int64)
    ensures SortValue(SnapshotBody(src, v)) == Some(v as real)
    ensures AssetFieldsOk(SnapshotBody(src, v)) <==> AssetFieldsOk(src)
  {
    var b := SnapshotBody(src, v);
    assert b - {VersionKey} == src - {VersionKey};
    FieldsOkOffVersion(src, b);
  }

  /** After writing snapshot n + 1, versions 1 to n + 1 are all present
      with their own numbers. */
  lemma ChainDocsExtendVersions(docs: map<DocKey, Body>, t: string, ids: int64 -> string, n: int64, src: Body)
    requires ChainVersions(docs, t, ids, n) && Injective(ids) && 0 <= n < Int64Max
    ensures ChainVersions(docs[DocKey(t, ids(n + 1)) := SnapshotBody(src, n + 1)], t, ids, n + 1)
  {
    var kn := DocKey(t, ids(n + 1));
    var b := SnapshotBody(src, n + 1);
    var docs' := docs[kn := b];
    SnapshotBodyFacts(src, n + 1);
    forall v: int64 | 1 <= v <= n + 1
      ensures DocKey(t, ids(v)) in docs' && SortValue(docs'[DocKey(t, ids(v))]) == Some(v as real)
    {
      if v <= n {
        assert ids(v) != ids(n + 1);
        assert docs'[DocKey(t, ids(v))] == docs[DocKey(t, ids(v))];
      } else {
        assert docs'[DocKey(t, ids(v))] == b;
      }
    }
  }

  /** After writing snapshot n + 1, every document is one of snapshots 1
      to n + 1. */
  lemma ChainDocsExtendKeys(docs: map<DocKey, Body>, t: string, ids: int64 -> string, n: int64, b: Body)
    requires ChainDocs(docs, t, ids, n) && n < Int64Max
    ensures var docs' := docs[DocKey(t, ids(n + 1)) := b];
            forall k :: k in docs' ==> k.assetType == t && exists v: int64 :: 1 <= v <= n + 1 && k.id == ids(v)
  {
    var kn := DocKey(t, ids(n + 1));
    var docs' := docs[kn := b];
    forall k | k in docs'
      ensures k.assetType == t && exists v: int64 :: 1 <= v <= n + 1 && k.id == ids(v)
    {
      if k != kn {
        assert k in docs;
        var v: int64 :| 1 <= v <= n && k.id == ids(v);
      } else {
        assert k.id == ids(n + 1);
      }
    }
  }

  /** Adding snapshot n + 1 to a chain of n gives a chain of n + 1. */
  lemma ChainDocsExtend(docs: map<DocKey, Body>, t: string, ids: int64 -> string, n: int64, src: Body)
    requires ChainDocs(docs, t, ids, n) && Injective(ids) && n < Int64Max && AssetFieldsOk(src)
    ensures ChainDocs(docs[DocKey(t, ids(n + 1)) := SnapshotBody(src, n + 1)], t, ids, n + 1)
  {
    var kn := DocKey(t, ids(n + 1));
    var b := SnapshotBody(src, n + 1);
    ChainDocsExtendVersions(docs, t, ids, n, src);
    ChainDocsExtendKeys(docs, t, ids, n, b);
    SnapshotBodyFacts(src, n + 1);
    assert docs[kn := b][kn] == b;
  }

  /** Writing a document the prefix query selects updates the selection
      the same way. */
  lemma MatchingUpdate(versions: map<DocKey, Body>, t: string, prefix: string, k: DocKey, b: Body)
    requires k.assetType == t && IsPrefix(prefix, k.id)
    ensures Matching(versions[k := b], t, prefix) == Matching(versions, t, prefix)[k := b]
  {
  }

  /** The same for the corrected selection. */
  lemma OwnMatchingUpdate(versions: map<DocKey, Body>, t: string, id: string, k: DocKey, b: Body)
    requires k.assetType == t && IsOwnSnapshot(id, k.id)
    ensures OwnMatching(versions[k := b], t, id) == OwnMatching(versions, t, id)[k := b]
  {
  }

  /** The version index after the snapshot of n + 1 still meets the
      invariant of the query as written. */
  lemma ChainOkExtend(versions: map<DocKey, Body>, t: string, id: string, n: int64, src: Body)
    requires ChainOk(versions, t, id, n) && n < Int64Max && AssetFieldsOk(src)
    ensures ChainOk(versions[DocKey(t, SnapshotId(id, n + 1)) := SnapshotBody(src, n + 1)], t, id, n + 1)
  {
    var kn := DocKey(t, SnapshotId(id, n + 1));
    SnapshotIdOwn(id, n + 1);
    MatchingUpdate(versions, t, id, kn, SnapshotBody(src, n + 1));
    SnapshotIdsInjective(id);
    ChainDocsExtend(Matching(versions, t, id), t, SnapshotIdsOf(id), n, src);
  }

  /** The same for the corrected invariant. */
  lemma OwnChainOkExtend(versions: map<DocKey, Body>, t: string, id: string, n: int64, src: Body)
    requires OwnChainOk(versions, t, id, n) && n < Int64Max && AssetFieldsOk(src)
    ensures OwnChainOk(versions[DocKey(t, SnapshotId(id, n + 1)) := SnapshotBody(src, n + 1)], t, id, n + 1)
  {
    var kn := DocKey(t, SnapshotId(id, n + 1));
    SnapshotIdOwn(id, n + 1);
    OwnMatchingUpdate(versions, t, id, kn, SnapshotBody(src, n + 1));
    SnapshotIdsInjective(id);
    ChainDocsExtend(OwnMatching(versions, t, id), t, SnapshotIdsOf(id), n, src);
  }

  /** `CreateAssetVersion` on a chain of n, with an answer the prefix query
      may give, writes the body it was given as snapshot n + 1 under
      `"<id>.<n+1>"`, and the chain grows by one. */
  lemma SnapshotExtendsChain(versions: map<DocKey, Body>, t: string, id: string, n: int64,
                             src: Body, hits: seq<Hit>)
    requires ChainOk(versions, t, id, n) && n < Int64Max && AssetFieldsOk(src)
    requires IsListing(Matching(versions, t, id), 1, hits)
    ensures CreateAssetVersion(versions, t, id, src, Ok(hits), false) ==
            Snapshot(Ok(SnapshotId(id, n + 1)), versions[DocKey(t, SnapshotId(id, n + 1)) := SnapshotBody(src, n + 1)])
    ensures ChainOk(CreateAssetVersion(versions, t, id, src, Ok(hits), false).versions, t, id, n + 1)
  {
    SnapshotIdsInjective(id);
    NextVersionOnChain(Matching(versions, t, id), t, SnapshotIdsOf(id), n, hits);
    ChainOkExtend(versions, t, id, n, src);
  }

  /** A successful edit without faults snapshots the body from before the
      edit as version n + 1 and keeps the numbering contiguous. */
  lemma EditExtendsChain(st: Store, t: string, id: string, data: Body, n: int64, hits: seq<Hit>)
    requires DocKey(t, id) in st.backend.primary && AssetFieldsOk(st.backend.primary[DocKey(t, id)])
    requires ChainOk(st.backend.versions, t, id, n) && n < Int64Max
    requires IsListing(Matching(st.backend.versions, t, id), 1, hits)
    ensures var r := EditAsset(st, t, id, data, NoFaults, Ok(hits));
            && r.result == Ok(id)
            && r.store.backend.versions ==
                 st.backend.versions[DocKey(t, SnapshotId(id, n + 1)) := SnapshotBody(st.backend.primary[DocKey(t, id)], n + 1)]
            && ChainOk(r.store.backend.versions, t, id, n + 1)
  {
    var src := st.backend.primary[DocKey(t, id)];
    SnapshotExtendsChain(st.backend.versions, t, id, n, src, hits);
    var r := EditAsset(st, t, id, data, NoFaults, Ok(hits));
    assert r.store.backend.versions == CreateAssetVersion(st.backend.versions, t, id, src, Ok(hits), false).versions;
  }

  /** A successful remove without faults snapshots the deleted body as
      version n + 1 and keeps the numbering contiguous. */
  lemma RemoveExtendsChain(st: Store, t: string, id: string, n: int64, hits: seq<Hit>)
    requires DocKey(t, id) in st.backend.primary && AssetFieldsOk(st.backend.primary[DocKey(t, id)])
    requires ChainOk(st.backend.versions, t, id, n) && n < Int64Max
    requires IsListing(Matching(st.backend.versions, t, id), 1, hits)
    ensures var r := RemoveAsset(st, t, id, NoFaults, Ok(hits));
            && r.found
            && DocKey(t, id) !in r.store.backend.primary
            && r.store.backend.versions ==
                 st.backend.versions[DocKey(t, SnapshotId(id, n + 1)) := SnapshotBody(st.backend.primary[DocKey(t, id)], n + 1)]
            && ChainOk(r.store.backend.versions, t, id, n + 1)
  {
    var src := st.backend.primary[DocKey(t, id)];
    SnapshotExtendsChain(st.backend.versions, t, id, n, src, hits);
    var r := RemoveAsset(st, t, id, NoFaults, Ok(hits));
    assert r.store.backend.versions == CreateAssetVersion(st.backend.versions, t, id, src, Ok(hits), false).versions;
  }

  /** Creating an asset writes no snapshot, so any chain is kept, under
      either query. */
  lemma CreateKeepsChain(st: Store, t: string, id: string, data: Body, createType: bool,
                         refreshed: Result<seq<string>>, faults: Faults, t': string, id': string, n: int64)
    requires ChainOk(st.backend.versions, t', id', n)
    ensures ChainOk(CreateAsset(st, t, id, data, createType, refreshed, faults).store.backend.versions, t', id', n)
  {
  }

  lemma CreateKeepsOwnChain(st: Store, t: string, id: string, data: Body, createType: bool,
                            refreshed: Result<seq<string>>, faults: Faults, t': string, id': string, n: int64)
    requires OwnChainOk(st.backend.versions, t', id', n)
    ensures OwnChainOk(CreateAsset(st, t, id, data, createType, refreshed, faults).store.backend.versions, t', id', n)
  {
  }

  /** The edited body keeps decodable string fields when both the old body
      and the update have them. */
  lemma MergeFieldsOk(current: Body, data: Body)
    requires AssetFieldsOk(current) && AssetFieldsOk(data)
    ensures AssetFieldsOk(Merge(current, data))
  {
    MergeFieldOk(current, data, "created_by");
    MergeFieldOk(current, data, "environment");
    MergeFieldOk(current, data, "status");
    MergeFieldOk(current, data, "updated_by");
    var m := Merge(current, data);
    forall k | k in m && k != VersionKey && EqualFold(k, VersionKey)
      ensures Int64Value(m[k])
    {
      if k in data {
        assert m[k] == data[k];
      }
    }
  }

  /** One string field of the edited body decodes when it decodes in both
      the old body and the update. */
  lemma MergeFieldOk(current: Body, data: Body, f: string)
    requires StringField(current, f).Ok? && StringField(data, f).Ok?
    ensures StringField(Merge(current, data), f).Ok?
  {
    var m := Merge(current, data);
    forall k | k in m && EqualFold(k, f)
      ensures StringValue(m[k])
    {
      if k in data {
        assert m[k] == data[k];
      }
    }
  }

  /** One edit of a run: the asset stays decodable and the chain grows by
      one. */
  lemma EditStep(st: Store, t: string, id: string, data: Body, n: int64, hits: seq<Hit>)
    requires DocKey(t, id) in st.backend.primary && AssetFieldsOk(st.backend.primary[DocKey(t, id)])
    requires AssetFieldsOk(data)
    requires ChainOk(st.backend.versions, t, id, n) && n < Int64Max
    requires IsListing(Matching(st.backend.versions, t, id), 1, hits)
    ensures var st' := EditAsset(st, t, id, data, NoFaults, Ok(hits)).store;
            && DocKey(t, id) in st'.backend.primary
            && AssetFieldsOk(st'.backend.primary[DocKey(t, id)])
            && ChainOk(st'.backend.versions, t, id, n + 1)
  {
    EditExtendsChain(st, t, id, data, n, hits);
    MergeFieldsOk(st.backend.primary[DocKey(t, id)], data);
  }

  /** Snapshot v of a chain of n, 1 <= v <= n, is in the version index. */
  lemma ChainHasSnapshot(versions: map<DocKey, Body>, t: string, id: string, n: int64, v: int64)
    requires ChainOk(versions, t, id, n) && 1 <= v <= n
    ensures DocKey(t, SnapshotId(id, v)) in versions
  {
    assert SnapshotIdsOf(id)(v) == SnapshotId(id, v);
  }

  /** What a run of edits keeps true: the asset is present and decodes,
      and its snapshots are 1 to n. */
  predicate EditableChain(st: Store, t: string, id: string, n: int64) {
    && DocKey(t, id) in st.backend.primary
    && AssetFieldsOk(st.backend.primary[DocKey(t, id)])
    && ChainOk(st.backend.versions, t, id, n)
  }

  /** One edit request: ask the version index for the latest snapshot, then
      edit. The chain is that of the prefix query, so it holds only while
      no other id of the type starts with `id`: an edit of asset
      `id + "0"` writes a snapshot the prefix query for `id` also finds,
      which `PrefixCollisionSkipsVersion` shows; `OwnEditOnce` and
      `OtherEditKeepsOwnChain` give the corrected query's guarantee. */
  method EditOnce(st: Store, t: string, id: string, data: Body, n: int64) returns (st': Store)
    requires EditableChain(st, t, id, n) && AssetFieldsOk(data) && n < Int64Max
    ensures EditableChain(st', t, id, n + 1)
  {
    var latest := GetAssetVersions(st.backend.versions, t, id, 1, false);
    EditStep(st, t, id, data, n, latest.value);
    st' := EditAsset(st, t, id, data, NoFaults, latest).store;
  }

  /** Whether the snapshot write fails, and whatever the latest-version
      query answered, an edit returns the same result and leaves the same
      current document and type cache; a failed snapshot leaves the version
      index untouched. */
  lemma EditSnapshotFailureInvisible(st: Store, t: string, id: string, data: Body, faults: Faults,
                                     latest: Result<seq<Hit>>, latest': Result<seq<Hit>>)
    ensures var a := EditAsset(st, t, id, data, faults.(snapshotFails := true), latest);
            var b := EditAsset(st, t, id, data, faults.(snapshotFails := false), latest');
            a.result == b.result && a.store.backend.primary == b.store.backend.primary &&
            a.store.cachedAssetTypes == b.store.cachedAssetTypes && a.store.backend.versions == st.backend.versions
  {
  }

  /** An update such as `{"status": 3}` is stored as sent, and every
      snapshot taken of the result fails to decode as `AssetData`. */
  lemma NumberStatusUndecodable(current: Body, v: int64)
    ensures !AssetFieldsOk(Merge(current, map["status" := JInt64(3)]))
    ensures !AssetFieldsOk(SnapshotBody(Merge(current, map["status" := JInt64(3)]), v))
  {
    var m := Merge(current, map["status" := JInt64(3)]);
    assert m["status"] == JInt64(3) && EqualFold("status", "status");
    SnapshotBodyFacts(m, v);
  }

  /** Once the newest snapshot of an asset fails to decode, an edit still
      succeeds but writes no snapshot: the error of `CreateAssetVersion` is
      only logged, so versioning stops without the client seeing it. */
  lemma UndecodableNewestStopsVersioning(st: Store, t: string, id: string, data: Body, faults: Faults,
                                         hits: seq<Hit>)
    requires DocKey(t, id) in st.backend.primary && !faults.getFails && !faults.writeFails
    requires |hits| >= 1 && !AssetFieldsOk(hits[0].body)
    ensures EditAsset(st, t, id, data, faults, Ok(hits)).result == Ok(id)
    ensures EditAsset(st, t, id, data, faults, Ok(hits)).store.backend.versions == st.backend.versions
  {
    assert NextVersion(Ok(hits)).Err?;
  }

  /** The same for a remove. */
  lemma RemoveSnapshotFailureInvisible(st: Store, t: string, id: string, faults: Faults,
                                       latest: Result<seq<Hit>>, latest': Result<seq<Hit>>)
    ensures var a := RemoveAsset(st, t, id, faults.(snapshotFails := true), latest);
            var b := RemoveAsset(st, t, id, faults.(snapshotFails := false), latest');
            a.found == b.found && a.store.backend.primary == b.store.backend.primary &&
            a.store.backend.versions == st.backend.versions
  {
  }

  /** A snapshot that was written can be fetched by its version number. */
  lemma SnapshotRetrievable(versions: map<DocKey, Body>, t: string, id: string, src: Body, latest: Result<seq<Hit>>)
    requires CreateAssetVersion(versions, t, id, src, latest, false).result.Ok?
    ensures var v := NextVersion(latest).value;
            GetAssetVersion(CreateAssetVersion(versions, t, id, src, latest, false).versions, t, id, v, false)
              == Ok(SnapshotBody(src, v))
  {
  }

  /** When the latest-version query fails, the snapshot is numbered 1 and
      replaces an existing snapshot 1 of the asset. */
  lemma FailedQueryOverwritesFirstSnapshot(versions: map<DocKey, Body>, t: string, id: string, src: Body, e: Error)
    requires DocKey(t, SnapshotId(id, 1)) in versions
    ensures var r := CreateAssetVersion(versions, t, id, src, Err(e), false);
            r.result == Ok(SnapshotId(id, 1)) &&
            r.versions[DocKey(t, SnapshotId(id, 1))] == SnapshotBody(src, 1) &&
            r.versions.Keys == versions.Keys
  {
  }

  /** A refresh that fails empties the cache: a type that was cached a
      moment ago is rejected when the next refresh fails too. */
  lemma FailedRefreshEmptiesCache(cache: seq<string>, t: string, cached: string, e: Error, e': Error)
    requires t !in cache && cached in cache
    ensures DoesAssetTypeExist(cache, t, Err(e)) == TypeCheck(Some(e), [])
    ensures DoesAssetTypeExist(cache, cached, Err(e')).err == None
    ensures DoesAssetTypeExist(DoesAssetTypeExist(cache, t, Err(e)).cache, cached, Err(e')).err == Some(e')
  {
  }

  /** When the read of an existing asset fails, `CreateAsset` overwrites the
      document and still reports failure. */
  lemma CreateOverwritesOnFailedRead(st: Store, t: string, id: string, data: Body, refreshed: Result<seq<string>>)
    requires DocKey(t, id) in st.backend.primary && st.backend.primary[DocKey(t, id)] != data
    ensures var r := CreateAsset(st, t, id, data, true, refreshed, Faults(true, false, false));
            r.result == Err(NotCreated) && r.store.backend.primary[DocKey(t, id)] == data
  {
  }

  /** The prefix query as written also finds the snapshots of every id
      that starts with `id`: when one of them (`other`, such as "web10.2"
      for asset "web1") carries a version above n, the next snapshot of an
      asset whose own snapshots are 1 to n is not numbered n + 1. */
  lemma PrefixCollisionSkipsVersion(versions: map<DocKey, Body>, t: string, id: string, other: string,
                                    n: int64, m: int64, src: Body, hits: seq<Hit>)
    requires OwnChainOk(versions, t, id, n) && n < m
    requires IsPrefix(id, other) && DocKey(t, other) in versions
    requires SortValue(versions[DocKey(t, other)]) == Some(m as real)
    requires IsListing(Matching(versions, t, id), 1, hits)
    ensures NextVersion(Ok(hits)) != Ok(n + 1)
    ensures CreateAssetVersion(versions, t, id, src, Ok(hits), false).result != Ok(SnapshotId(id, n + 1))
  {
    var k := DocKey(t, other);
    var docs := Matching(versions, t, id);
    assert k in docs;
    ListingTopOutranks(docs, hits, k);
    var h := hits[0];
    var d := DecodeAssetData(h.body);
    if d.Ok? {
      VersionMatchesSortValue(h.body, SortValue(h.body).value);
      assert d.value.version > n;
    }
  }

  /** The corrected query: the top snapshots among the asset's own ones
      only. */
  method GetOwnAssetVersions(versions: map<DocKey, Body>, assetType: string, id: string, count: nat,
                             searchFails: bool) returns (r: Result<seq<Hit>>)
    ensures r.Err? <==> searchFails
    ensures r.Ok? ==> IsListing(OwnMatching(versions, assetType, id), count, r.value)
  {
    if searchFails {
      return Err(Upstream);
    }
    var hits := SelectTop(OwnMatching(versions, assetType, id), count);
    return Ok(hits);
  }

  /** With the corrected query the next snapshot of an asset with own
      snapshots 1 to n is n + 1, whatever other ids share its prefix. */
  lemma OwnSnapshotExtendsChain(versions: map<DocKey, Body>, t: string, id: string, n: int64,
                                src: Body, hits: seq<Hit>)
    requires OwnChainOk(versions, t, id, n) && n < Int64Max && AssetFieldsOk(src)
    requires IsListing(OwnMatching(versions, t, id), 1, hits)
    ensures CreateAssetVersion(versions, t, id, src, Ok(hits), false) ==
            Snapshot(Ok(SnapshotId(id, n + 1)), versions[DocKey(t, SnapshotId(id, n + 1)) := SnapshotBody(src, n + 1)])
    ensures OwnChainOk(CreateAssetVersion(versions, t, id, src, Ok(hits), false).versions, t, id, n + 1)
  {
    SnapshotIdsInjective(id);
    NextVersionOnChain(OwnMatching(versions, t, id), t, SnapshotIdsOf(id), n, hits);
    OwnChainOkExtend(versions, t, id, n, src);
  }

  /** One edit with the corrected query: the asset stays decodable and its
      own snapshots grow from 1..n to 1..n + 1. */
  lemma OwnEditStep(st: Store, t: string, id: string, data: Body, n: int64, hits: seq<Hit>)
    requires DocKey(t, id) in st.backend.primary && AssetFieldsOk(st.backend.primary[DocKey(t, id)])
    requires AssetFieldsOk(data)
    requires OwnChainOk(st.backend.versions, t, id, n) && n < Int64Max
    requires IsListing(OwnMatching(st.backend.versions, t, id), 1, hits)
    ensures var st' := EditAsset(st, t, id, data, NoFaults, Ok(hits)).store;
            && DocKey(t, id) in st'.backend.primary
            && AssetFieldsOk(st'.backend.primary[DocKey(t, id)])
            && OwnChainOk(st'.backend.versions, t, id, n + 1)
  {
    var src := st.backend.primary[DocKey(t, id)];
    OwnSnapshotExtendsChain(st.backend.versions, t, id, n, src, hits);
    var r := EditAsset(st, t, id, data, NoFaults, Ok(hits));
    assert r.store.backend.versions == CreateAssetVersion(st.backend.versions, t, id, src, Ok(hits), false).versions;
    MergeFieldsOk(src, data);
  }

  /** What a run of edits keeps true with the corrected query. */
  predicate OwnEditableChain(st: Store, t: string, id: string, n: int64) {
    && DocKey(t, id) in st.backend.primary
    && AssetFieldsOk(st.backend.primary[DocKey(t, id)])
    && OwnChainOk(st.backend.versions, t, id, n)
  }

  /** One edit request with the corrected query: numbering stays contiguous
      whatever other ids share the asset's prefix. */
  method OwnEditOnce(st: Store, t: string, id: string, data: Body, n: int64) returns (st': Store)
    requires OwnEditableChain(st, t, id, n) && AssetFieldsOk(data) && n < Int64Max
    ensures OwnEditableChain(st', t, id, n + 1)
  {
    var latest := GetOwnAssetVersions(st.backend.versions, t, id, 1, false);
    OwnEditStep(st, t, id, data, n, latest.value);
    st' := EditAsset(st, t, id, data, NoFaults, latest).store;
  }

  /** A snapshot `_id` determines its asset and its version: the version
      prints without a '.', so the last '.' ends the asset id. */
  lemma SnapshotIdSplit(a: string, v: int64, b: string, w: int64)
    requires SnapshotId(a, v) == SnapshotId(b, w)
    ensures a == b && v == w
  {
    var s := SnapshotId(a, v);
    DotEndsId(a, v, |b|);
    DotEndsId(b, w, |a|);
    assert a == s[..|a|] && b == s[..|b|];
    Decimal.FormatIntInjective(v, w);
  }

  /** No '.' of a snapshot `_id` lies after the one ending the asset id. */
  lemma DotEndsId(a: string, v: int64, i: nat)
    requires i < |SnapshotId(a, v)| && SnapshotId(a, v)[i] == '.'
    ensures i <= |a|
  {
    var s := SnapshotId(a, v);
    var f := Decimal.FormatInt(v);
    assert forall j :: |a| + 1 <= j < |s| ==> s[j] == f[j - |a| - 1];
  }

  /** A snapshot of another asset is never one of this asset's own. */
  lemma OtherSnapshotNotOwn(id: string, other: string, v: int64)
    requires other != id
    ensures !IsOwnSnapshot(id, SnapshotId(other, v))
  {
    var kid := SnapshotId(other, v);
    if IsOwnSnapshot(id, kid) {
      SnapshotIdSplit(other, v, id, OwnVersion(id, kid).value);
    }
  }

  /** Writing a document that is not one of the asset's own snapshots
      leaves its own chain as it was. */
  lemma OtherWriteKeepsOwnChain(versions: map<DocKey, Body>, t: string, id: string, n: int64, k: DocKey, b: Body)
    requires OwnChainOk(versions, t, id, n)
    requires k.assetType != t || !IsOwnSnapshot(id, k.id)
    ensures OwnChainOk(versions[k := b], t, id, n)
  {
    assert OwnMatching(versions[k := b], t, id) == OwnMatching(versions, t, id);
  }

  /** The snapshot of another asset, whatever number it gets, leaves this
      asset's own chain as it was. */
  lemma OtherSnapshotKeepsOwnChain(versions: map<DocKey, Body>, t: string, id: string, n: int64,
                                   t': string, id': string, src: Body, latest: Result<seq<Hit>>, snapshotFails: bool)
    requires OwnChainOk(versions, t, id, n)
    requires t' != t || id' != id
    ensures OwnChainOk(CreateAssetVersion(versions, t', id', src, latest, snapshotFails).versions, t, id, n)
  {
    var s := CreateAssetVersion(versions, t', id', src, latest, snapshotFails);
    if s.result.Ok? {
      var v := NextVersion(latest).value;
      if t' == t {
        OtherSnapshotNotOwn(id, id', v);
      }
      OtherWriteKeepsOwnChain(versions, t, id, n, DocKey(t', SnapshotId(id', v)), SnapshotBody(src, v));
    }
  }

  /** An edit of another asset, under any faults and any answer of its
      latest-version query, leaves this asset's own chain as it was. */
  lemma OtherEditKeepsOwnChain(st: Store, t: string, id: string, n: int64, t': string, id': string,
                               data: Body, faults: Faults, latest: Result<seq<Hit>>)
    requires OwnChainOk(st.backend.versions, t, id, n)
    requires t' != t || id' != id
    ensures OwnChainOk(EditAsset(st, t', id', data, faults, latest).store.backend.versions, t, id, n)
  {
    if DocKey(t', id') in st.backend.primary {
      OtherSnapshotKeepsOwnChain(st.backend.versions, t, id, n, t', id', st.backend.primary[DocKey(t', id')],
                                 latest, faults.snapshotFails);
    }
  }

  /** The same for a remove of another asset. */
  lemma OtherRemoveKeepsOwnChain(st: Store, t: string, id: string, n: int64, t': string, id': string,
                                 faults: Faults, latest: Result<seq<Hit>>)
    requires OwnChainOk(st.backend.versions, t, id, n)
    requires t' != t || id' != id
    ensures OwnChainOk(RemoveAsset(st, t', id', faults, latest).store.backend.versions, t, id, n)
  {
    if DocKey(t', id') in st.backend.primary {
      OtherSnapshotKeepsOwnChain(st.backend.versions, t, id, n, t', id', st.backend.primary[DocKey(t', id')],
                                 latest, faults.snapshotFails);
    }
  }
}
