/** The versioned asset store (`InventoryDatastore`) as a state machine
    over an in-memory picture of the two Elasticsearch indices: the primary
    index holding the current document of every asset, the version index
    holding the snapshots, and the cached list of asset types. Each
    operation is a pure function from the state before to the result and the
    state after. What the cluster answers that the model cannot derive from
    this state — the freshly listed types, the answer of the latest-version
    query, and whether a request fails — comes in as parameters. */
module InventoryDatastore {
  import opened Base
  import Decimal
  import opened VersionSearch

  /** The two indices. Keys are (mapping type, `_id`); in the version index
      the `_id` of a snapshot is `"<asset id>.<version>"`. */
  datatype Backend = Backend(primary: map<DocKey, Body>, versions: map<DocKey, Body>)

  datatype Store = Store(backend: Backend, cachedAssetTypes: seq<string>)

  /** Which requests to the cluster fail during one operation: the read of
      the current document, the write to the primary index, and the write
      of the snapshot. */
  datatype Faults = Faults(getFails: bool, writeFails: bool, snapshotFails: bool)

  const NoFaults := Faults(false, false, false)

  /** A result together with the store as the operation leaves it. */
  datatype Outcome<+T> = Outcome(result: Result<T>, store: Store)

  /** `AssetData`, the struct the latest snapshot is decoded into. */
  datatype AssetData = AssetData(createdBy: string, environment: string, status: string,
                                 updatedBy: string, version: int64)

  /** The decoded `_mapping` response: index name to section name to type
      name to mapping. */
  type Mapping = map<string, map<string, map<string, Json>>>

  predicate Distinct(s: seq<string>) {
    forall i, j :: 0 <= i < j < |s| ==> s[i] != s[j]
  }

  /** The `_id` of the snapshot of asset `id` at version v. */
  function SnapshotId(id: string, v: int64): (r: string)
    ensures |r| > |id| + 1 && r[..|id|] == id && r[|id|] == '.'
    ensures r[|id| + 1..] == Decimal.FormatInt(v)
    ensures Decimal.ParseInt(r[|id| + 1..]) == Some(v)
  {
    Decimal.FormatParseRoundTrip(v);
    id + "." + Decimal.FormatInt(v)
  }

  /** The snapshot document: the asset's body with its version number, as
      the JSON number the version index stores. */
  function SnapshotBody(src: Body, v: int64): (r: Body)
    ensures r.Keys == src.Keys + {VersionKey}
    ensures r[VersionKey] == JFloat(v as real)
    ensures forall f :: f in src && f != VersionKey ==> r[f] == src[f]
  {
    src[VersionKey := JFloat(v as real)]
  }

  /** `GetAsset`: the current document, or "Not found" when it is absent or
      the read fails. */
  function GetAsset(b: Backend, assetType: string, id: string, getFails: bool): (r: Result<Body>)
    ensures r.Ok? <==> !getFails && DocKey(assetType, id) in b.primary
    ensures r.Ok? ==> r.value == b.primary[DocKey(assetType, id)]
    ensures r.Err? ==> r.error == NotFound(assetType, id)
  {
    var k := DocKey(assetType, id);
    if !getFails && k in b.primary then Ok(b.primary[k]) else Err(NotFound(assetType, id))
  }

  /** The type names `ListAssetTypes` reports for a decoded mapping
      response: the type keys under the index's "mappings", less
      "_default_"; none when the index or the section is absent. */
  function MappedTypes(m: Mapping, index: string): set<string> {
    if index in m && "mappings" in m[index] then m[index]["mappings"].Keys - {"_default_"} else {}
  }

  /** `ListAssetTypes`: every mapped type exactly once, in the order Go's
      map iteration happens to give, or the error of the request or of
      decoding its answer. */
  method ListAssetTypes(resp: Result<Mapping>, index: string) returns (r: Result<seq<string>>)
    ensures resp.Err? ==> r == Err(resp.error)
    ensures resp.Ok? ==> r.Ok?
    ensures r.Ok? ==> Distinct(r.value)
    ensures r.Ok? ==> forall t :: t in r.value <==> t in MappedTypes(resp.value, index)
    ensures r.Ok? ==> |r.value| == |MappedTypes(resp.value, index)|
  {
    if resp.Err? {
      return Err(resp.error);
    }
    var m := resp.value;
    var mappings: map<string, Json> := if index in m && "mappings" in m[index] then m[index]["mappings"] else map[];
    if "_default_" in mappings {
      mappings := mappings - {"_default_"};
    }
    var types: seq<string> := [];
    var left := mappings.Keys;
    while left != {}
      invariant left <= mappings.Keys
      invariant forall t :: t in types <==> t in mappings && t !in left
      invariant |types| + |left| == |mappings|
      invariant Distinct(types)
      decreases |left|
    {
      var k :| k in left;
      types := types + [k];
      left := left - {k};
    }
    assert mappings.Keys == MappedTypes(m, index);
    return Ok(types);
  }

  /** The answer of `doesAssetTypeExist` and the type cache it leaves. */
  datatype TypeCheck = TypeCheck(err: Option<Error>, cache: seq<string>)

  /** `doesAssetTypeExist`: a type in the cache is accepted as is; otherwise
      the cache is replaced by the freshly listed types (`refreshed`, the
      result of `ListAssetTypes`), emptied when that listing fails, and the
      type is looked up again. */
  function DoesAssetTypeExist(cache: seq<string>, assetType: string, refreshed: Result<seq<string>>): (r: TypeCheck)
    ensures assetType in cache ==> r == TypeCheck(None, cache)
    ensures assetType !in cache && refreshed.Ok? ==> r.cache == refreshed.value
    ensures assetType !in cache && refreshed.Err? ==> r == TypeCheck(Some(refreshed.error), [])
    ensures r.err == None <==> assetType in r.cache
    ensures r.err.Some? && refreshed.Ok? ==> r.err == Some(InvalidAssetType(assetType))
  {
    if assetType in cache then TypeCheck(None, cache)
    else if refreshed.Err? then TypeCheck(Some(refreshed.error), [])
    else if assetType in refreshed.value then TypeCheck(None, refreshed.value)
    else TypeCheck(Some(InvalidAssetType(assetType)), refreshed.value)
  }

  /** `CreateAsset`: check the type (unless `createType`), refuse an asset
      that can be read, then index the data. The index request reports
      whether it created the document; when the read failed although the
      document exists, the write overwrites it and the call still fails. */
  function CreateAsset(st: Store, assetType: string, id: string, data: Body, createType: bool,
                       refreshed: Result<seq<string>>, faults: Faults): (r: Outcome<string>)
    ensures r.store.cachedAssetTypes == DoesAssetTypeExist(st.cachedAssetTypes, assetType, refreshed).cache
    ensures r.store.backend.versions == st.backend.versions
    ensures var tc := DoesAssetTypeExist(st.cachedAssetTypes, assetType, refreshed);
            tc.err.Some? && !createType ==> r.result == Err(tc.err.value) && r.store.backend == st.backend
    ensures var tc := DoesAssetTypeExist(st.cachedAssetTypes, assetType, refreshed);
            (tc.err == None || createType) && DocKey(assetType, id) in st.backend.primary && !faults.getFails ==>
              r.result == Err(AlreadyExists(id)) && r.store.backend == st.backend
    ensures var tc := DoesAssetTypeExist(st.cachedAssetTypes, assetType, refreshed);
            r.result.Ok? <==> (tc.err == None || createType) && DocKey(assetType, id) !in st.backend.primary && !faults.writeFails
    ensures r.result.Ok? ==> r.result.value == id
    ensures r.result.Ok? ==> r.store.backend.primary == st.backend.primary[DocKey(assetType, id) := data]
    ensures var tc := DoesAssetTypeExist(st.cachedAssetTypes, assetType, refreshed);
            var overwrite := (tc.err == None || createType) && DocKey(assetType, id) in st.backend.primary &&
                             faults.getFails && !faults.writeFails;
            (overwrite ==> r.result == Err(NotCreated) &&
                           r.store.backend.primary == st.backend.primary[DocKey(assetType, id) := data]) &&
            (r.result.Err? && !overwrite ==> r.store.backend == st.backend)
  {
    var tc := DoesAssetTypeExist(st.cachedAssetTypes, assetType, refreshed);
    var st1 := st.(cachedAssetTypes := tc.cache);
    var k := DocKey(assetType, id);
    if tc.err.Some? && !createType then Outcome(Err(tc.err.value), st1)
    else if GetAsset(st.backend, assetType, id, faults.getFails).Ok? then Outcome(Err(AlreadyExists(id)), st1)
    else if faults.writeFails then Outcome(Err(Upstream), st1)
    else
      var created := k !in st.backend.primary;
      var st2 := st1.(backend := st.backend.(primary := st.backend.primary[k := data]));
      if !created then Outcome(Err(NotCreated), st2) else Outcome(Ok(id), st2)
  }

  /** A value `encoding/json` accepts for a `string` field: null (which
      leaves the field empty) or a string. */
  predicate StringValue(v: Json) {
    v.JNull? || v.JString?
  }

  /** A value `encoding/json` accepts for an `int64` field: null, a whole
      number within int64, or a Go-side integer. */
  predicate Int64Value(v: Json) {
    v.JNull? || (v.JFloat? && IsInt64Float(v.f)) || v.JInt64? || v.JInt?
  }

  /** Reads a `string` field of `AssetData`. `encoding/json` decodes every
      key equal to the field's name up to case into the field, so the
      decoding fails when any of them holds anything but a string or null.
      The value is that of the exact key, which a document written by
      `json.Marshal` lists after all its case variants. */
  function StringField(b: Body, f: string): (r: Result<string>)
    ensures r.Ok? <==> forall k :: k in b && EqualFold(k, f) ==> StringValue(b[k])
    ensures r.Ok? ==> (if f in b && b[f].JString? then r.value == b[f].s else r.value == "")
  {
    if forall k :: k in b && EqualFold(k, f) ==> StringValue(b[k]) then
      (if f in b && b[f].JString? then Ok(b[f].s) else Ok(""))
    else Err(BadAssetData)
  }

  /** Reads the `int64` field `version` the same way: every key equal to
      "version" up to case must hold an integer-valued number or null; the
      value is that of the exact key, 0 when it is absent or null. */
  function VersionField(b: Body): (r: Result<int64>)
    ensures r.Ok? <==> forall k :: k in b && EqualFold(k, VersionKey) ==> Int64Value(b[k])
    ensures r.Ok? && Get(b, VersionKey).JFloat? ==> r.value as real == Get(b, VersionKey).f
    ensures r.Ok? && (Get(b, VersionKey).JInt64? || Get(b, VersionKey).JInt?) ==> r.value == Get(b, VersionKey).i
    ensures r.Ok? && Get(b, VersionKey).JNull? ==> r.value == 0
  {
    if forall k :: k in b && EqualFold(k, VersionKey) ==> Int64Value(b[k]) then
      var v := Get(b, VersionKey);
      if v.JFloat? then Ok(v.f.Floor)
      else if v.JInt64? || v.JInt? then Ok(v.i)
      else Ok(0)
    else Err(BadAssetData)
  }

  /** The body decodes into `AssetData` apart from its own "version" value:
      the four string fields decode, and every case variant of "version"
      other than the exact key holds an integer or null. */
  predicate AssetFieldsOk(b: Body) {
    && StringField(b, "created_by").Ok? && StringField(b, "environment").Ok?
    && StringField(b, "status").Ok? && StringField(b, "updated_by").Ok?
    && (forall k :: k in b && k != VersionKey && EqualFold(k, VersionKey) ==> Int64Value(b[k]))
  }

  /** `json.Unmarshal` of a snapshot into `AssetData`: every field must
      decode; keys that match no field are ignored. */
  function DecodeAssetData(b: Body): (r: Result<AssetData>)
    ensures r.Ok? <==> AssetFieldsOk(b) && Int64Value(Get(b, VersionKey))
    ensures r.Ok? ==> r.value.version == VersionField(b).value
  {
    var c :- StringField(b, "created_by");
    var e :- StringField(b, "environment");
    var s :- StringField(b, "status");
    var u :- StringField(b, "updated_by");
    var v :- VersionField(b);
    Ok(AssetData(c, e, s, u, v))
  }

  /** Keys are matched without regard to case: a number under "Status"
      makes the decoding fail. */
  lemma DecodeFoldsKeys()
    ensures DecodeAssetData(map["Status" := JInt64(5)]).Err?
  {
    assert EqualFold("Status", "status");
  }

  /** A body where the exact key "status" and its case variant "Status"
      both hold strings. */
  function TwoStatuses(): Body {
    map["Status" := JString("up"), "status" := JString("down")]
  }

  /** When a key and its case variant both hold strings, the exact key
      supplies the value. */
  lemma DecodeExactKeyWins()
    ensures DecodeAssetData(TwoStatuses()) == Ok(AssetData("", "", "down", "", 0))
  {
    TwoStatusesStatus();
    TwoStatusesOthers();
  }

  lemma TwoStatusesStatus()
    ensures StringField(TwoStatuses(), "status") == Ok("down")
    ensures VersionField(TwoStatuses()) == Ok(0)
  {
    var b := TwoStatuses();
    assert b.Keys == {"Status", "status"};
    assert forall k :: k in b ==> |k| == 6 && StringValue(b[k]);
  }

  lemma TwoStatusesOthers()
    ensures StringField(TwoStatuses(), "created_by") == Ok("")
    ensures StringField(TwoStatuses(), "environment") == Ok("")
    ensures StringField(TwoStatuses(), "updated_by") == Ok("")
  {
    var b := TwoStatuses();
    assert b.Keys == {"Status", "status"};
    AbsentFieldEmpty(b, "created_by");
    AbsentFieldEmpty(b, "environment");
    AbsentFieldEmpty(b, "updated_by");
  }

  /** A field with no key of its length decodes as the empty string. */
  lemma AbsentFieldEmpty(b: Body, f: string)
    requires forall k :: k in b ==> |k| != |f|
    ensures StringField(b, f) == Ok("")
  {
  }

  /** Whether a body decodes apart from its version does not depend on
      its exact "version" key. */
  lemma FieldsOkOffVersion(a: Body, b: Body)
    requires a - {VersionKey} == b - {VersionKey}
    ensures AssetFieldsOk(a) <==> AssetFieldsOk(b)
  {
    SameOffVersion(a, b);
    SameOffVersion(b, a);
  }

  /** Bodies equal but for "version" agree on every other key. */
  lemma SameOffVersion(a: Body, b: Body)
    requires a - {VersionKey} == b - {VersionKey}
    ensures forall k :: k in a && k != VersionKey ==> k in b && a[k] == b[k]
  {
    forall k | k in a && k != VersionKey
      ensures k in b && a[k] == b[k]
    {
      assert k in a - {VersionKey};
      assert a[k] == (a - {VersionKey})[k];
    }
  }

  /** A snapshot written from a body whose string fields decode reads back
      with exactly the version it was written with. */
  lemma DecodeSnapshotVersion(src: Body, v: int64)
    requires AssetFieldsOk(src)
    ensures DecodeAssetData(SnapshotBody(src, v)).Ok?
    ensures DecodeAssetData(SnapshotBody(src, v)).value.version == v
  {
    var b := SnapshotBody(src, v);
    assert b - {VersionKey} == src - {VersionKey};
    FieldsOkOffVersion(src, b);
  }

  /** Go's `ba.Version + 1` on an int64: wraps from the maximum to the
      minimum. */
  function WrapInc(v: int64): (r: int64)
    ensures v < Int64Max ==> r == v + 1
    ensures v == Int64Max ==> r == Int64Min
  {
    if v == Int64Max then Int64Min else v + 1
  }

  /** The version number `CreateAssetVersion` gives the new snapshot, from
      the answer of the latest-version query: 1 when the query fails or
      finds nothing, otherwise one more than the version decoded from the
      first hit, or the decoding error. */
  function NextVersion(latest: Result<seq<Hit>>): (r: Result<int64>)
    ensures latest.Err? || |latest.value| == 0 ==> r == Ok(1)
    ensures latest.Ok? && |latest.value| > 0 ==>
              (r.Ok? <==> DecodeAssetData(latest.value[0].body).Ok?) &&
              (r.Ok? ==> r.value == WrapInc(DecodeAssetData(latest.value[0].body).value.version))
  {
    if latest.Err? || |latest.value| < 1 then Ok(1)
    else
      var ba :- DecodeAssetData(latest.value[0].body);
      Ok(WrapInc(ba.version))
  }

  /** The `_id` written and the version index afterwards. */
  datatype Snapshot = Snapshot(result: Result<string>, versions: map<DocKey, Body>)

  /** `CreateAssetVersion`: stores `src`, the body of the asset before the
      change, with its next version number under `"<id>.<version>"`.
      `latest` is the answer to `GetAssetVersions(assetType, id, 1)`. */
  function CreateAssetVersion(versions: map<DocKey, Body>, assetType: string, id: string, src: Body,
                              latest: Result<seq<Hit>>, snapshotFails: bool): (r: Snapshot)
    ensures r.result.Ok? <==> NextVersion(latest).Ok? && !snapshotFails
    ensures r.result.Ok? ==>
              var v := NextVersion(latest).value;
              r.result.value == SnapshotId(id, v) &&
              r.versions == versions[DocKey(assetType, SnapshotId(id, v)) := SnapshotBody(src, v)]
    ensures r.result.Err? ==> r.versions == versions
  {
    match NextVersion(latest)
    case Err(e) => Snapshot(Err(e), versions)
    case Ok(v) =>
      var k := DocKey(assetType, SnapshotId(id, v));
      if snapshotFails then Snapshot(Err(Upstream), versions)
      else Snapshot(Ok(k.id), versions[k := SnapshotBody(src, v)])
  }

  /** The value a partial update leaves in one field. Elasticsearch merges
      an object into an object field by field, at every depth; any other
      new value, null included, replaces the old one. */
  function MergeValue(cur: Json, upd: Json): (r: Json)
    decreases upd
    ensures !(cur.JObject? && upd.JObject?) ==> r == upd
    ensures cur.JObject? && upd.JObject? ==>
              r.JObject? && r.fields.Keys == cur.fields.Keys + upd.fields.Keys &&
              (forall f :: f in cur.fields && f !in upd.fields ==> r.fields[f] == cur.fields[f]) &&
              (forall f :: f in upd.fields && f !in cur.fields ==> r.fields[f] == upd.fields[f]) &&
              (forall f :: f in cur.fields && f in upd.fields ==> r.fields[f] == MergeValue(cur.fields[f], upd.fields[f]))
  {
    if cur.JObject? && upd.JObject? then
      JObject(map f | f in cur.fields.Keys + upd.fields.Keys ::
        if f !in upd.fields then cur.fields[f]
        else if f in cur.fields then MergeValue(cur.fields[f], upd.fields[f])
        else upd.fields[f])
    else upd
  }

  /** The partial update `{"doc": data}`: every field of the document is
      kept, a field of `data` replaces the old value unless both are
      objects, and two objects are merged. */
  function Merge(current: Body, data: Body): (r: Body)
    ensures r.Keys == current.Keys + data.Keys
    ensures forall f :: f in current && f !in data ==> r[f] == current[f]
    ensures forall f :: f in data && !(f in current && current[f].JObject? && data[f].JObject?) ==> r[f] == data[f]
    ensures forall f :: f in data && f in current && current[f].JObject? && data[f].JObject? ==>
              r[f].JObject? && r[f].fields.Keys == current[f].fields.Keys + data[f].fields.Keys
    ensures forall f :: f in current && f in data ==> r[f] == MergeValue(current[f], data[f])
  {
    MergeValue(JObject(current), JObject(data)).fields
  }

  /** Sending the same partial update twice leaves what sending it once
      left. */
  lemma {:induction false} MergeValueIdempotent(cur: Json, upd: Json)
    decreases upd
    ensures MergeValue(MergeValue(cur, upd), upd) == MergeValue(cur, upd)
  {
    if cur.JObject? && upd.JObject? {
      var m := MergeValue(cur, upd);
      var m2 := MergeValue(m, upd);
      forall f | f in upd.fields
        ensures m2.fields[f] == m.fields[f]
      {
        if f in cur.fields {
          MergeValueIdempotent(cur.fields[f], upd.fields[f]);
        } else {
          MergeValueSelf(upd.fields[f]);
        }
      }
      assert m2.fields == m.fields;
      assert m.JObject? && m2.JObject?;
    } else {
      MergeValueSelf(upd);
    }
  }

  /** An update whose value equals the stored one changes nothing. */
  lemma {:induction false} MergeValueSelf(v: Json)
    decreases v
    ensures MergeValue(v, v) == v
  {
    if v.JObject? {
      forall f | f in v.fields
        ensures MergeValue(v, v).fields[f] == v.fields[f]
      {
        MergeValueSelf(v.fields[f]);
      }
      assert MergeValue(v, v).fields == v.fields;
    }
  }

  /** The same for whole documents. */
  lemma MergeIdempotent(current: Body, data: Body)
    ensures Merge(Merge(current, data), data) == Merge(current, data)
  {
    MergeValueIdempotent(JObject(current), JObject(data));
  }

  /** An empty update changes nothing. */
  lemma MergeEmpty(current: Body)
    ensures Merge(current, map[]) == current
  {
  }

  /** `EditAsset`: read the document, apply the update, then snapshot the
      body as it was before the update. A failed snapshot is only logged. */
  function EditAsset(st: Store, assetType: string, id: string, data: Body,
                     faults: Faults, latest: Result<seq<Hit>>): (r: Outcome<string>)
    ensures r.store.cachedAssetTypes == st.cachedAssetTypes
    ensures DocKey(assetType, id) !in st.backend.primary || faults.getFails ==>
              r == Outcome(Err(NotFound(assetType, id)), st)
    ensures r.result.Ok? <==> DocKey(assetType, id) in st.backend.primary && !faults.getFails && !faults.writeFails
    ensures r.result.Err? ==> r.store == st
    ensures r.result.Ok? ==>
              var k := DocKey(assetType, id);
              r.result.value == id &&
              r.store.backend.primary == st.backend.primary[k := Merge(st.backend.primary[k], data)]
    ensures r.result.Ok? ==>
              var k := DocKey(assetType, id);
              r.store.backend.versions ==
                CreateAssetVersion(st.backend.versions, assetType, id, st.backend.primary[k], latest, faults.snapshotFails).versions
  {
    match GetAsset(st.backend, assetType, id, faults.getFails)
    case Err(e) => Outcome(Err(e), st)
    case Ok(asset) =>
      if faults.writeFails then Outcome(Err(Upstream), st)
      else
        var k := DocKey(assetType, id);
        var primary := st.backend.primary[k := Merge(asset, data)];
        var snap := CreateAssetVersion(st.backend.versions, assetType, id, asset, latest, faults.snapshotFails);
        Outcome(Ok(id), st.(backend := Backend(primary, snap.versions)))
  }

  /** Reading an asset back after a create that succeeded returns the body
      that was written. */
  lemma CreateThenGet(st: Store, assetType: string, id: string, data: Body, createType: bool,
                      refreshed: Result<seq<string>>, faults: Faults)
    requires CreateAsset(st, assetType, id, data, createType, refreshed, faults).result.Ok?
    ensures GetAsset(CreateAsset(st, assetType, id, data, createType, refreshed, faults).store.backend,
                     assetType, id, false) == Ok(data)
  {
  }

  /** Reading an asset back after an edit that succeeded returns the old
      body merged with the update; the other assets read as before. */
  lemma EditThenGet(st: Store, assetType: string, id: string, data: Body, faults: Faults,
                    latest: Result<seq<Hit>>, otherType: string, otherId: string)
    requires EditAsset(st, assetType, id, data, faults, latest).result.Ok?
    ensures GetAsset(EditAsset(st, assetType, id, data, faults, latest).store.backend, assetType, id, false) ==
            Ok(Merge(GetAsset(st.backend, assetType, id, false).value, data))
    ensures DocKey(otherType, otherId) != DocKey(assetType, id) ==>
              GetAsset(EditAsset(st, assetType, id, data, faults, latest).store.backend, otherType, otherId, false) ==
              GetAsset(st.backend, otherType, otherId, false)
  {
  }

  /** Whether the delete was done and the store afterwards. */
  datatype Removal = Removal(found: bool, store: Store)

  /** `RemoveAsset`: read the document, delete it, then snapshot the body it
      had. Reports the delete's `Found` flag; a failed read or delete
      reports false and changes nothing. */
  function RemoveAsset(st: Store, assetType: string, id: string,
                       faults: Faults, latest: Result<seq<Hit>>): (r: Removal)
    ensures r.store.cachedAssetTypes == st.cachedAssetTypes
    ensures r.found <==> DocKey(assetType, id) in st.backend.primary && !faults.getFails && !faults.writeFails
    ensures !r.found ==> r.store == st
    ensures r.found ==> r.store.backend.primary == st.backend.primary - {DocKey(assetType, id)}
    ensures r.found ==>
              var k := DocKey(assetType, id);
              r.store.backend.versions ==
                CreateAssetVersion(st.backend.versions, assetType, id, st.backend.primary[k], latest, faults.snapshotFails).versions
  {
    match GetAsset(st.backend, assetType, id, faults.getFails)
    case Err(_) => Removal(false, st)
    case Ok(asset) =>
      if faults.writeFails then Removal(false, st)
      else
        var k := DocKey(assetType, id);
        var found := k in st.backend.primary;
        var snap := CreateAssetVersion(st.backend.versions, assetType, id, asset, latest, faults.snapshotFails);
        Removal(found, st.(backend := Backend(st.backend.primary - {k}, snap.versions)))
  }

  /** `GetAssetVersion`: the snapshot stored under `"<id>.<version>"`. */
  function GetAssetVersion(versions: map<DocKey, Body>, assetType: string, id: string, version: int64,
                           getFails: bool): (r: Result<Body>)
    ensures r.Ok? <==> !getFails && DocKey(assetType, SnapshotId(id, version)) in versions
    ensures r.Ok? ==> r.value == versions[DocKey(assetType, SnapshotId(id, version))]
    ensures r.Err? ==> r.error == NotFound(assetType, SnapshotId(id, version))
  {
    var k := DocKey(assetType, SnapshotId(id, version));
    if !getFails && k in versions then Ok(versions[k]) else Err(NotFound(assetType, SnapshotId(id, version)))
  }

  /** `GetAssetVersions`: the prefix query on `_id` within one type, sorted
      by version, newest first, at most `count` hits. */
  method GetAssetVersions(versions: map<DocKey, Body>, assetType: string, id: string, count: nat,
                          searchFails: bool) returns (r: Result<seq<Hit>>)
    ensures r.Err? <==> searchFails
    ensures r.Ok? ==> IsListing(Matching(versions, assetType, id), count, r.value)
  {
    if searchFails {
      return Err(Upstream);
    }
    var hits := SelectTop(Matching(versions, assetType, id), count);
    return Ok(hits);
  }
}
