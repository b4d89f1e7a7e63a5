/** The request handling for `/<asset_type>/<asset>` that is pure logic:
    the write-request validator `checkWriteRequest`, applied to the body
    after JSON decoding, and the status codes of the POST/PUT, versioned
    GET and DELETE branches. */
module AssetHandler {
  import opened Base
  import Decimal
  import opened VersionSearch
  import opened InventoryDatastore

  // Case-insensitive comparison

  /** Folding is an equivalence: reflexive, symmetric and transitive. */
  lemma EqualFoldEquivalence(a: string, b: string, c: string)
    ensures EqualFold(a, a)
    ensures EqualFold(a, b) ==> EqualFold(b, a)
    ensures EqualFold(a, b) && EqualFold(b, c) ==> EqualFold(a, c)
  {
  }

  // Whitespace trimming

  /** `unicode.IsSpace`: the Latin-1 spaces and the other code points with
      the Unicode White_Space property. */
  predicate IsSpace(c: char) {
    || c == '\t' || c == '\n' || c == '\U{0B}' || c == '\U{0C}' || c == '\r' || c == ' '
    || c == '\U{85}' || c == '\U{A0}' || c == '\U{1680}'
    || ('\U{2000}' <= c <= '\U{200A}')
    || c == '\U{2028}' || c == '\U{2029}' || c == '\U{202F}' || c == '\U{205F}' || c == '\U{3000}'
  }

  predicate AllSpace(s: string) {
    forall i :: 0 <= i < |s| ==> IsSpace(s[i])
  }

  /** `strings.TrimLeftFunc(s, f)`: a suffix of s whose dropped prefix
      satisfies f throughout and which does not start with such a
      character. */
  function TrimLeftFunc(s: string, f: char -> bool): (r: string)
    ensures |r| <= |s| && r == s[|s| - |r|..]
    ensures forall i :: 0 <= i < |s| - |r| ==> f(s[i])
    ensures |r| > 0 ==> !f(r[0])
  {
    if |s| > 0 && f(s[0]) then
      var r := TrimLeftFunc(s[1..], f);
      assert s[1..][|s| - 1 - |r|..] == s[|s| - |r|..];
      assert forall i :: 1 <= i < |s| - |r| ==> s[i] == s[1..][i - 1];
      r
    else s
  }

  /** `strings.TrimRightFunc(s, f)`: a prefix of s whose dropped suffix
      satisfies f throughout and which does not end with such a
      character. */
  function TrimRightFunc(s: string, f: char -> bool): (r: string)
    ensures |r| <= |s| && r == s[..|r|]
    ensures forall i :: |r| <= i < |s| ==> f(s[i])
    ensures |r| > 0 ==> !f(r[|r| - 1])
  {
    if |s| > 0 && f(s[|s| - 1]) then TrimRightFunc(s[..|s| - 1], f) else s
  }

  /** Trimming the left end stops at the first character outside f. */
  lemma {:induction false} TrimLeftFuncAt(s: string, f: char -> bool, a: nat)
    requires a <= |s|
    requires forall i :: 0 <= i < a ==> f(s[i])
    requires a < |s| ==> !f(s[a])
    ensures TrimLeftFunc(s, f) == s[a..]
  {
    var l := TrimLeftFunc(s, f);
    assert |l| > 0 ==> l[0] == s[|s| - |l|];
  }

  /** Trimming the right end stops after the last character outside f. */
  lemma {:induction false} TrimRightFuncAt(s: string, f: char -> bool, b: nat)
    requires b <= |s|
    requires forall i :: b <= i < |s| ==> f(s[i])
    requires b > 0 ==> !f(s[b - 1])
    ensures TrimRightFunc(s, f) == s[..b]
  {
    var r := TrimRightFunc(s, f);
    assert |r| > 0 ==> r[|r| - 1] == s[|r| - 1];
  }

  /** Trimming both ends keeps exactly the run from the first to the last
      character outside f: for any a and b that delimit such a run, the
      result is s[a..b]. */
  lemma {:induction false} TrimFuncKeepsCore(s: string, f: char -> bool, a: nat, b: nat)
    requires a <= b <= |s|
    requires forall i :: 0 <= i < a ==> f(s[i])
    requires forall i :: b <= i < |s| ==> f(s[i])
    requires a < b ==> !f(s[a]) && !f(s[b - 1])
    ensures TrimRightFunc(TrimLeftFunc(s, f), f) == s[a..b]
  {
    if a == b {
      TrimLeftFuncAt(s, f, |s|);
      TrimRightFuncAt([], f, 0);
    } else {
      var l := s[a..];
      assert l[..b - a] == s[a..b];
      TrimLeftFuncAt(s, f, a);
      TrimRightFuncAt(l, f, b - a);
    }
  }

  /** `strings.TrimSpace`. */
  function TrimSpace(s: string): (r: string)
    ensures |r| <= |s|
    ensures |r| > 0 ==> !IsSpace(r[0]) && !IsSpace(r[|r| - 1])
  {
    TrimRightFunc(TrimLeftFunc(s, IsSpace), IsSpace)
  }

  /** `TrimSpace` keeps exactly the run from the first to the last
      non-space character. */
  lemma {:induction false} TrimSpaceKeepsCore(s: string, a: nat, b: nat)
    requires a <= b <= |s|
    requires forall i :: 0 <= i < a ==> IsSpace(s[i])
    requires forall i :: b <= i < |s| ==> IsSpace(s[i])
    requires a < b ==> !IsSpace(s[a]) && !IsSpace(s[b - 1])
    ensures TrimSpace(s) == s[a..b]
  {
    TrimFuncKeepsCore(s, IsSpace, a, b);
  }

  /** The trimmed value is empty exactly when the input is all space. */
  lemma {:induction false} TrimSpaceEmptyIff(s: string)
    ensures |TrimSpace(s)| == 0 <==> AllSpace(s)
  {
    var l := TrimLeftFunc(s, IsSpace);
    assert |l| > 0 ==> l[0] == s[|s| - |l|];
  }

  /** Trimming twice trims nothing more. */
  lemma {:induction false} TrimSpaceIdempotent(s: string)
    ensures TrimSpace(TrimSpace(s)) == TrimSpace(s)
  {
    var t := TrimSpace(s);
    TrimSpaceKeepsCore(t, 0, |t|);
  }

  // Required fields

  /** The index of the first configured required field that `k` matches
      ignoring case. */
  function FirstFold(k: string, required: seq<string>, from: nat := 0): (r: Option<nat>)
    requires from <= |required|
    ensures r.None? <==> forall j :: from <= j < |required| ==> !EqualFold(k, required[j])
    ensures r.Some? ==> from <= r.value < |required| && EqualFold(k, required[r.value])
    ensures r.Some? ==> forall j :: from <= j < r.value ==> !EqualFold(k, required[j])
    decreases |required| - from
  {
    if from == |required| then None
    else if EqualFold(k, required[from]) then Some(from)
    else FirstFold(k, required, from + 1)
  }

  /** The key a body key is stored under: the configured spelling of the
      first required field it matches, or itself. */
  function DestKey(k: string, required: seq<string>): string {
    match FirstFold(k, required)
    case Some(i) => required[i]
    case None => k
  }

  /** What happens to one key of the request body. */
  datatype KeyResult = Keep(key: string, value: Json) | Reject(error: Error)

  /** One pass of the inner loop over the required fields: a key matching
      a required field must hold a string that is not all whitespace and is
      stored trimmed under the field's configured spelling; any other key
      is stored as it came. */
  function CheckField(k: string, v: Json, required: seq<string>): (r: KeyResult)
    ensures (forall j :: 0 <= j < |required| ==> !EqualFold(k, required[j])) ==> r == Keep(k, v)
    ensures FirstFold(k, required).Some? ==>
              var f := required[FirstFold(k, required).value];
              && (!v.JString? ==> r == Reject(FieldMustBeString(f)))
              && (v.JString? && AllSpace(v.s) ==> r == Reject(FieldValueRequired(f)))
              && (v.JString? && !AllSpace(v.s) ==> r == Keep(f, JString(TrimSpace(v.s))))
    ensures r.Keep? ==> r.key == DestKey(k, required)
  {
    match FirstFold(k, required)
    case None => Keep(k, v)
    case Some(i) =>
      var f := required[i];
      if !v.JString? then Reject(FieldMustBeString(f))
      else
        var t := TrimSpace(v.s);
        TrimSpaceEmptyIff(v.s);
        if |t| < 1 then Reject(FieldValueRequired(f)) else Keep(f, JString(t))
  }

  /** No two keys of the body match the same required field, so the order
      Go's map iteration visits them in cannot change the result. */
  predicate NoFoldClash(bmap: Body, required: seq<string>) {
    forall k1, k2, i :: k1 in bmap && k2 in bmap && k1 != k2 && 0 <= i < |required| ==>
      !(EqualFold(k1, required[i]) && EqualFold(k2, required[i]))
  }

  /** Without a clash, distinct body keys are stored under distinct keys. */
  lemma DestKeyInjective(bmap: Body, required: seq<string>, k1: string, k2: string)
    requires NoFoldClash(bmap, required) && k1 in bmap && k2 in bmap && k1 != k2
    ensures DestKey(k1, required) != DestKey(k2, required)
  {
    EqualFoldEquivalence(k1, k1, k1);
    EqualFoldEquivalence(k2, k2, k2);
  }

  predicate AllKept(bmap: Body, required: seq<string>) {
    forall k :: k in bmap ==> CheckField(k, bmap[k], required).Keep?
  }

  /** Some body key is stored under `f`. */
  predicate Provided(bmap: Body, required: seq<string>, f: string) {
    exists k :: k in bmap && DestKey(k, required) == f
  }

  /** The keys the kept keys of `keys` are stored under. */
  function KeptKeys(keys: set<string>, check: string -> KeyResult): set<string> {
    set k | k in keys && check(k).Keep? :: check(k).key
  }

  /** The values the kept keys of `keys` that go to `d` carry. */
  function KeptValuesAt(keys: set<string>, check: string -> KeyResult, d: string): set<Json> {
    set k | k in keys && check(k).Keep? && check(k).key == d :: check(k).value
  }

  /** Every key of `keys` is kept, `data` has exactly their kept keys, and
      each entry holds the value of one of the keys stored there: what a
      pass leaves whatever order it visits the keys in. */
  predicate StoresSome(keys: set<string>, check: string -> KeyResult, data: Body) {
    && (forall k :: k in keys ==> check(k).Keep?)
    && data.Keys == KeptKeys(keys, check)
    && (forall d :: d in data ==> data[d] in KeptValuesAt(keys, check, d))
  }

  /** Every key of `keys` is kept, `data` holds each kept value under its
      kept key, and nothing else. */
  predicate StoresKept(keys: set<string>, check: string -> KeyResult, data: Body) {
    && (forall k :: k in keys ==> check(k).Keep? && check(k).key in data && data[check(k).key] == check(k).value)
    && data.Keys == KeptKeys(keys, check)
  }

  /** Distinct kept keys of `keys` are stored in distinct places. */
  predicate KeptInjective(keys: set<string>, check: string -> KeyResult) {
    forall k1, k2 :: k1 in keys && k2 in keys && k1 != k2 && check(k1).Keep? && check(k2).Keep? ==>
      check(k1).key != check(k2).key
  }

  /** Storing one more kept key keeps every entry the value of some key
      stored there. */
  lemma StoresSomeStep(done: set<string>, check: string -> KeyResult, data: Body, k: string)
    requires StoresSome(done, check, data) && check(k).Keep?
    ensures StoresSome(done + {k}, check, data[check(k).key := check(k).value])
  {
    var c := check(k);
    var done' := done + {k};
    var data' := data[c.key := c.value];
    assert KeptKeys(done', check) == KeptKeys(done, check) + {c.key};
    forall d | d in data'
      ensures data'[d] in KeptValuesAt(done', check, d)
    {
      if d == c.key {
        assert k in done' && check(k).key == d;
      } else {
        assert KeptValuesAt(done, check, d) <= KeptValuesAt(done', check, d);
      }
    }
  }

  /** When kept keys go to distinct places, there is only one key to take
      each value from, so the result is exact. */
  lemma StoresSomeExact(keys: set<string>, check: string -> KeyResult, data: Body)
    requires StoresSome(keys, check, data) && KeptInjective(keys, check)
    ensures StoresKept(keys, check, data)
  {
    forall k | k in keys
      ensures check(k).key in data && data[check(k).key] == check(k).value
    {
      var d := check(k).key;
      assert d in KeptKeys(keys, check);
      var k' :| k' in keys && check(k').Keep? && check(k').key == d && check(k').value == data[d];
    }
  }

  /** Whatever order the keys are stored in, the exact result is the same
      map. */
  lemma StoresKeptUnique(keys: set<string>, check: string -> KeyResult, d1: Body, d2: Body)
    requires StoresKept(keys, check, d1) && StoresKept(keys, check, d2)
    ensures d1 == d2
  {
    forall d | d in d1
      ensures d in d2 && d1[d] == d2[d]
    {
      var k :| k in keys && check(k).Keep? && check(k).key == d;
    }
  }

  /** Where the pass below stands: `done` and `rest` split `keys`, and
      the keys done are stored. */
  predicate PassState(keys: set<string>, check: string -> KeyResult, done: set<string>, rest: set<string>, data: Body) {
    done <= keys && rest == keys - done && StoresSome(done, check, data)
  }

  /** Storing a kept key of `rest` moves it to `done`. */
  lemma PassStep(keys: set<string>, check: string -> KeyResult, done: set<string>, rest: set<string>, data: Body, k: string)
    requires PassState(keys, check, done, rest, data)
    requires k in rest && check(k).Keep?
    ensures PassState(keys, check, done + {k}, rest - {k}, data[check(k).key := check(k).value])
    ensures |rest - {k}| < |rest|
  {
    StoresSomeStep(done, check, data, k);
  }

  /** The pass over a set of keys in an unspecified order: the first
      rejected key ends it with its error, otherwise every kept value is
      stored under its kept key, a later key overwriting an earlier one
      that went to the same place. */
  method StoreAll(keys: set<string>, check: string -> KeyResult) returns (r: Result<Body>)
    ensures r.Ok? <==> forall k :: k in keys ==> check(k).Keep?
    ensures r.Err? ==> exists k :: k in keys && check(k).Reject? && r.error == check(k).error
    ensures r.Ok? ==> StoresSome(keys, check, r.value)
  {
    var data: Body := map[];
    var done: set<string> := {};
    var rest := keys;
    while rest != {}
      invariant PassState(keys, check, done, rest, data)
      decreases |rest|
    {
      var k :| k in rest;
      var c := check(k);
      if c.Reject? {
        assert k in keys;
        return Err(c.error);
      }
      PassStep(keys, check, done, rest, data, k);
      data := data[c.key := c.value];
      done := done + {k};
      rest := rest - {k};
    }
    assert done == keys;
    return Ok(data);
  }

  /** The result of checking each body key, as a function of the key. */
  function FieldCheck(bmap: Body, required: seq<string>): string -> KeyResult {
    k => if k in bmap then CheckField(k, bmap[k], required) else Keep(k, JNull)
  }

  /** `data` is what the pass over the body may leave: every key kept,
      exactly the destination keys present, each holding the checked value
      of a body key stored there. */
  predicate StoredFromBody(bmap: Body, required: seq<string>, data: Body) {
    StoresSome(bmap.Keys, FieldCheck(bmap, required), data)
  }

  /** `data` is the body with every key normalised: all keys are kept, each
      key's checked value is stored under its destination key, and nothing
      else is stored. */
  predicate Normalises(bmap: Body, required: seq<string>, data: Body) {
    StoresKept(bmap.Keys, FieldCheck(bmap, required), data)
  }

  /** The normalised body is unique: whatever order the keys are visited
      in, the result is the same map. */
  lemma NormalisedUnique(bmap: Body, required: seq<string>, d1: Body, d2: Body)
    requires Normalises(bmap, required, d1) && Normalises(bmap, required, d2)
    ensures d1 == d2
  {
    StoresKeptUnique(bmap.Keys, FieldCheck(bmap, required), d1, d2);
  }

  datatype WriteMethod = Post | Put

  /** Without a clash, distinct body keys are kept under distinct keys. */
  lemma FieldCheckInjective(bmap: Body, required: seq<string>)
    requires NoFoldClash(bmap, required)
    ensures KeptInjective(bmap.Keys, FieldCheck(bmap, required))
  {
    var check := FieldCheck(bmap, required);
    forall k1, k2 | k1 in bmap.Keys && k2 in bmap.Keys && k1 != k2 && check(k1).Keep? && check(k2).Keep?
      ensures check(k1).key != check(k2).key
    {
      DestKeyInjective(bmap, required, k1, k2);
    }
  }

  /** The loop over the body's keys in `checkWriteRequest`: the keys are
      visited in an unspecified order and the first rejected key ends the
      pass with its error. Without a clash the result does not depend on
      the order. */
  method NormaliseBody(bmap: Body, required: seq<string>) returns (r: Result<Body>)
    ensures r.Ok? <==> AllKept(bmap, required)
    ensures r.Err? ==> exists k :: k in bmap && CheckField(k, bmap[k], required).Reject? &&
                                   r.error == CheckField(k, bmap[k], required).error
    ensures r.Ok? ==> StoredFromBody(bmap, required, r.value)
    ensures r.Ok? && NoFoldClash(bmap, required) ==> Normalises(bmap, required, r.value)
  {
    var check := FieldCheck(bmap, required);
    r := StoreAll(bmap.Keys, check);
    if r.Err? {
      var k :| k in bmap.Keys && check(k).Reject? && r.error == check(k).error;
      assert CheckField(k, bmap[k], required).Reject?;
    } else if NoFoldClash(bmap, required) {
      FieldCheckInjective(bmap, required);
      StoresSomeExact(bmap.Keys, check, r.value);
    }
  }

  /** In a normalised body, a key is present exactly when some body key is
      stored under it. */
  lemma NormalisedKeys(bmap: Body, required: seq<string>, data: Body)
    requires StoredFromBody(bmap, required, data)
    ensures forall f :: f in data <==> Provided(bmap, required, f)
  {
    var check := FieldCheck(bmap, required);
    forall f | Provided(bmap, required, f)
      ensures f in data
    {
      var k :| k in bmap && DestKey(k, required) == f;
      assert check(k).key == f;
    }
    forall f | f in data
      ensures Provided(bmap, required, f)
    {
      var k :| k in bmap.Keys && check(k).Keep? && check(k).key == f;
      assert DestKey(k, required) == f;
    }
  }

  /** The POST check of `checkWriteRequest`: the index of the first
      required field, in configuration order, that `data` lacks. */
  method FirstMissing(data: Body, required: seq<string>) returns (missing: Option<nat>)
    ensures missing.None? <==> forall i :: 0 <= i < |required| ==> required[i] in data
    ensures missing.Some? ==> missing.value < |required| && required[missing.value] !in data
    ensures missing.Some? ==> forall j :: 0 <= j < missing.value ==> required[j] in data
  {
    var i := 0;
    while i < |required|
      invariant 0 <= i <= |required|
      invariant forall j :: 0 <= j < i ==> required[j] in data
    {
      if required[i] !in data {
        return Some(i);
      }
      i := i + 1;
    }
    return None;
  }

  /** The POST check on the normalised body: the first required field no
      body key was stored under is reported. */
  method CheckPresent(bmap: Body, required: seq<string>, data: Body) returns (r: Result<Body>)
    requires StoredFromBody(bmap, required, data)
    ensures r.Ok? <==> forall i :: 0 <= i < |required| ==> Provided(bmap, required, required[i])
    ensures r.Ok? ==> r.value == data
    ensures r.Err? ==>
              exists i :: 0 <= i < |required| && r.error == FieldRequired(required[i]) &&
                          !Provided(bmap, required, required[i]) &&
                          forall j :: 0 <= j < i ==> Provided(bmap, required, required[j])
  {
    NormalisedKeys(bmap, required, data);
    var missing := FirstMissing(data, required);
    if missing.Some? {
      return Err(FieldRequired(required[missing.value]));
    }
    return Ok(data);
  }

  /** `checkWriteRequest` after `json.Unmarshal`: the key pass above, then
      on POST every required field must be present. */
  method CheckWriteRequest(bmap: Body, required: seq<string>, m: WriteMethod) returns (r: Result<Body>)
    ensures !AllKept(bmap, required) ==>
              exists k :: k in bmap && CheckField(k, bmap[k], required).Reject? &&
                          r == Err(CheckField(k, bmap[k], required).error)
    ensures AllKept(bmap, required) ==>
              (r.Ok? <==> m == Put || forall i :: 0 <= i < |required| ==> Provided(bmap, required, required[i]))
    ensures AllKept(bmap, required) && r.Err? ==>
              exists i :: 0 <= i < |required| && r.error == FieldRequired(required[i]) &&
                          !Provided(bmap, required, required[i]) &&
                          forall j :: 0 <= j < i ==> Provided(bmap, required, required[j])
    ensures r.Ok? ==> StoredFromBody(bmap, required, r.value)
    ensures r.Ok? && NoFoldClash(bmap, required) ==> Normalises(bmap, required, r.value)
  {
    r := NormaliseBody(bmap, required);
    if r.Ok? && m == Post {
      r := CheckPresent(bmap, required, r.value);
    }
  }

  // Status codes

  /** What a response carries: an error's text, the text of a failed
      number conversion, a literal body, or a JSON document. */
  datatype Payload = Message(error: Error) | BadNumber(text: string) | Literal(text: string) | Document(json: Json) | NoBody

  datatype Response = Response(code: int, payload: Payload)

  /** The response and the store after the request. */
  datatype Handled = Handled(response: Response, store: Store)

  /** The success body of a write, `{"id": "<id>"}`. */
  function IdBody(id: string): string {
    "{\"id\": \"" + id + "\"}"
  }

  /** `assetPostPutHandler` once `checkWriteRequest` has answered `check`:
      a validation error is a 400 and touches nothing; POST creates with
      `createType` set, PUT edits; any datastore error is a 404. */
  function PostPutResponse(check: Result<Body>, m: WriteMethod, st: Store, t: string, id: string,
                           refreshed: Result<seq<string>>, faults: Faults, latest: Result<seq<Hit>>): (h: Handled)
    ensures check.Err? ==> h == Handled(Response(400, Message(check.error)), st)
    ensures check.Ok? && m == Post ==> h.store == CreateAsset(st, t, id, check.value, true, refreshed, faults).store
    ensures check.Ok? && m == Put ==> h.store == EditAsset(st, t, id, check.value, faults, latest).store
    ensures h.response.code == 200 <==>
              && check.Ok?
              && (m == Post ==> DocKey(t, id) !in st.backend.primary && !faults.writeFails)
              && (m == Put ==> DocKey(t, id) in st.backend.primary && !faults.getFails && !faults.writeFails)
    ensures h.response.code == 200 ==> h.response.payload == Literal(IdBody(id))
    ensures check.Ok? && m == Post && CreateAsset(st, t, id, check.value, true, refreshed, faults).result.Err? ==>
              h.response == Response(404, Message(CreateAsset(st, t, id, check.value, true, refreshed, faults).result.error))
    ensures check.Ok? && m == Put && EditAsset(st, t, id, check.value, faults, latest).result.Err? ==>
              h.response == Response(404, Message(EditAsset(st, t, id, check.value, faults, latest).result.error))
    ensures h.response.code in {200, 400, 404}
  {
    match check
    case Err(e) => Handled(Response(400, Message(e)), st)
    case Ok(data) =>
      match m
      case Post => WriteAnswer(CreateAsset(st, t, id, data, true, refreshed, faults))
      case Put => WriteAnswer(EditAsset(st, t, id, data, faults, latest))
  }

  /** The answer to a create or edit: 404 with the error, or 200 with the
      id. */
  function WriteAnswer(o: Outcome<string>): (h: Handled)
    ensures h.store == o.store
    ensures h.response.code == 200 <==> o.result.Ok?
    ensures o.result.Ok? ==> h.response.payload == Literal(IdBody(o.result.value))
    ensures o.result.Err? ==> h.response == Response(404, Message(o.result.error))
  {
    match o.result
    case Err(e) => Handled(Response(404, Message(e)), o.store)
    case Ok(newId) => Handled(Response(200, Literal(IdBody(newId))), o.store)
  }

  /** POST of an asset that exists and can be read is a 404 reporting that
      it already exists, and the documents are unchanged. */
  lemma DuplicatePostIs404(data: Body, st: Store, t: string, id: string, refreshed: Result<seq<string>>,
                           faults: Faults, latest: Result<seq<Hit>>)
    requires DocKey(t, id) in st.backend.primary && !faults.getFails
    ensures var h := PostPutResponse(Ok(data), Post, st, t, id, refreshed, faults, latest);
            h.response == Response(404, Message(AlreadyExists(id))) && h.store.backend == st.backend
  {
  }

  /** POST of a new asset creates it whatever types are registered. */
  lemma PostCreatesUnregisteredType(data: Body, st: Store, t: string, id: string, e: Error, latest: Result<seq<Hit>>)
    requires t !in st.cachedAssetTypes && DocKey(t, id) !in st.backend.primary
    ensures var h := PostPutResponse(Ok(data), Post, st, t, id, Err(e), NoFaults, latest);
            h.response.code == 200 && h.store.backend.primary == st.backend.primary[DocKey(t, id) := data]
  {
  }

  /** `assetGetVersionHandler`: a version that is not a base-10 int64 is a
      404; otherwise the snapshot is looked up (404 when missing) and
      assembled into the response (400 when that fails). `assemble` stands
      for `AssembleResponseFromBaseResponse`. */
  function GetVersionResponse(versions: map<DocKey, Body>, t: string, id: string, versionText: string,
                              getFails: bool, assemble: Body -> Result<Json>): (r: Response)
    ensures Decimal.ParseInt(versionText).None? ==> r == Response(404, BadNumber(versionText))
    ensures r.code == 200 <==>
              && Decimal.ParseInt(versionText).Some?
              && !getFails
              && DocKey(t, SnapshotId(id, Decimal.ParseInt(versionText).value)) in versions
              && assemble(versions[DocKey(t, SnapshotId(id, Decimal.ParseInt(versionText).value))]).Ok?
    ensures Decimal.ParseInt(versionText).Some? &&
            GetAssetVersion(versions, t, id, Decimal.ParseInt(versionText).value, getFails).Err? ==>
              r == Response(404, Message(GetAssetVersion(versions, t, id, Decimal.ParseInt(versionText).value, getFails).error))
    ensures Decimal.ParseInt(versionText).Some? &&
            GetAssetVersion(versions, t, id, Decimal.ParseInt(versionText).value, getFails).Ok? ==>
              var b := GetAssetVersion(versions, t, id, Decimal.ParseInt(versionText).value, getFails).value;
              && (assemble(b).Err? ==> r == Response(400, Message(assemble(b).error)))
              && (assemble(b).Ok? ==> r == Response(200, Document(assemble(b).value)))
    ensures r.code in {200, 400, 404}
  {
    match Decimal.ParseInt(versionText)
    case None => Response(404, BadNumber(versionText))
    case Some(v) =>
      match GetAssetVersion(versions, t, id, v, getFails)
      case Err(e) => Response(404, Message(e))
      case Ok(b) =>
        match assemble(b)
        case Err(e) => Response(400, Message(e))
        case Ok(j) => Response(200, Document(j))
  }

  /** A version that does not parse is answered without looking at the
      version index at all. */
  lemma BadVersionSkipsLookup(versions: map<DocKey, Body>, versions': map<DocKey, Body>, t: string, id: string,
                              versionText: string, getFails: bool, getFails': bool, assemble: Body -> Result<Json>)
    requires Decimal.ParseInt(versionText).None?
    ensures GetVersionResponse(versions, t, id, versionText, getFails, assemble) ==
            GetVersionResponse(versions', t, id, versionText, getFails', assemble)
  {
  }

  /** The version a snapshot was written with, printed in decimal, fetches
      that snapshot back. */
  lemma GetVersionFindsSnapshot(versions: map<DocKey, Body>, t: string, id: string, src: Body,
                                latest: Result<seq<Hit>>, assemble: Body -> Result<Json>)
    requires CreateAssetVersion(versions, t, id, src, latest, false).result.Ok?
    ensures var v := NextVersion(latest).value;
            var after := CreateAssetVersion(versions, t, id, src, latest, false).versions;
            GetVersionResponse(after, t, id, Decimal.FormatInt(v), false, assemble) ==
              match assemble(SnapshotBody(src, v))
              case Ok(j) => Response(200, Document(j))
              case Err(e) => Response(400, Message(e))
  {
    Decimal.FormatParseRoundTrip(NextVersion(latest).value);
  }

  /** The DELETE branch of `AssetHandler`: 200 when `RemoveAsset` reports
      the asset deleted, 500 otherwise, with no body either way. */
  function DeleteResponse(st: Store, t: string, id: string, faults: Faults, latest: Result<seq<Hit>>): (h: Handled)
    ensures h.response.code == 200 <==> DocKey(t, id) in st.backend.primary && !faults.getFails && !faults.writeFails
    ensures h.response.code in {200, 500} && h.response.payload == NoBody
    ensures h.response.code == 200 ==> DocKey(t, id) !in h.store.backend.primary
    ensures h.response.code == 500 ==> h.store == st
  {
    var removal := RemoveAsset(st, t, id, faults, latest);
    Handled(Response(if removal.found then 200 else 500, NoBody), removal.store)
  }
}
