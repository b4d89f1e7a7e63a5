/** The version-diff engine: turns a newest-first run of snapshot maps into
    one diff record per adjacent pair. The unified-diff text (difflib) and
    the indented JSON serialiser are not modelled: they are parameters
    `generateDiff` and `marshalIndent`, each of which may fail. */
module VersionDiffs {
  import opened Base
  import Decimal

  /** `VersionDiff`: the newer version, the older one it is compared with,
      and the diff text. */
  datatype VersionDiff = VersionDiff(version: int64, againstVersion: int64, diff: string)

  /** The zero value Go leaves in list entries that were never filled. */
  const ZeroDiff: VersionDiff := VersionDiff(0, 0, "")

  /** `parseVersion`: accepts exactly a float64, an int64 or an int; the
      integers come back unchanged, an in-range float comes back truncated
      toward zero, and anything else, `nil` (a missing key) included, is an
      error carrying the value as it was found. */
  function ParseVersion(v: Json): (r: Result<int64>)
    ensures r.Ok? <==> v.JFloat? || v.JInt64? || v.JInt?
    ensures v.JInt64? || v.JInt? ==> r == Ok(v.i)
    ensures v.JFloat? && Int64Min <= Trunc(v.f) <= Int64Max ==> r == Ok(Trunc(v.f))
    ensures r.Err? ==> r.error == UnparseableVersion(v)
  {
    match v
    case JFloat(f) => Ok(FloatToInt64(f))
    case JInt64(i) => Ok(i)
    case JInt(i) => Ok(i)
    case _ => Err(UnparseableVersion(v))
  }

  /** The version a snapshot map carries under "version". */
  function VersionOf(m: Body): Result<int64> {
    ParseVersion(Get(m, VersionKey))
  }

  /** A version number parses back to itself whether the Go code holds it as
      an int, an int64, or as the float64 a JSON round trip turns it into;
      a map without the key has no version. */
  lemma ParseVersionRoundTrip(n: int64, m: Body)
    ensures ParseVersion(JInt64(n)) == Ok(n)
    ensures ParseVersion(JInt(n)) == Ok(n)
    ensures ParseVersion(JFloat(n as real)) == Ok(n)
    ensures VersionKey !in m ==> VersionOf(m) == Err(UnparseableVersion(JNull))
  {
    assert Trunc(n as real) == n;
  }

  /** The map with its "version" key deleted. */
  function Strip(m: Body): Body {
    m - {VersionKey}
  }

  /** The `v%d` label of a version. */
  function Label(v: int64): string {
    "v" + Decimal.FormatInt(v)
  }

  /** Distinct versions are never given the same label. */
  lemma LabelInjective(a: int64, b: int64)
    requires Label(a) == Label(b)
    ensures a == b
  {
    assert Label(a)[1..] == Decimal.FormatInt(a);
    assert Label(b)[1..] == Decimal.FormatInt(b);
    Decimal.FormatIntInjective(a, b);
  }

  /** The record for one adjacent pair, computed from the two maps as the
      caller passed them: both versions are parsed (newer first), both maps
      are serialised without their "version" key (newer first), and the
      diff runs from the older text, labelled with the older version, to
      the newer text, labelled with the newer version. */
  function PairDiff(newer: Body, older: Body,
                    marshalIndent: Body -> Result<string>,
                    generateDiff: (string, string, string, string) -> Result<string>): (r: Result<VersionDiff>)
    ensures r.Ok? ==> VersionOf(newer) == Ok(r.value.version)
    ensures r.Ok? ==> VersionOf(older) == Ok(r.value.againstVersion)
    ensures r.Ok? ==> marshalIndent(Strip(newer)).Ok? && marshalIndent(Strip(older)).Ok?
    ensures r.Ok? ==> generateDiff(Label(r.value.againstVersion), marshalIndent(Strip(older)).value,
                                   Label(r.value.version), marshalIndent(Strip(newer)).value) == Ok(r.value.diff)
    ensures VersionOf(newer).Err? ==> r == Err(VersionOf(newer).error)
    ensures VersionOf(newer).Ok? && VersionOf(older).Err? ==> r == Err(VersionOf(older).error)
    ensures VersionOf(newer).Ok? && VersionOf(older).Ok? && marshalIndent(Strip(newer)).Err? ==>
              r == Err(marshalIndent(Strip(newer)).error)
    ensures VersionOf(newer).Ok? && VersionOf(older).Ok? && marshalIndent(Strip(newer)).Ok? &&
            marshalIndent(Strip(older)).Err? ==>
              r == Err(marshalIndent(Strip(older)).error)
    ensures VersionOf(newer).Ok? && VersionOf(older).Ok? &&
            marshalIndent(Strip(newer)).Ok? && marshalIndent(Strip(older)).Ok? ==>
              var g := generateDiff(Label(VersionOf(older).value), marshalIndent(Strip(older)).value,
                                    Label(VersionOf(newer).value), marshalIndent(Strip(newer)).value);
              (r.Ok? <==> g.Ok?) && (g.Err? ==> r == Err(g.error))
  {
    var v :- VersionOf(newer);
    var w :- VersionOf(older);
    var newText :- marshalIndent(Strip(newer));
    var oldText :- marshalIndent(Strip(older));
    var text :- generateDiff(Label(w), oldText, Label(v), newText);
    Ok(VersionDiff(v, w, text))
  }

  /** A map whose "version" was deleted and then put back as the int64 it
      parsed to yields the same pair record as the original map. */
  lemma RestoredMapSameRecord(m: Body, n: int64, other: Body,
                              marshalIndent: Body -> Result<string>,
                              generateDiff: (string, string, string, string) -> Result<string>)
    requires VersionOf(m) == Ok(n)
    ensures PairDiff(m[VersionKey := JInt64(n)], other, marshalIndent, generateDiff)
         == PairDiff(m, other, marshalIndent, generateDiff)
  {
    assert Strip(m[VersionKey := JInt64(n)]) == Strip(m);
  }

  /** The outcome for every adjacent pair of a newest-first run of maps,
      each computed from the maps as the caller passed them. */
  function Pairs(versions: seq<Body>,
                 marshalIndent: Body -> Result<string>,
                 generateDiff: (string, string, string, string) -> Result<string>): (rs: seq<Result<VersionDiff>>)
    ensures |rs| == if |versions| == 0 then 0 else |versions| - 1
    decreases |versions|
  {
    if |versions| < 2 then []
    else [PairDiff(versions[0], versions[1], marshalIndent, generateDiff)] + Pairs(versions[1..], marshalIndent, generateDiff)
  }

  /** Entry j of `Pairs` is the outcome for maps j and j + 1. */
  lemma {:induction false} PairsAt(versions: seq<Body>, j: nat,
                                   marshalIndent: Body -> Result<string>,
                                   generateDiff: (string, string, string, string) -> Result<string>)
    requires j + 1 < |versions|
    ensures Pairs(versions, marshalIndent, generateDiff)[j] == PairDiff(versions[j], versions[j + 1], marshalIndent, generateDiff)
    decreases j
  {
    if j > 0 {
      PairsAt(versions[1..], j - 1, marshalIndent, generateDiff);
      assert versions[1..][j - 1] == versions[j] && versions[1..][j] == versions[j + 1];
    }
  }

  /** The values of the first k outcomes in order, or the error of the first
      of them that failed. */
  function Collect<T>(rs: seq<Result<T>>, k: nat): Result<seq<T>>
    requires k <= |rs|
  {
    if k == 0 then Ok([])
    else
      var prev :- Collect(rs, k - 1);
      var d :- rs[k - 1];
      Ok(prev + [d])
  }

  /** The records of the first k adjacent pairs, or the first error: the
      reference the Go loop is checked against. */
  function DiffRecords(versions: seq<Body>, k: nat,
                       marshalIndent: Body -> Result<string>,
                       generateDiff: (string, string, string, string) -> Result<string>): Result<seq<VersionDiff>>
    requires k < |versions|
  {
    Collect(Pairs(versions, marshalIndent, generateDiff), k)
  }

  /** The first k outcomes collect exactly when none of them failed, and
      then entry j is the value of outcome j. */
  lemma {:induction false} CollectEntries<T>(rs: seq<Result<T>>, k: nat)
    requires k <= |rs|
    ensures Collect(rs, k).Ok? <==> forall j :: 0 <= j < k ==> rs[j].Ok?
    ensures Collect(rs, k).Ok? ==>
            |Collect(rs, k).value| == k && forall j :: 0 <= j < k ==> rs[j] == Ok(Collect(rs, k).value[j])
  {
    if k > 0 {
      CollectEntries(rs, k - 1);
    }
  }

  /** One more successful outcome extends the collected values by it. */
  lemma CollectExtend<T>(rs: seq<Result<T>>, k: nat, l: seq<T>, d: T)
    requires k < |rs|
    requires Collect(rs, k) == Ok(l) && rs[k] == Ok(d)
    ensures Collect(rs, k + 1) == Ok(l + [d])
  {
  }

  /** When the outcomes before k all succeeded and outcome k failed, every
      longer prefix reports the error of outcome k. */
  lemma {:induction false} CollectErrorSticks<T>(rs: seq<Result<T>>, k: nat, k': nat)
    requires k < k' <= |rs|
    requires Collect(rs, k).Ok? && rs[k].Err?
    ensures Collect(rs, k') == Err(rs[k].error)
    decreases k'
  {
    if k + 1 < k' {
      CollectErrorSticks(rs, k, k' - 1);
    }
  }

  /** The records of the first k pairs exist exactly when none of those
      pairs fails, and then entry j is the record of pair j. */
  lemma DiffRecordsEntries(versions: seq<Body>, k: nat,
                           marshalIndent: Body -> Result<string>,
                           generateDiff: (string, string, string, string) -> Result<string>)
    requires k < |versions|
    ensures DiffRecords(versions, k, marshalIndent, generateDiff).Ok? <==>
            forall j :: 0 <= j < k ==> PairDiff(versions[j], versions[j + 1], marshalIndent, generateDiff).Ok?
    ensures DiffRecords(versions, k, marshalIndent, generateDiff).Ok? ==>
            var l := DiffRecords(versions, k, marshalIndent, generateDiff).value;
            |l| == k && forall j :: 0 <= j < k ==> PairDiff(versions[j], versions[j + 1], marshalIndent, generateDiff) == Ok(l[j])
  {
    var rs := Pairs(versions, marshalIndent, generateDiff);
    CollectEntries(rs, k);
    forall j | 0 <= j < k
      ensures rs[j] == PairDiff(versions[j], versions[j + 1], marshalIndent, generateDiff)
    {
      PairsAt(versions, j, marshalIndent, generateDiff);
    }
    if forall j :: 0 <= j < k ==> PairDiff(versions[j], versions[j + 1], marshalIndent, generateDiff).Ok? {
      forall j | 0 <= j < k
        ensures rs[j].Ok?
      {
        assert PairDiff(versions[j], versions[j + 1], marshalIndent, generateDiff).Ok?;
      }
    }
  }

  /** The records of i + 1 pairs are those of i pairs and the record of
      pair i. */
  lemma DiffRecordsExtend(versions: seq<Body>, i: nat, l: seq<VersionDiff>, d: VersionDiff,
                          marshalIndent: Body -> Result<string>,
                          generateDiff: (string, string, string, string) -> Result<string>)
    requires i + 1 < |versions|
    requires DiffRecords(versions, i, marshalIndent, generateDiff) == Ok(l)
    requires PairDiff(versions[i], versions[i + 1], marshalIndent, generateDiff) == Ok(d)
    ensures DiffRecords(versions, i + 1, marshalIndent, generateDiff) == Ok(l + [d])
  {
    PairsAt(versions, i, marshalIndent, generateDiff);
    CollectExtend(Pairs(versions, marshalIndent, generateDiff), i, l, d);
  }

  /** When the pairs before i succeed and pair i fails, the records of the
      whole run report the error of pair i. */
  lemma DiffRecordsStopAt(versions: seq<Body>, i: nat, l: seq<VersionDiff>,
                          marshalIndent: Body -> Result<string>,
                          generateDiff: (string, string, string, string) -> Result<string>)
    requires i + 1 < |versions|
    requires DiffRecords(versions, i, marshalIndent, generateDiff) == Ok(l)
    requires PairDiff(versions[i], versions[i + 1], marshalIndent, generateDiff).Err?
    ensures DiffRecords(versions, |versions| - 1, marshalIndent, generateDiff)
         == Err(PairDiff(versions[i], versions[i + 1], marshalIndent, generateDiff).error)
  {
    PairsAt(versions, i, marshalIndent, generateDiff);
    CollectErrorSticks(Pairs(versions, marshalIndent, generateDiff), i, |versions| - 1);
  }

  /** The maps as one pass leaves them when pair i fails: unchanged when the
      newer version does not parse; the newer map stripped when the older
      version does not parse; both stripped when a later step fails. */
  function FailedInPlace(maps: seq<Body>, i: nat): (s: seq<Body>)
    requires i + 1 < |maps|
    ensures |s| == |maps|
  {
    if VersionOf(maps[i]).Err? then maps
    else if VersionOf(maps[i + 1]).Err? then maps[i := Strip(maps[i])]
    else maps[i := Strip(maps[i])][i + 1 := Strip(maps[i + 1])]
  }

  /** One pass of the loop body on the pair at index i: parse the newer
      version, delete its key, parse the older one, delete its key,
      serialise both, diff older to newer, and put the older version back.
      An error leaves the maps as far as the body had got. */
  method DiffPairInPlace(maps: seq<Body>, i: nat,
                         marshalIndent: Body -> Result<string>,
                         generateDiff: (string, string, string, string) -> Result<string>)
    returns (r: Result<VersionDiff>, after: seq<Body>)
    requires i + 1 < |maps|
    ensures r == PairDiff(maps[i], maps[i + 1], marshalIndent, generateDiff)
    ensures |after| == |maps|
    ensures forall j :: 0 <= j < |maps| && j != i && j != i + 1 ==> after[j] == maps[j]
    ensures forall j :: 0 <= j < |maps| ==> after[j] - {VersionKey} == maps[j] - {VersionKey}
    ensures r.Ok? ==> after[i] == Strip(maps[i]) &&
                      after[i + 1] == maps[i + 1][VersionKey := JInt64(r.value.againstVersion)]
    ensures r.Err? ==> after == FailedInPlace(maps, i)
  {
    StripOffKey(maps[i]);
    StripOffKey(maps[i + 1]);
    after := maps;
    var verInt := ParseVersion(Get(after[i], VersionKey));
    if verInt.Err? {
      return Err(verInt.error), after;
    }
    after := after[i := Strip(after[i])];
    var verInt1 := ParseVersion(Get(after[i + 1], VersionKey));
    if verInt1.Err? {
      return Err(verInt1.error), after;
    }
    after := after[i + 1 := Strip(after[i + 1])];
    var bi := marshalIndent(after[i]);
    if bi.Err? {
      return Err(bi.error), after;
    }
    var bi1 := marshalIndent(after[i + 1]);
    if bi1.Err? {
      return Err(bi1.error), after;
    }
    var text := generateDiff(Label(verInt1.value), bi1.value, Label(verInt.value), bi.value);
    if text.Err? {
      return Err(text.error), after;
    }
    r := Ok(VersionDiff(verInt.value, verInt1.value, text.value));
    after := after[i + 1 := after[i + 1][VersionKey := JInt64(verInt1.value)]];
    RestoreOffKey(maps[i + 1], verInt1.value);
  }

  /** Deleting "version" changes nothing else. */
  lemma StripOffKey(m: Body)
    ensures Strip(m) - {VersionKey} == m - {VersionKey}
  {
  }

  /** Nor does deleting it and putting a number back. */
  lemma RestoreOffKey(m: Body, n: int64)
    ensures Strip(m)[VersionKey := JInt64(n)] == m[VersionKey := JInt64(n)]
    ensures m[VersionKey := JInt64(n)] - {VersionKey} == m - {VersionKey}
  {
  }

  /** The maps as the loop leaves them before pair i: the maps before i
      have lost their "version" key, map i (when i > 0) has it back as the
      int64 `restored`, and the maps after i are untouched. */
  function Stage(versions: seq<Body>, i: nat, restored: int64): (s: seq<Body>)
    requires i < |versions|
    ensures |s| == |versions|
  {
    seq(|versions|, j requires 0 <= j < |versions| =>
      if j < i then Strip(versions[j])
      else if j == i && i > 0 then versions[i][VersionKey := JInt64(restored)]
      else versions[j])
  }

  /** The maps as the loop leaves them when pair i fails: the maps before
      i have lost their "version" key; map i has too unless its version did
      not parse; map i + 1 has too when both versions parsed (the failure
      came later); the maps after are untouched. */
  function Stopped(versions: seq<Body>, i: nat): (s: seq<Body>)
    requires i + 1 < |versions|
    ensures |s| == |versions|
  {
    seq(|versions|, j requires 0 <= j < |versions| =>
      if j < i then Strip(versions[j])
      else if j == i then (if VersionOf(versions[i]).Ok? then Strip(versions[i]) else versions[i])
      else if j == i + 1 && VersionOf(versions[i]).Ok? && VersionOf(versions[i + 1]).Ok? then Strip(versions[i + 1])
      else versions[j])
  }

  /** A pair that fails in place on the maps of stage i leaves them as
      `Stopped` says. */
  lemma StageStopped(versions: seq<Body>, i: nat, restored: int64, after: seq<Body>, next: seq<Body>)
    requires i + 1 < |versions|
    requires after == Stage(versions, i, restored)
    requires i > 0 ==> VersionOf(versions[i]) == Ok(restored)
    requires next == FailedInPlace(after, i)
    ensures next == Stopped(versions, i)
  {
    if i > 0 {
      assert Strip(after[i]) == Strip(versions[i]);
    }
    var want := Stopped(versions, i);
    assert forall j :: 0 <= j < |versions| ==> next[j] == want[j];
  }

  /** Every stage differs from the input only in the "version" keys. */
  lemma StageOffKey(versions: seq<Body>, i: nat, restored: int64)
    requires i < |versions|
    ensures forall j :: 0 <= j < |versions| ==> Stage(versions, i, restored)[j] - {VersionKey} == versions[j] - {VersionKey}
  {
  }

  /** One iteration of the loop of `GenerateVersionDiffs`, stated against
      the maps as the caller passed them: `after` is how the previous
      iterations left them and `prev` the records so far. */
  method DiffStep(versions: seq<Body>, i: nat, after: seq<Body>, ghost prev: seq<VersionDiff>, ghost restored: int64,
                  marshalIndent: Body -> Result<string>,
                  generateDiff: (string, string, string, string) -> Result<string>)
    returns (r: Result<VersionDiff>, next: seq<Body>)
    requires i + 1 < |versions| && |prev| == i
    requires DiffRecords(versions, i, marshalIndent, generateDiff) == Ok(prev)
    requires after == Stage(versions, i, restored)
    requires i > 0 ==> VersionOf(versions[i]) == Ok(restored)
    ensures r == PairDiff(versions[i], versions[i + 1], marshalIndent, generateDiff)
    ensures |next| == |versions|
    ensures forall j :: 0 <= j < |next| ==> next[j] - {VersionKey} == versions[j] - {VersionKey}
    ensures r.Err? ==> DiffRecords(versions, |versions| - 1, marshalIndent, generateDiff) == Err(r.error)
    ensures r.Err? ==> next == Stopped(versions, i)
    ensures r.Ok? ==> DiffRecords(versions, i + 1, marshalIndent, generateDiff) == Ok(prev + [r.value])
    ensures r.Ok? ==> next == Stage(versions, i + 1, r.value.againstVersion)
    ensures r.Ok? ==> VersionOf(versions[i + 1]) == Ok(r.value.againstVersion)
  {
    if i > 0 {
      RestoredMapSameRecord(versions[i], restored, versions[i + 1], marshalIndent, generateDiff);
      assert after[i] - {VersionKey} == versions[i] - {VersionKey};
    }
    r, next := DiffPairInPlace(after, i, marshalIndent, generateDiff);
    assert r == PairDiff(versions[i], versions[i + 1], marshalIndent, generateDiff);
    if r.Err? {
      DiffRecordsStopAt(versions, i, prev, marshalIndent, generateDiff);
      StageStopped(versions, i, restored, after, next);
    } else {
      DiffRecordsExtend(versions, i, prev, r.value, marshalIndent, generateDiff);
      StageAdvanced(versions, i, restored, after, next, r.value.againstVersion);
    }
  }

  /** A pair that succeeds in place on the maps of stage i leaves them at
      stage i + 1, with the older version put back. */
  lemma StageAdvanced(versions: seq<Body>, i: nat, restored: int64, after: seq<Body>, next: seq<Body>, w: int64)
    requires i + 1 < |versions|
    requires after == Stage(versions, i, restored)
    requires i > 0 ==> VersionOf(versions[i]) == Ok(restored)
    requires |next| == |after|
    requires forall j :: 0 <= j < |after| && j != i && j != i + 1 ==> next[j] == after[j]
    requires next[i] == Strip(after[i]) && next[i + 1] == after[i + 1][VersionKey := JInt64(w)]
    ensures next == Stage(versions, i + 1, w)
  {
    assert Strip(after[i]) == Strip(versions[i]);
    var want := Stage(versions, i + 1, w);
    assert forall j :: 0 <= j < |versions| ==> next[j] == want[j];
  }

  /** What the loop keeps true before pair i: the records of the pairs
      before i are in place, the rest of the list is still zero, and the
      maps stand as `Stage` says. */
  ghost predicate DiffLoopInv(versions: seq<Body>, i: nat, list: seq<VersionDiff>, after: seq<Body>, restored: int64,
                              marshalIndent: Body -> Result<string>,
                              generateDiff: (string, string, string, string) -> Result<string>) {
    && i + 1 <= |versions|
    && |list| == |versions| - 1
    && DiffRecords(versions, i, marshalIndent, generateDiff) == Ok(list[..i])
    && (forall j :: i <= j < |list| ==> list[j] == ZeroDiff)
    && after == Stage(versions, i, restored)
    && (i > 0 ==> VersionOf(versions[i]) == Ok(restored) && restored == list[i - 1].againstVersion)
  }

  /** A successful pair i moves the loop on to pair i + 1. */
  lemma DiffLoopAdvance(versions: seq<Body>, i: nat, list: seq<VersionDiff>, after: seq<Body>, restored: int64,
                        d: VersionDiff, next: seq<Body>,
                        marshalIndent: Body -> Result<string>,
                        generateDiff: (string, string, string, string) -> Result<string>)
    requires DiffLoopInv(versions, i, list, after, restored, marshalIndent, generateDiff)
    requires i + 1 < |versions|
    requires DiffRecords(versions, i + 1, marshalIndent, generateDiff) == Ok(list[..i] + [d])
    requires next == Stage(versions, i + 1, d.againstVersion)
    requires VersionOf(versions[i + 1]) == Ok(d.againstVersion)
    ensures DiffLoopInv(versions, i + 1, list[i := d], next, d.againstVersion, marshalIndent, generateDiff)
  {
    assert list[i := d][..i + 1] == list[..i] + [d];
  }

  /** When the loop runs out of pairs, the list is complete and the maps
      are as the caller finds them. */
  lemma DiffLoopExit(versions: seq<Body>, i: nat, list: seq<VersionDiff>, after: seq<Body>, restored: int64,
                     marshalIndent: Body -> Result<string>,
                     generateDiff: (string, string, string, string) -> Result<string>)
    requires DiffLoopInv(versions, i, list, after, restored, marshalIndent, generateDiff)
    requires i + 1 >= |versions|
    ensures DiffRecords(versions, |versions| - 1, marshalIndent, generateDiff) == Ok(list)
    ensures |versions| == 1 ==> after == versions
    ensures |versions| >= 2 ==>
      (forall j :: 0 <= j < |versions| - 1 ==> after[j] == Strip(versions[j])) &&
      after[|versions| - 1] == versions[|versions| - 1][VersionKey := JInt64(list[|versions| - 2].againstVersion)]
    ensures forall j :: 0 <= j < |after| ==> after[j] - {VersionKey} == versions[j] - {VersionKey}
  {
    assert list[..i] == list;
    StageOffKey(versions, i, restored);
    if |versions| == 1 {
      assert forall j :: 0 <= j < |after| ==> after[j] == versions[j];
    }
  }

  /** The loop of `GenerateVersionDiffs` over a non-empty run: the list
      starts as n - 1 zero records and pair i fills entry i, until the
      first failing pair, whose error is returned with the list and maps as
      they stand. On success every map but the last has lost its "version"
      key and the last has it back as the int64 it parsed to. */
  method DiffLoop(versions: seq<Body>,
                  marshalIndent: Body -> Result<string>,
                  generateDiff: (string, string, string, string) -> Result<string>)
    returns (list: seq<VersionDiff>, err: Option<Error>, after: seq<Body>, ghost failedAt: nat)
    requires |versions| >= 1
    ensures |list| == |versions| - 1 && |after| == |versions|
    ensures |versions| == 1 ==> err == None && after == versions
    ensures err == None ==> DiffRecords(versions, |versions| - 1, marshalIndent, generateDiff) == Ok(list)
    ensures err.Some? ==> DiffRecords(versions, |versions| - 1, marshalIndent, generateDiff) == Err(err.value)
    ensures err == None && |versions| >= 2 ==>
      (forall j :: 0 <= j < |versions| - 1 ==> after[j] == Strip(versions[j])) &&
      after[|versions| - 1] == versions[|versions| - 1][VersionKey := JInt64(list[|versions| - 2].againstVersion)]
    ensures err.Some? ==> failedAt < |list|
    ensures err.Some? ==> DiffRecords(versions, failedAt, marshalIndent, generateDiff) == Ok(list[..failedAt])
    ensures err.Some? ==>
      PairDiff(versions[failedAt], versions[failedAt + 1], marshalIndent, generateDiff) == Err(err.value)
    ensures err.Some? ==> forall j :: failedAt <= j < |list| ==> list[j] == ZeroDiff
    ensures err.Some? ==> after == Stopped(versions, failedAt)
    ensures forall j :: 0 <= j < |after| ==> after[j] - {VersionKey} == versions[j] - {VersionKey}
  {
    failedAt := 0;
    list := seq(|versions| - 1, j => ZeroDiff);
    err := None;
    after := versions;
    var i := 0;
    ghost var restored: int64 := 0;
    assert after == Stage(versions, 0, 0);
    while i + 1 < |versions|
      invariant DiffLoopInv(versions, i, list, after, restored, marshalIndent, generateDiff)
    {
      var r, next := DiffStep(versions, i, after, list[..i], restored, marshalIndent, generateDiff);
      if r.Err? {
        after := next;
        err := Some(r.error);
        failedAt := i;
        return;
      }
      DiffLoopAdvance(versions, i, list, after, restored, r.value, next, marshalIndent, generateDiff);
      after := next;
      list := list[i := r.value];
      restored := r.value.againstVersion;
      i := i + 1;
    }
    DiffLoopExit(versions, i, list, after, restored, marshalIndent, generateDiff);
  }

  /** `GenerateVersionDiffs`, as written. `versions` is newest first; Go
      maps are references, so the maps as the loop leaves them are returned
      in `after`. With no input at all the Go code panics (`make` with
      length -1), reported as `panicked`; otherwise it runs `DiffLoop`. On
      an error, `failedAt` names the pair at which the loop stopped. */
  method GenerateVersionDiffs(versions: seq<Body>,
                              marshalIndent: Body -> Result<string>,
                              generateDiff: (string, string, string, string) -> Result<string>)
    returns (panicked: bool, list: seq<VersionDiff>, err: Option<Error>, after: seq<Body>, ghost failedAt: nat)
    ensures panicked <==> |versions| == 0
    ensures panicked ==> list == [] && err == None && after == versions
    ensures !panicked ==> |list| == |versions| - 1
    ensures |after| == |versions|
    ensures |versions| == 1 ==> list == [] && err == None && after == versions
    ensures !panicked && err == None ==> DiffRecords(versions, |versions| - 1, marshalIndent, generateDiff) == Ok(list)
    ensures !panicked && err.Some? ==> DiffRecords(versions, |versions| - 1, marshalIndent, generateDiff) == Err(err.value)
    ensures err.Some? ==> failedAt < |list|
    ensures err.Some? ==>
      PairDiff(versions[failedAt], versions[failedAt + 1], marshalIndent, generateDiff) == Err(err.value)
    ensures err.Some? ==> forall j :: failedAt <= j < |list| ==> list[j] == ZeroDiff
    ensures !panicked && err == None && |versions| >= 2 ==>
      (forall j :: 0 <= j < |versions| - 1 ==> after[j] == Strip(versions[j])) &&
      after[|versions| - 1] == versions[|versions| - 1][VersionKey := JInt64(list[|versions| - 2].againstVersion)]
    ensures err.Some? ==> after == Stopped(versions, failedAt)
    ensures forall j :: 0 <= j < |after| ==> after[j] - {VersionKey} == versions[j] - {VersionKey}
  {
    if |versions| == 0 {
      return true, [], None, versions, 0;
    }
    panicked := false;
    list, err, after, failedAt := DiffLoop(versions, marshalIndent, generateDiff);
  }

  /** The evidently intended behaviour: an empty run of snapshots has no
      adjacent pair and yields an empty list instead of a panic; every other
      input is handled exactly as `GenerateVersionDiffs` handles it. */
  method GenerateVersionDiffsTotal(versions: seq<Body>,
                                   marshalIndent: Body -> Result<string>,
                                   generateDiff: (string, string, string, string) -> Result<string>)
    returns (list: seq<VersionDiff>, err: Option<Error>, after: seq<Body>, ghost failedAt: nat)
    ensures |list| == if |versions| == 0 then 0 else |versions| - 1
    ensures |after| == |versions|
    ensures |versions| <= 1 ==> list == [] && err == None && after == versions
    ensures |versions| >= 1 && err == None ==> DiffRecords(versions, |versions| - 1, marshalIndent, generateDiff) == Ok(list)
    ensures |versions| >= 1 && err.Some? ==> DiffRecords(versions, |versions| - 1, marshalIndent, generateDiff) == Err(err.value)
    ensures err == None && |versions| >= 2 ==>
      (forall j :: 0 <= j < |versions| - 1 ==> after[j] == Strip(versions[j])) &&
      after[|versions| - 1] == versions[|versions| - 1][VersionKey := JInt64(list[|versions| - 2].againstVersion)]
    ensures err.Some? ==> failedAt < |list|
    ensures err.Some? ==>
      PairDiff(versions[failedAt], versions[failedAt + 1], marshalIndent, generateDiff) == Err(err.value)
    ensures err.Some? ==> forall j :: failedAt <= j < |list| ==> list[j] == ZeroDiff
    ensures err.Some? ==> after == Stopped(versions, failedAt)
    ensures err.Some? ==> exists i :: 0 <= i < |versions| - 1 && after == Stopped(versions, i)
    ensures forall j :: 0 <= j < |after| ==> after[j] - {VersionKey} == versions[j] - {VersionKey}
  {
    if |versions| == 0 {
      return [], None, versions, 0;
    }
    var panicked;
    panicked, list, err, after, failedAt := GenerateVersionDiffs(versions, marshalIndent, generateDiff);
  }
}
