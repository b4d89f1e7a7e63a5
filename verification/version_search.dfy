/** What the version index answers to the query `GetAssetVersions` sends:
    the documents of one type whose `_id` starts with a given text, sorted
    on their "version" field in descending order (documents without a
    numeric version last), at most `size` of them. Ties in the sort order
    may come back in any order, so the answer is specified by a predicate,
    `IsListing`, and `SelectTop` shows one way to meet it. */
module VersionSearch {
  import opened Base

  /** A document address in an index: mapping type and `_id`. */
  datatype DocKey = DocKey(assetType: string, id: string)

  /** A search hit: the document's address and its `_source`. */
  datatype Hit = Hit(key: DocKey, body: Body)

  function Min(a: int, b: int): int {
    if a <= b then a else b
  }

  predicate IsPrefix(p: string, s: string) {
    |p| <= |s| && s[..|p|] == p
  }

  /** The value the search sorts on: the numeric "version" field, none when
      the field is missing or not a number. */
  function SortValue(b: Body): Option<real> {
    match Get(b, VersionKey)
    case JFloat(f) => Some(f)
    case JInt64(i) => Some(i as real)
    case JInt(i) => Some(i as real)
    case _ => None
  }

  /** `a` may come before `b` in a descending sort with missing values last. */
  predicate RanksAtLeast(a: Option<real>, b: Option<real>) {
    match b
    case None => true
    case Some(y) => a.Some? && a.value >= y
  }

  predicate Outranks(a: Body, b: Body) {
    RanksAtLeast(SortValue(a), SortValue(b))
  }

  /** The order is total and transitive, so a descending sort exists. */
  lemma OutranksTotalPreorder(a: Body, b: Body, c: Body)
    ensures Outranks(a, b) || Outranks(b, a)
    ensures Outranks(a, b) && Outranks(b, c) ==> Outranks(a, c)
  {
  }

  /** The documents the prefix query on `_id` selects within one type. */
  function Matching(docs: map<DocKey, Body>, assetType: string, prefix: string): (m: map<DocKey, Body>)
    ensures forall k :: k in m <==> k in docs && k.assetType == assetType && IsPrefix(prefix, k.id)
    ensures forall k :: k in m ==> m[k] == docs[k]
  {
    map k | k in docs && k.assetType == assetType && IsPrefix(prefix, k.id) :: docs[k]
  }

  function KeysOf(hits: seq<Hit>): set<DocKey> {
    set i | 0 <= i < |hits| :: hits[i].key
  }

  lemma KeysOfAppend(hits: seq<Hit>, h: Hit)
    ensures KeysOf(hits + [h]) == KeysOf(hits) + {h.key}
  {
    var h' := hits + [h];
    forall k | k in KeysOf(h') ensures k in KeysOf(hits) + {h.key} {
      var i :| 0 <= i < |h'| && h'[i].key == k;
      if i < |hits| {
        assert hits[i].key == k;
      }
    }
    forall k | k in KeysOf(hits) ensures k in KeysOf(h') {
      var i :| 0 <= i < |hits| && hits[i].key == k;
      assert h'[i].key == k;
    }
    assert h'[|hits|].key == h.key;
  }

  /** `hits` is an answer the search may give when asked for the top
      `count` of `docs`: as many as asked for or as there are, each a
      distinct document with its stored body, in descending sort order,
      and no document left out ranks above one that was returned. */
  predicate IsListing(docs: map<DocKey, Body>, count: nat, hits: seq<Hit>) {
    && |hits| == Min(count, |docs|)
    && (forall i :: 0 <= i < |hits| ==> hits[i].key in docs && hits[i].body == docs[hits[i].key])
    && (forall i, j :: 0 <= i < j < |hits| ==> hits[i].key != hits[j].key)
    && (forall i, j :: 0 <= i < j < |hits| ==> Outranks(hits[i].body, hits[j].body))
    && (forall k, i :: k in docs && k !in KeysOf(hits) && 0 <= i < |hits| ==> Outranks(hits[i].body, docs[k]))
  }

  /** A key of `keys` whose document ranks at least as high as every other. */
  method PickTop(docs: map<DocKey, Body>, keys: set<DocKey>) returns (best: DocKey)
    requires keys != {} && keys <= docs.Keys
    ensures best in keys
    ensures forall k :: k in keys ==> Outranks(docs[best], docs[k])
  {
    best :| best in keys;
    var rest := keys - {best};
    while rest != {}
      invariant best in keys && rest <= keys
      invariant forall k :: k in keys && k !in rest ==> Outranks(docs[best], docs[k])
      decreases |rest|
    {
      var k :| k in rest;
      if !Outranks(docs[best], docs[k]) {
        forall k' | k' in keys && k' !in rest
          ensures Outranks(docs[k], docs[k'])
        {
          OutranksTotalPreorder(docs[k], docs[best], docs[k']);
        }
        best := k;
      }
      rest := rest - {k};
    }
  }

  /** What the selection below keeps true: `hits` are distinct documents
      with their bodies, in descending order, the documents not yet chosen
      are exactly those in `remaining`, and none of them ranks above a hit. */
  predicate SortedPrefix(docs: map<DocKey, Body>, remaining: set<DocKey>, hits: seq<Hit>) {
    && remaining <= docs.Keys
    && (forall k :: k in docs && k !in remaining ==> k in KeysOf(hits))
    && (forall i :: 0 <= i < |hits| ==> hits[i].key in docs && hits[i].key !in remaining && hits[i].body == docs[hits[i].key])
    && (forall i, j :: 0 <= i < j < |hits| ==> hits[i].key != hits[j].key)
    && (forall i, j :: 0 <= i < j < |hits| ==> Outranks(hits[i].body, hits[j].body))
    && (forall k, i :: k in remaining && 0 <= i < |hits| ==> Outranks(hits[i].body, docs[k]))
  }

  /** Choosing a top document of `remaining` extends the sorted prefix. */
  lemma SortedPrefixStep(docs: map<DocKey, Body>, remaining: set<DocKey>, hits: seq<Hit>, best: DocKey)
    requires SortedPrefix(docs, remaining, hits)
    requires best in remaining
    requires forall k :: k in remaining ==> Outranks(docs[best], docs[k])
    ensures SortedPrefix(docs, remaining - {best}, hits + [Hit(best, docs[best])])
  {
    var h := Hit(best, docs[best]);
    var hits' := hits + [h];
    var remaining' := remaining - {best};
    KeysOfAppend(hits, h);
    assert hits'[|hits|] == h;
    forall i | 0 <= i < |hits'|
      ensures hits'[i].key in docs && hits'[i].key !in remaining' && hits'[i].body == docs[hits'[i].key]
    {
      if i < |hits| {
        assert hits'[i] == hits[i];
      }
    }
    forall k | k in docs && k !in remaining'
      ensures k in KeysOf(hits')
    {
      if k != best {
        assert k !in remaining && k in KeysOf(hits);
      }
    }
    forall i, j | 0 <= i < j < |hits'|
      ensures hits'[i].key != hits'[j].key && Outranks(hits'[i].body, hits'[j].body)
    {
      if j < |hits| {
        assert hits'[i] == hits[i] && hits'[j] == hits[j];
      } else {
        assert hits'[i] == hits[i];
      }
    }
    forall k, i | k in remaining' && 0 <= i < |hits'|
      ensures Outranks(hits'[i].body, docs[k])
    {
      if i < |hits| {
        assert hits'[i] == hits[i];
      }
    }
  }

  /** A selection sort that meets `IsListing`: the search as the model
      runs it. */
  method SelectTop(docs: map<DocKey, Body>, count: nat) returns (hits: seq<Hit>)
    ensures IsListing(docs, count, hits)
  {
    hits := [];
    var remaining := docs.Keys;
    while |hits| < count && remaining != {}
      invariant SortedPrefix(docs, remaining, hits)
      invariant |hits| <= count && |remaining| == |docs| - |hits|
      decreases |remaining|
    {
      var best := PickTop(docs, remaining);
      SortedPrefixStep(docs, remaining, hits, best);
      hits := hits + [Hit(best, docs[best])];
      remaining := remaining - {best};
    }
  }
}
