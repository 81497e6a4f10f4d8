/**
 * Document persistence (src/storage/indexedDb.ts): an IndexedDB object store
 * keyed by document id with an index on `updatedAt`, and a fallback list kept
 * as JSON in localStorage. Which of the two serves a call depends on whether
 * IndexedDB exists, on the lazily opened connection, and on whether the
 * IndexedDB request throws; these are the `idbAvailable` constant and the
 * `Faults` oracles below.
 */
module Storage {
  import opened Wrappers

  /** The persisted record; all four fields are read-only in the source. */
  datatype Document = Document(id: string, title: string, content: string, updatedAt: int)

  /** What localStorage holds under the fallback key: nothing, text JSON.parse rejects, or a list. */
  datatype FallbackSlot = Missing | Unparsable | Stored(docs: seq<Document>)

  /** The lazily created connection promise: not yet requested, resolved, or rejected. */
  datatype Handle = Unopened | Opened | OpenFailed

  /**
   * The failures one storage call can meet: opening the database rejects,
   * the IndexedDB request throws, `localStorage.setItem` throws.
   */
  datatype Faults = Faults(openFails: bool, requestFails: bool, localWriteFails: bool)

  /** The two backends: the IndexedDB object store and the localStorage slot. */
  datatype Backends = Backends(primary: map<string, Document>, local: FallbackSlot)

  // ---------------------------------------------------------------------------
  // The localStorage fallback list
  // ---------------------------------------------------------------------------

  /** `getFromLocalStorage`: the stored list, or the empty list when it is absent or unparsable. */
  function FromLocalStorage(slot: FallbackSlot): (docs: seq<Document>)
    ensures slot.Missing? || slot.Unparsable? ==> docs == []
    ensures slot.Stored? ==> docs == slot.docs
  {
    if slot.Stored? then slot.docs else []
  }

  /** `saveToLocalStorage`: the slot after writing `docs`; a failed write leaves it as it was. */
  function ToLocalStorage(slot: FallbackSlot, docs: seq<Document>, writeFails: bool): (r: FallbackSlot)
    ensures FromLocalStorage(r) == if writeFails then FromLocalStorage(slot) else docs
  {
    if writeFails then slot else Stored(docs)
  }

  /** `docs.findIndex(d => d.id === id)`: the first index holding `id`, or -1. */
  function FindIndex(docs: seq<Document>, id: string): (i: int)
    ensures -1 <= i < |docs|
    ensures i >= 0 ==> docs[i].id == id && forall j :: 0 <= j < i ==> docs[j].id != id
    ensures i == -1 <==> forall j :: 0 <= j < |docs| ==> docs[j].id != id
  {
    if docs == [] then -1
    else if docs[0].id == id then 0
    else
      var k := FindIndex(docs[1..], id);
      if k < 0 then -1 else k + 1
  }

  /** `docs.find(d => d.id === id)`: the first entry with that id, if any. */
  function Find(docs: seq<Document>, id: string): (r: Option<Document>)
    ensures r.None? <==> forall j :: 0 <= j < |docs| ==> docs[j].id != id
    ensures r.Some? ==> r.value.id == id
    ensures r.Some? ==> exists i :: 0 <= i < |docs| && docs[i] == r.value && forall j :: 0 <= j < i ==> docs[j].id != id
  {
    var i := FindIndex(docs, id);
    if i < 0 then None else Some(docs[i])
  }

  /**
   * The list an upsert of `doc` produces: the first entry with `doc.id`
   * replaced by `doc`, or `doc` appended when there is none.
   */
  function Upserted(docs: seq<Document>, doc: Document): seq<Document>
  {
    if docs == [] then [doc]
    else if docs[0].id == doc.id then [doc] + docs[1..]
    else [docs[0]] + Upserted(docs[1..], doc)
  }

  /** The upsert replaces at the index `findIndex` reports, or appends; nothing else moves. */
  lemma {:induction false} UpsertedShape(docs: seq<Document>, doc: Document)
    ensures var i, r := FindIndex(docs, doc.id), Upserted(docs, doc);
            if i >= 0 then
              |r| == |docs| && r[i] == doc && forall j :: 0 <= j < |docs| && j != i ==> r[j] == docs[j]
            else
              r == docs + [doc]
  {
    if docs != [] && docs[0].id != doc.id {
      UpsertedShape(docs[1..], doc);
      assert docs == [docs[0]] + docs[1..];
    }
  }

  /** After an upsert, `find` by the saved id yields the saved document. */
  lemma UpsertThenFind(docs: seq<Document>, doc: Document)
    ensures Find(Upserted(docs, doc), doc.id) == Some(doc)
  {
    UpsertedShape(docs, doc);
    var i, r := FindIndex(docs, doc.id), Upserted(docs, doc);
    if i >= 0 {
      assert FindIndex(r, doc.id) == i by {
        assert forall j :: 0 <= j < i ==> r[j] == docs[j];
      }
    } else {
      assert FindIndex(r, doc.id) == |docs| by {
        assert forall j :: 0 <= j < |docs| ==> r[j] == docs[j];
      }
    }
  }

  /** An upsert does not change what `find` yields for any other id. */
  lemma UpsertKeepsOthers(docs: seq<Document>, doc: Document, id: string)
    requires id != doc.id
    ensures Find(Upserted(docs, doc), id) == Find(docs, id)
  {
    UpsertedShape(docs, doc);
    var i, r := FindIndex(docs, doc.id), Upserted(docs, doc);
    var k := FindIndex(docs, id);
    if k >= 0 {
      assert FindIndex(r, id) == k by {
        assert r[k] == docs[k];
        assert forall j :: 0 <= j < k ==> r[j].id != id by {
          forall j | 0 <= j < k ensures r[j].id != id {
            if j != i { assert r[j] == docs[j]; }
          }
        }
      }
    } else {
      assert FindIndex(r, id) == -1 by {
        forall j | 0 <= j < |r| ensures r[j].id != id {
          if j != i && j < |docs| { assert r[j] == docs[j]; }
        }
      }
    }
  }

  /** `docs.filter(d => d.id !== id)`. */
  function Without(docs: seq<Document>, id: string): (r: seq<Document>)
    ensures |r| <= |docs|
  {
    if docs == [] then []
    else if docs[0].id == id then Without(docs[1..], id)
    else [docs[0]] + Without(docs[1..], id)
  }

  /** The filter keeps exactly the entries whose id differs. */
  lemma {:induction false} WithoutMembership(docs: seq<Document>, id: string, d: Document)
    ensures d in Without(docs, id) <==> d in docs && d.id != id
  {
    if docs != [] {
      WithoutMembership(docs[1..], id, d);
      assert d in docs <==> d == docs[0] || d in docs[1..];
    }
  }

  /** The filter works entry by entry, so the remaining entries keep their order. */
  lemma {:induction false} WithoutConcat(a: seq<Document>, b: seq<Document>, id: string)
    ensures Without(a + b, id) == Without(a, id) + Without(b, id)
  {
    if a != [] {
      WithoutConcat(a[1..], b, id);
      var head := if a[0].id == id then [] else [a[0]];
      var w, v := Without(a[1..], id), Without(b, id);
      assert (a + b)[1..] == a[1..] + b;
      assert Without(a + b, id) == head + (w + v);
      assert Without(a, id) == head + w;
      assert head + (w + v) == (head + w) + v;
    } else {
      assert a + b == b;
    }
  }

  /** A list without the id is left exactly as it was. */
  lemma {:induction false} WithoutAbsent(docs: seq<Document>, id: string)
    requires forall j :: 0 <= j < |docs| ==> docs[j].id != id
    ensures Without(docs, id) == docs
  {
    if docs != [] {
      WithoutAbsent(docs[1..], id);
    }
  }

  /** After the filter, `find` by that id yields nothing; other ids are found as before. */
  lemma {:induction false} WithoutThenFind(docs: seq<Document>, id: string, other: string)
    ensures Find(Without(docs, id), id) == None
    ensures other != id ==> Find(Without(docs, id), other) == Find(docs, other)
  {
    if docs != [] {
      WithoutThenFind(docs[1..], id, other);
    }
  }

  // ---------------------------------------------------------------------------
  // The IndexedDB object store and its `by-updatedAt` index
  // ---------------------------------------------------------------------------

  /** The object store uses `id` as its key path, so every value is filed under its own id. */
  ghost predicate KeyedById(m: map<string, Document>) {
    forall k :: k in m ==> m[k].id == k
  }

  /** Lexicographic order of strings, by character code. */
  predicate StrLess(a: string, b: string) {
    if a == [] then b != []
    else if b == [] then false
    else if a[0] != b[0] then a[0] < b[0]
    else StrLess(a[1..], b[1..])
  }

  lemma {:induction false} StrLessAsymmetric(a: string, b: string)
    ensures StrLess(a, b) ==> !StrLess(b, a)
  {
    if a != [] && b != [] && a[0] == b[0] {
      StrLessAsymmetric(a[1..], b[1..]);
    }
  }

  lemma {:induction false} StrLessTransitive(a: string, b: string, c: string)
    requires StrLess(a, b) && StrLess(b, c)
    ensures StrLess(a, c)
  {
    if a != [] && a[0] == b[0] && b[0] == c[0] {
      StrLessTransitive(a[1..], b[1..], c[1..]);
    }
  }

  lemma {:induction false} StrLessTotal(a: string, b: string)
    requires a != b
    ensures StrLess(a, b) || StrLess(b, a)
  {
    if a != [] && b != [] && a[0] == b[0] {
      assert a == [a[0]] + a[1..] && b == [b[0]] + b[1..];
      StrLessTotal(a[1..], b[1..]);
    }
  }

  /** The order of the `by-updatedAt` index: by `updatedAt`, ties by the primary key. */
  predicate Precedes(a: Document, b: Document) {
    a.updatedAt < b.updatedAt || (a.updatedAt == b.updatedAt && StrLess(a.id, b.id))
  }

  lemma PrecedesAsymmetric(a: Document, b: Document)
    ensures Precedes(a, b) ==> !Precedes(b, a)
  {
    StrLessAsymmetric(a.id, b.id);
  }

  lemma PrecedesTransitive(a: Document, b: Document, c: Document)
    requires Precedes(a, b) && Precedes(b, c)
    ensures Precedes(a, c)
  {
    if a.updatedAt == b.updatedAt == c.updatedAt {
      StrLessTransitive(a.id, b.id, c.id);
    }
  }

  /** `docs` is in the order of the `by-updatedAt` index. */
  predicate InIndexOrder(docs: seq<Document>) {
    forall i, j :: 0 <= i < j < |docs| ==> Precedes(docs[i], docs[j])
  }

  /** `k` holds the first document of the index. */
  predicate IsLeastKey(m: map<string, Document>, k: string) {
    k in m && forall j :: j in m && j != k ==> Precedes(m[k], m[j])
  }

  lemma MapRemoveSize(m: map<string, Document>, k: string)
    requires k in m
    ensures |m - {k}| == |m| - 1
  {
    assert (m - {k}).Keys == m.Keys - {k};
  }

  lemma {:induction false} LeastKeyExists(m: map<string, Document>)
    requires KeyedById(m) && m != map[]
    ensures exists k :: IsLeastKey(m, k)
    decreases |m|
  {
    var j :| j in m;
    var rest := m - {j};
    if rest == map[] {
      assert IsLeastKey(m, j);
    } else {
      MapRemoveSize(m, j);
      LeastKeyExists(rest);
      var k :| IsLeastKey(rest, k);
      assert m[j].id == j && m[k].id == k && k != j;
      StrLessTotal(j, k);
      if Precedes(m[j], m[k]) {
        forall i | i in m && i != j ensures Precedes(m[j], m[i]) {
          if i != k {
            assert i in rest;
            PrecedesTransitive(m[j], m[k], m[i]);
          }
        }
        assert IsLeastKey(m, j);
      } else {
        assert Precedes(m[k], m[j]);
        forall i | i in m && i != k ensures Precedes(m[k], m[i]) {
          if i != j { assert i in rest; }
        }
        assert IsLeastKey(m, k);
      }
    }
  }

  /** The key of the first document of the index. */
  function LeastKey(m: map<string, Document>): (k: string)
    requires KeyedById(m) && m != map[]
    ensures IsLeastKey(m, k)
  {
    LeastKeyExists(m);
    assert forall a, b :: IsLeastKey(m, a) && IsLeastKey(m, b) ==> a == b by {
      forall a, b | IsLeastKey(m, a) && IsLeastKey(m, b) ensures a == b {
        PrecedesAsymmetric(m[a], m[b]);
      }
    }
    var k :| IsLeastKey(m, k);
    k
  }

  /** `docs` lists each document of `m` exactly once and nothing else. */
  ghost predicate Enumerates(docs: seq<Document>, m: map<string, Document>) {
    && |docs| == |m|
    && (forall i :: 0 <= i < |docs| ==> docs[i].id in m && m[docs[i].id] == docs[i])
    && (forall i, j :: 0 <= i < j < |docs| ==> docs[i].id != docs[j].id)
    && (forall k :: k in m ==> m[k] in docs)
  }

  /** `getAllFromIndex(STORE_NAME, 'by-updatedAt')`: every stored document, in index order. */
  function IndexOrder(m: map<string, Document>): seq<Document>
    requires KeyedById(m)
    decreases |m|
  {
    if m == map[] then []
    else
      var k := LeastKey(m);
      MapRemoveSize(m, k);
      [m[k]] + IndexOrder(m - {k})
  }

  /** The index lists every stored document exactly once. */
  lemma {:induction false} IndexOrderEnumerates(m: map<string, Document>)
    requires KeyedById(m)
    ensures Enumerates(IndexOrder(m), m)
    decreases |m|
  {
    if m != map[] {
      var k := LeastKey(m);
      MapRemoveSize(m, k);
      IndexOrderEnumerates(m - {k});
      EnumeratesCons(m, k, IndexOrder(m - {k}));
    }
  }

  /** Listing one document before a listing of the others lists them all. */
  lemma EnumeratesCons(m: map<string, Document>, k: string, tail: seq<Document>)
    requires KeyedById(m) && k in m
    requires Enumerates(tail, m - {k})
    ensures Enumerates([m[k]] + tail, m)
  {
    var rest := m - {k};
    MapRemoveSize(m, k);
    var asc := [m[k]] + tail;
    assert forall i :: 1 <= i < |asc| ==> asc[i] == tail[i - 1];
    forall i | 0 <= i < |asc| ensures asc[i].id in m && m[asc[i].id] == asc[i] {
      if i > 0 { assert tail[i - 1].id in rest; }
    }
    forall i, j | 0 <= i < j < |asc| ensures asc[i].id != asc[j].id {
      assert tail[j - 1].id in rest;
      if i > 0 { assert tail[i - 1].id != tail[j - 1].id; }
    }
    forall x | x in m ensures m[x] in asc {
      if x != k { assert x in rest && rest[x] in tail; }
    }
  }

  /** The index lists the documents in `Precedes` order. */
  lemma {:induction false} IndexOrderSorted(m: map<string, Document>)
    requires KeyedById(m)
    ensures InIndexOrder(IndexOrder(m))
    decreases |m|
  {
    if m != map[] {
      var k := LeastKey(m);
      var rest := m - {k};
      MapRemoveSize(m, k);
      IndexOrderSorted(rest);
      IndexOrderEnumerates(rest);
      var tail := IndexOrder(rest);
      forall t | 0 <= t < |tail| ensures Precedes(m[k], tail[t]) {
        var id := tail[t].id;
        assert id in rest && rest[id] == tail[t];
      }
      SortedCons(m[k], tail);
    }
  }

  /** A document that precedes every entry of a sorted list may go in front of it. */
  lemma SortedCons(x: Document, tail: seq<Document>)
    requires InIndexOrder(tail)
    requires forall t :: 0 <= t < |tail| ==> Precedes(x, tail[t])
    ensures InIndexOrder([x] + tail)
  {
    var asc := [x] + tail;
    forall i, j | 0 <= i < j < |asc| ensures Precedes(asc[i], asc[j]) {
      assert asc[j] == tail[j - 1];
      if i > 0 {
        assert asc[i] == tail[i - 1];
      }
    }
  }

  function Reversed<T>(s: seq<T>): (r: seq<T>)
    ensures |r| == |s|
    ensures forall i :: 0 <= i < |s| ==> r[i] == s[|s| - 1 - i]
  {
    if s == [] then [] else Reversed(s[1..]) + [s[0]]
  }

  /** Most recent first: what `docs.reverse()` makes of the index order. */
  predicate MostRecentFirst(docs: seq<Document>) {
    forall i, j :: 0 <= i < j < |docs| ==> docs[i].updatedAt >= docs[j].updatedAt
  }

  /** Reversing a list keeps it an enumeration of the same map. */
  lemma ReversedEnumerates(docs: seq<Document>, m: map<string, Document>)
    requires Enumerates(docs, m)
    ensures Enumerates(Reversed(docs), m)
  {
    ReversedKeyed(docs, m);
    ReversedDistinct(docs);
    ReversedCovers(docs, m);
  }

  lemma ReversedKeyed(docs: seq<Document>, m: map<string, Document>)
    requires forall i :: 0 <= i < |docs| ==> docs[i].id in m && m[docs[i].id] == docs[i]
    ensures forall i :: 0 <= i < |Reversed(docs)| ==> Reversed(docs)[i].id in m && m[Reversed(docs)[i].id] == Reversed(docs)[i]
  {
    var r := Reversed(docs);
    forall i | 0 <= i < |r| ensures r[i].id in m && m[r[i].id] == r[i] {
      assert r[i] == docs[|docs| - 1 - i];
    }
  }

  lemma ReversedDistinct(docs: seq<Document>)
    requires forall i, j :: 0 <= i < j < |docs| ==> docs[i].id != docs[j].id
    ensures forall i, j :: 0 <= i < j < |Reversed(docs)| ==> Reversed(docs)[i].id != Reversed(docs)[j].id
  {
    var r := Reversed(docs);
    forall i, j | 0 <= i < j < |r| ensures r[i].id != r[j].id {
      assert r[i] == docs[|docs| - 1 - i] && r[j] == docs[|docs| - 1 - j];
    }
  }

  lemma ReversedCovers(docs: seq<Document>, m: map<string, Document>)
    requires forall k :: k in m ==> m[k] in docs
    ensures forall k :: k in m ==> m[k] in Reversed(docs)
  {
    var r := Reversed(docs);
    forall k | k in m ensures m[k] in r {
      var i :| 0 <= i < |docs| && docs[i] == m[k];
      assert r[|docs| - 1 - i] == m[k];
    }
  }

  /** The reversed index lists every stored document once, most recent first. */
  lemma RecencyOrder(m: map<string, Document>)
    requires KeyedById(m)
    ensures Enumerates(Reversed(IndexOrder(m)), m)
    ensures var docs := Reversed(IndexOrder(m));
            forall i, j :: 0 <= i < j < |docs| ==> Precedes(docs[j], docs[i])
    ensures MostRecentFirst(Reversed(IndexOrder(m)))
  {
    var asc := IndexOrder(m);
    IndexOrderEnumerates(m);
    IndexOrderSorted(m);
    ReversedEnumerates(asc, m);
    ReversedDescending(asc);
  }

  /** Reversing a list in index order puts every document after the ones it precedes. */
  lemma ReversedDescending(asc: seq<Document>)
    requires InIndexOrder(asc)
    ensures forall i, j :: 0 <= i < j < |Reversed(asc)| ==> Precedes(Reversed(asc)[j], Reversed(asc)[i])
    ensures MostRecentFirst(Reversed(asc))
  {
    var docs := Reversed(asc);
    forall i, j | 0 <= i < j < |docs| ensures Precedes(docs[j], docs[i]) {
      assert docs[j] == asc[|asc| - 1 - j] && docs[i] == asc[|asc| - 1 - i];
    }
  }

  /** The head of the reversed index is a most recently updated document. */
  lemma RecencyHead(m: map<string, Document>)
    requires KeyedById(m) && m != map[]
    ensures var docs := Reversed(IndexOrder(m));
            docs != [] && docs[0].id in m && m[docs[0].id] == docs[0]
            && forall k :: k in m ==> m[k].updatedAt <= docs[0].updatedAt
  {
    RecencyOrder(m);
    HeadIsNewest(Reversed(IndexOrder(m)), m);
  }

  lemma HeadIsNewest(docs: seq<Document>, m: map<string, Document>)
    requires Enumerates(docs, m) && MostRecentFirst(docs) && m != map[]
    ensures docs != [] && docs[0].id in m && m[docs[0].id] == docs[0]
    ensures forall k :: k in m ==> m[k].updatedAt <= docs[0].updatedAt
  {
    var k0 :| k0 in m;
    assert m[k0] in docs;
    forall k | k in m ensures m[k].updatedAt <= docs[0].updatedAt {
      var i :| 0 <= i < |docs| && docs[i] == m[k];
    }
  }

  // ---------------------------------------------------------------------------
  // The exported operations over both backends
  // ---------------------------------------------------------------------------

  /** `getAllDocuments`: the reversed index, or the fallback list in stored order. */
  function Listing(b: Backends, servedByPrimary: bool): seq<Document>
    requires KeyedById(b.primary)
  {
    if servedByPrimary then Reversed(IndexOrder(b.primary)) else FromLocalStorage(b.local)
  }

  /** `getDocument`: the stored value under `id`, or the first fallback entry with it. */
  function Lookup(b: Backends, servedByPrimary: bool, id: string): Option<Document>
  {
    if servedByPrimary then (if id in b.primary then Some(b.primary[id]) else None)
    else Find(FromLocalStorage(b.local), id)
  }

  /** `saveDocument`: a put into the object store, or an upsert into the fallback list. */
  function Saved(b: Backends, servedByPrimary: bool, doc: Document, writeFails: bool): (r: Backends)
    requires KeyedById(b.primary)
    ensures KeyedById(r.primary)
  {
    if servedByPrimary then Backends(b.primary[doc.id := doc], b.local)
    else Backends(b.primary, ToLocalStorage(b.local, Upserted(FromLocalStorage(b.local), doc), writeFails))
  }

  /** `deleteDocument`: a delete from the object store, or a filter of the fallback list. */
  function Deleted(b: Backends, servedByPrimary: bool, id: string, writeFails: bool): (r: Backends)
    requires KeyedById(b.primary)
    ensures KeyedById(r.primary)
  {
    if servedByPrimary then Backends(b.primary - {id}, b.local)
    else Backends(b.primary, ToLocalStorage(b.local, Without(FromLocalStorage(b.local), id), writeFails))
  }

  /** `getLastDocument`: the first entry of the listing, if any. */
  function LastDocument(b: Backends, servedByPrimary: bool): (r: Option<Document>)
    requires KeyedById(b.primary)
    ensures r.None? <==> Listing(b, servedByPrimary) == []
    ensures r.Some? && servedByPrimary ==>
              r.value.id in b.primary && b.primary[r.value.id] == r.value
              && forall k :: k in b.primary ==> b.primary[k].updatedAt <= r.value.updatedAt
    ensures r.Some? && !servedByPrimary ==> r.value == FromLocalStorage(b.local)[0]
  {
    var docs := Listing(b, servedByPrimary);
    RecencyOrder(b.primary);
    if servedByPrimary && b.primary != map[] then
      RecencyHead(b.primary);
      Some(docs[0])
    else if docs == [] then None
    else Some(docs[0])
  }

  /** Round trip: a save that reaches a backend is read back from it. */
  lemma SaveThenLookup(b: Backends, servedByPrimary: bool, doc: Document, writeFails: bool)
    requires KeyedById(b.primary)
    requires servedByPrimary || !writeFails
    ensures Lookup(Saved(b, servedByPrimary, doc, writeFails), servedByPrimary, doc.id) == Some(doc)
  {
    if !servedByPrimary {
      UpsertThenFind(FromLocalStorage(b.local), doc);
    }
  }

  /** A save leaves every other id as it was. */
  lemma SaveKeepsOthers(b: Backends, servedByPrimary: bool, doc: Document, writeFails: bool, id: string)
    requires KeyedById(b.primary) && id != doc.id
    ensures Lookup(Saved(b, servedByPrimary, doc, writeFails), servedByPrimary, id) == Lookup(b, servedByPrimary, id)
  {
    if !servedByPrimary && !writeFails {
      UpsertKeepsOthers(FromLocalStorage(b.local), doc, id);
    }
  }

  /** Round trip: after a delete that reaches a backend, the id is not found there; other ids are. */
  lemma DeleteThenLookup(b: Backends, servedByPrimary: bool, id: string, writeFails: bool, other: string)
    requires KeyedById(b.primary)
    requires servedByPrimary || !writeFails
    ensures Lookup(Deleted(b, servedByPrimary, id, writeFails), servedByPrimary, id) == None
    ensures other != id ==>
              Lookup(Deleted(b, servedByPrimary, id, writeFails), servedByPrimary, other) == Lookup(b, servedByPrimary, other)
  {
    if !servedByPrimary {
      WithoutThenFind(FromLocalStorage(b.local), id, other);
    }
  }

  /** What `getDocument` finds carries the id asked for and is also listed by `getAllDocuments`. */
  lemma LookupListed(b: Backends, servedByPrimary: bool, id: string)
    requires KeyedById(b.primary)
    ensures Lookup(b, servedByPrimary, id).Some? ==>
              var d := Lookup(b, servedByPrimary, id).value;
              d.id == id && d in Listing(b, servedByPrimary)
  {
    if servedByPrimary {
      RecencyOrder(b.primary);
    }
  }

  /** Saving into an empty backend leaves exactly that one document listed. */
  lemma SaveIntoEmpty(b: Backends, servedByPrimary: bool, doc: Document, writeFails: bool)
    requires KeyedById(b.primary) && Listing(b, servedByPrimary) == []
    requires servedByPrimary || !writeFails
    ensures Listing(Saved(b, servedByPrimary, doc, writeFails), servedByPrimary) == [doc]
  {
    var r := Saved(b, servedByPrimary, doc, writeFails);
    if servedByPrimary {
      RecencyOrder(b.primary);
      assert b.primary == map[];
      var docs := Listing(r, true);
      RecencyOrder(r.primary);
      assert r.primary == map[doc.id := doc];
      assert |docs| == 1 && docs[0].id in r.primary;
    }
  }

  // ---------------------------------------------------------------------------
  // The module state: the connection promise and the two backends
  // ---------------------------------------------------------------------------

  /** The handle after `getDB()`: `dbPromise ??= openDB(...)` opens at most once, and a rejection sticks. */
  function AfterOpen(h: Handle, openFails: bool): (r: Handle)
    ensures r != Unopened
    ensures h != Unopened ==> r == h
    ensures h == Unopened ==> (r == Opened <==> !openFails)
  {
    if h == Unopened then (if openFails then OpenFailed else Opened) else h
  }

  class DocumentDb {
    /** `typeof indexedDB !== 'undefined'`. */
    const idbAvailable: bool
    var handle: Handle
    var backends: Backends

    ghost predicate Valid()
      reads this
    {
      KeyedById(backends.primary)
    }

    constructor (idbAvailable: bool, backends: Backends)
      requires KeyedById(backends.primary)
      ensures Valid()
      ensures this.idbAvailable == idbAvailable && handle == Unopened && this.backends == backends
    {
      this.idbAvailable := idbAvailable;
      this.handle := Unopened;
      this.backends := backends;
    }

    /** Whether a call meeting `f` is answered by IndexedDB rather than by the fallback. */
    predicate ServedByPrimary(f: Faults)
      reads this
    {
      idbAvailable && AfterOpen(handle, f.openFails) == Opened && !f.requestFails
    }

    /** The handle after one exported call: `getDB()` runs only when IndexedDB exists. */
    function HandleAfterCall(f: Faults): Handle
      reads this
    {
      if idbAvailable then AfterOpen(handle, f.openFails) else handle
    }

    /** `getDB()`: resolves the lazily created connection. */
    method GetDb(openFails: bool) returns (ok: bool)
      modifies this`handle
      ensures handle == AfterOpen(old(handle), openFails)
      ensures ok <==> handle == Opened
    {
      if handle == Unopened {
        handle := if openFails then OpenFailed else Opened;
      }
      ok := handle == Opened;
    }

    /** `getFromLocalStorage()`. */
    method GetFromLocalStorage() returns (docs: seq<Document>)
      ensures docs == FromLocalStorage(backends.local)
    {
      match backends.local
      case Stored(stored) => docs := stored;
      case _ => docs := [];
    }

    /** `saveToLocalStorage(docs)`; a throwing `setItem` is caught and the slot keeps its text. */
    method SaveToLocalStorage(docs: seq<Document>, writeFails: bool)
      modifies this`backends
      ensures backends == old(backends).(local := ToLocalStorage(old(backends).local, docs, writeFails))
    {
      if !writeFails {
        backends := backends.(local := Stored(docs));
      }
    }

    method GetAllDocuments(f: Faults) returns (docs: seq<Document>)
      requires Valid()
      modifies this`handle
      ensures Valid() && backends == old(backends)
      ensures handle == old(HandleAfterCall(f))
      ensures docs == Listing(backends, old(ServedByPrimary(f)))
    {
      if idbAvailable {
        var ok := GetDb(f.openFails);
        if ok && !f.requestFails {
          var asc := IndexOrder(backends.primary);
          docs := Reversed(asc);
          return;
        }
        docs := GetFromLocalStorage();
        return;
      }
      docs := GetFromLocalStorage();
    }

    method GetDocument(id: string, f: Faults) returns (doc: Option<Document>)
      requires Valid()
      modifies this`handle
      ensures Valid() && backends == old(backends)
      ensures handle == old(HandleAfterCall(f))
      ensures doc == Lookup(backends, old(ServedByPrimary(f)), id)
    {
      if idbAvailable {
        var ok := GetDb(f.openFails);
        if ok && !f.requestFails {
          doc := if id in backends.primary then Some(backends.primary[id]) else None;
          return;
        }
      }
      var docs := GetFromLocalStorage();
      doc := Find(docs, id);
    }

    method SaveDocument(doc: Document, f: Faults)
      requires Valid()
      modifies this
      ensures Valid()
      ensures handle == old(HandleAfterCall(f))
      ensures backends == Saved(old(backends), old(ServedByPrimary(f)), doc, f.localWriteFails)
    {
      if idbAvailable {
        var ok := GetDb(f.openFails);
        if ok && !f.requestFails {
          backends := backends.(primary := backends.primary[doc.id := doc]);
          return;
        }
      }
      var docs := GetFromLocalStorage();
      var index := FindIndex(docs, doc.id);
      UpsertedShape(docs, doc);
      if index >= 0 {
        docs := docs[index := doc];
      } else {
        docs := docs + [doc];
      }
      assert docs == Upserted(FromLocalStorage(backends.local), doc);
      SaveToLocalStorage(docs, f.localWriteFails);
    }

    method DeleteDocument(id: string, f: Faults)
      requires Valid()
      modifies this
      ensures Valid()
      ensures handle == old(HandleAfterCall(f))
      ensures backends == Deleted(old(backends), old(ServedByPrimary(f)), id, f.localWriteFails)
    {
      if idbAvailable {
        var ok := GetDb(f.openFails);
        if ok && !f.requestFails {
          backends := backends.(primary := backends.primary - {id});
          return;
        }
      }
      var docs := GetFromLocalStorage();
      var filtered := Without(docs, id);
      SaveToLocalStorage(filtered, f.localWriteFails);
    }

    method GetLastDocument(f: Faults) returns (doc: Option<Document>)
      requires Valid()
      modifies this`handle
      ensures Valid() && backends == old(backends)
      ensures handle == old(HandleAfterCall(f))
      ensures doc == LastDocument(backends, old(ServedByPrimary(f)))
    {
      var docs := GetAllDocuments(f);
      doc := if |docs| > 0 then Some(docs[0]) else None;
    }
  }
}
