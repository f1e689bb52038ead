/*
 * Searcher.findById: look a document up by its unique key in the index and
 * rebuild it as a SolrDocument. The index is a sequence of stored Lucene
 * documents in document-number order; a query is a predicate over them.
 */
module Searcher {
  import opened Documents
  import opened MergeUtils

  /**
   * One Lucene document as the index holds it: the terms it is indexed
   * under (field name, term text) and its stored fields in stored order.
   */
  datatype IndexedDoc<V> = IndexedDoc(terms: set<(string, string)>, stored: seq<StoredField<V>>)

  /**
   * A Lucene query: a TermQuery on one field and one term text, or any
   * other query, given by the documents it matches.
   */
  datatype Query<!V> =
    | TermQuery(field: string, text: string)
    | Parsed(matches: IndexedDoc<V> -> bool)

  predicate Matches<V>(q: Query<V>, d: IndexedDoc<V>) {
    match q
    case TermQuery(field, text) => (field, text) in d.terms
    case Parsed(matches) => matches(d)
  }

  /**
   * The document numbers the query matches, in ascending order: the order
   * a DocSet iterates them.
   */
  function Hits<V>(index: seq<IndexedDoc<V>>, q: Query<V>): (r: seq<nat>)
    ensures forall k :: 0 <= k < |r| ==> r[k] < |index| && Matches(q, index[r[k]])
    ensures forall i :: 0 <= i < |index| && Matches(q, index[i]) ==> i in r
  {
    if index == [] then []
    else
      var init := Hits(index[..|index| - 1], q);
      assert forall i :: 0 <= i < |index| - 1 ==> index[..|index| - 1][i] == index[i];
      init + if Matches(q, index[|index| - 1]) then [|index| - 1] else []
  }

  /** Hits are listed in strictly ascending order, so none repeats. */
  lemma {:induction false} HitsAscending<V>(index: seq<IndexedDoc<V>>, q: Query<V>)
    ensures forall k, l :: 0 <= k < l < |Hits(index, q)| ==> Hits(index, q)[k] < Hits(index, q)[l]
  {
    if index != [] {
      var init := index[..|index| - 1];
      HitsAscending(init, q);
      var r, h := Hits(index, q), Hits(init, q);
      assert r == h + if Matches(q, index[|index| - 1]) then [|index| - 1] else [];
      forall k, l | 0 <= k < l < |r| ensures r[k] < r[l] {
        if l < |h| {
          assert r[k] == h[k] && r[l] == h[l];
        } else {
          assert l == |h| && r[l] == |init|;
          assert r[k] == h[k] < |init|;
        }
      }
    }
  }

  /** `i` is the lowest-numbered document the query matches. */
  ghost predicate FirstMatch<V>(index: seq<IndexedDoc<V>>, q: Query<V>, i: nat) {
    && i < |index|
    && Matches(q, index[i])
    && forall j :: 0 <= j < i ==> !Matches(q, index[j])
  }

  /** The first hit is the lowest-numbered matching document. */
  lemma HitsFirst<V>(index: seq<IndexedDoc<V>>, q: Query<V>, i: nat)
    requires FirstMatch(index, q, i)
    ensures |Hits(index, q)| > 0 && Hits(index, q)[0] == i
  {
    HitsAscending(index, q);
    var r := Hits(index, q);
    var k :| 0 <= k < |r| && r[k] == i;
    assert Matches(q, index[r[0]]);
  }

  /**
   * SolrIndexSearcher.search(query, n): the top `n` hits. Scoring is not
   * modelled: the model takes the top hits to be the lowest-numbered
   * matches, which is Lucene's tie-break among equally scored hits.
   */
  function Search<V>(index: seq<IndexedDoc<V>>, q: Query<V>, n: nat): (r: seq<nat>)
    ensures |r| <= n
    ensures r <= Hits(index, q)
    ensures |r| == if |Hits(index, q)| <= n then |Hits(index, q)| else n
  {
    var hits := Hits(index, q);
    if |hits| <= n then hits else hits[..n]
  }

  /** The searcher a request works with: the schema and a snapshot of the index; neither changes. */
  datatype Searcher<V> = Searcher(schema: Schema, index: seq<IndexedDoc<V>>) {

    /** The term query findById builds: the unique-key field holding exactly `id`. */
    function IdQuery(id: string): Query<V> {
      TermQuery(schema.uniqueKey, id)
    }

    /**
     * Searcher.findById: at most one hit is requested; with none the
     * result is absent, with one it is that stored document rebuilt by
     * toSolrDocument, whose schema lookups may fail.
     */
    function FindById(id: string): (r: Result<Option<Doc<V>>>)
      ensures r.Ok? && r.value.Some? ==> WellFormed(r.value.value)
    {
      var results := Search(index, IdQuery(id), 1);
      if |results| == 1 then
        match SolrDocumentOf(index[results[0]].stored, schema)
        case Ok(doc) => Ok(Some(doc))
        case Err(e) => Err(e)
      else Ok(None)
    }
  }

  /** The lookup is absent exactly when no document is indexed under the id. */
  lemma FindByIdMiss<V>(s: Searcher<V>, id: string)
    ensures s.FindById(id) == Ok(None) <==>
      forall i :: 0 <= i < |s.index| ==> (s.schema.uniqueKey, id) !in s.index[i].terms
  {
    var q := s.IdQuery(id);
    if i :| 0 <= i < |s.index| && (s.schema.uniqueKey, id) in s.index[i].terms {
      assert Matches(q, s.index[i]);
      assert |Search(s.index, q, 1)| == 1;
    }
  }

  /**
   * With several documents indexed under the id, the lowest-numbered one is
   * found, and the result is that document as toSolrDocument rebuilds it.
   */
  lemma FindByIdHit<V>(s: Searcher<V>, id: string, i: nat)
    requires FirstMatch(s.index, s.IdQuery(id), i)
    ensures s.FindById(id) ==
      match SolrDocumentOf(s.index[i].stored, s.schema)
      case Ok(doc) => Ok(Some(doc))
      case Err(e) => Err(e)
  {
    HitsFirst(s.index, s.IdQuery(id), i);
  }

  /** A found document never carries a copy-field target. */
  lemma FindByIdNoCopyFields<V>(s: Searcher<V>, id: string)
    requires s.FindById(id).Ok? && s.FindById(id).value.Some?
    ensures forall n :: n in s.FindById(id).value.value.fields ==> n !in CopyFieldTargets(s.schema)
  {
    var hit := Search(s.index, s.IdQuery(id), 1)[0];
    SolrDocumentNames(s.index[hit].stored, s.schema);
  }

  /** findById asks for a single hit, so it never sees more than one. */
  lemma SearchAtMostOne<V>(index: seq<IndexedDoc<V>>, q: Query<V>)
    ensures |Search(index, q, 1)| <= 1
    ensures |Search(index, q, 1)| == 1 <==> exists i :: 0 <= i < |index| && Matches(q, index[i])
  {
    var hits := Hits(index, q);
    if |hits| > 0 {
      assert Matches(q, index[hits[0]]);
    }
    if i :| 0 <= i < |index| && Matches(q, index[i]) {
      assert i in hits;
    }
  }
}
