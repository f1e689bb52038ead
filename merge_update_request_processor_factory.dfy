/*
 * MergeUpdateRequestProcessorFactory and MergeUpdateRequestProcessor: the
 * update-chain stage that, when a request asks for it, turns an add into a
 * merge with the stored document of the same id (or with every document a
 * query matches) and turns a delete into the removal of chosen fields from
 * the stored documents. Whatever the stage passes on goes to the next
 * processor of the chain, recorded here as the sequence of commands it
 * received.
 */
module MergeUpdateRequestProcessorFactory {
  import opened Documents
  import opened MergeUtils
  import opened Searcher

  // ---------------------------------------------------------------------------
  // Request parameters

  /**
   * The request parameters the stage reads, already parsed: "merge" and
   * "overwriteMultivalues" as booleans when given, every "delete.field"
   * value in order, and "merge.query" when given.
   */
  datatype Params = Params(
    merge: Option<bool>,
    overwriteMultivalues: Option<bool>,
    deleteField: seq<string>,
    mergeQuery: Option<string>)

  /** SolrParams.getBool(name, default): the given value, or the default when the parameter is absent. */
  function GetBool(given: Option<bool>, default: bool): bool {
    if given.Some? then given.value else default
  }

  /**
   * What the stage takes from a request: its parameters, its schema, its
   * searcher's view of the index, and the query parser QueryParsing.parseQuery
   * applies to a query text with that schema (None when the text does not parse).
   */
  datatype Request<!V> = Request(
    params: Params,
    schema: Schema,
    index: seq<IndexedDoc<V>>,
    parser: string -> Option<Query<V>>)

  // ---------------------------------------------------------------------------
  // String.trim

  /** The text without the characters at most ' ' at its start. */
  function TrimLeading(s: string): (r: string)
    ensures |r| <= |s| && r == s[|s| - |r|..]
    ensures r == [] || r[0] > ' '
    ensures forall i :: 0 <= i < |s| - |r| ==> s[i] <= ' '
  {
    if s != [] && s[0] <= ' ' then TrimLeading(s[1..]) else s
  }

  /** The text without the characters at most ' ' at its end. */
  function TrimTrailing(s: string): (r: string)
    ensures r <= s
    ensures r == [] || r[|r| - 1] > ' '
    ensures forall i :: |r| <= i < |s| ==> s[i] <= ' '
  {
    if s != [] && s[|s| - 1] <= ' ' then TrimTrailing(s[..|s| - 1]) else s
  }

  /** String.trim: drop every character at most ' ' (space and the control characters) at both ends. */
  function Trim(s: string): string {
    TrimTrailing(TrimLeading(s))
  }

  lemma {:induction false} TrimLeadingEmpty(s: string)
    ensures TrimLeading(s) == [] <==> forall i :: 0 <= i < |s| ==> s[i] <= ' '
  {
    if s != [] && s[0] <= ' ' {
      TrimLeadingEmpty(s[1..]);
      assert forall i :: 1 <= i < |s| ==> s[i] == s[1..][i - 1];
    }
  }

  lemma {:induction false} TrimTrailingEmpty(s: string)
    ensures TrimTrailing(s) == [] <==> forall i :: 0 <= i < |s| ==> s[i] <= ' '
  {
    if s != [] && s[|s| - 1] <= ' ' {
      TrimTrailingEmpty(s[..|s| - 1]);
      assert forall i :: 0 <= i < |s| - 1 ==> s[i] == s[..|s| - 1][i];
    }
  }

  /** A text trims to "" exactly when every one of its characters is at most ' '. */
  lemma TrimEmpty(s: string)
    ensures Trim(s) == "" <==> forall i :: 0 <= i < |s| ==> s[i] <= ' '
  {
    TrimLeadingEmpty(s);
    var t := TrimLeading(s);
    TrimTrailingEmpty(t);
    if t != [] {
      assert t[0] > ' ';
    }
  }

  /** An absent or blank merge.query selects the single-document merge. */
  predicate Blank(mergeQuery: Option<string>) {
    mergeQuery.None? || Trim(mergeQuery.value) == ""
  }

  // ---------------------------------------------------------------------------
  // Commands

  /** The commands the next processor can receive. */
  datatype UpdateCommand<V> =
    | AddCmd(add: AddCommand<V>)
    | DeleteCmd(delete: DeleteUpdateCommand)

  /** A delete request: by id, by query, or both. */
  datatype DeleteUpdateCommand = DeleteUpdateCommand(id: Option<string>, query: Option<string>)

  /**
   * An add request: the document to add, whether it overwrites committed
   * versions, and the id the command reports for the schema's unique key.
   */
  class AddUpdateCommand<V> {
    var solrDoc: Doc<V>
    var overwriteCommitted: bool
    const indexedId: string

    constructor(solrDoc: Doc<V>, overwriteCommitted: bool, indexedId: string)
      ensures this.solrDoc == solrDoc && this.overwriteCommitted == overwriteCommitted
      ensures this.indexedId == indexedId
    {
      this.solrDoc := solrDoc;
      this.overwriteCommitted := overwriteCommitted;
      this.indexedId := indexedId;
    }
  }

  /** Each add passed on, in order, as the next processor receives it: never a delete. */
  function AsUpdates<V>(adds: seq<AddCommand<V>>): (r: seq<UpdateCommand<V>>)
    ensures |r| == |adds|
  {
    if adds == [] then [] else AsUpdates(adds[..|adds| - 1]) + [AddCmd(adds[|adds| - 1])]
  }

  /** What the next processor receives from the stage is the adds, in order, and no delete. */
  lemma {:induction false} AsUpdatesOnlyAdds<V>(adds: seq<AddCommand<V>>)
    ensures forall k :: 0 <= k < |adds| ==> AsUpdates(adds)[k] == AddCmd(adds[k])
    ensures forall c :: c in AsUpdates(adds) ==> !c.DeleteCmd?
  {
    if adds != [] {
      AsUpdatesOnlyAdds(adds[..|adds| - 1]);
    }
  }

  // ---------------------------------------------------------------------------
  // What a request passes on

  /**
   * What one stage call passed on before it returned or threw: the adds in
   * order, and the exception that ended it, if any.
   */
  datatype Emission<V> = Emission(adds: seq<AddCommand<V>>, failure: Option<Error>)

  function Nothing<V>(): Emission<V> {
    Emission([], None)
  }

  /** The outcome of a stage call that passed on `e`. */
  function OutcomeOf<V>(e: Emission<V>): Outcome {
    if e.failure.Some? then Fail(e.failure.value) else Pass
  }

  /** Two steps of one call, the second running only when the first did not throw. */
  function Then<V>(first: Emission<V>, second: Emission<V>): Emission<V> {
    if first.failure.Some? then first else Emission(first.adds + second.adds, second.failure)
  }

  /** What is done to each matched document: merged with a template, or stripped of fields. */
  datatype MatchRewrite<V> = MergeInto(template: Doc<V>, overwriteMultivalues: bool) | StripFields(fields: seq<string>)

  /** A matched stored document rebuilt by toSolrDocument and rewritten; either step may throw. */
  function Rewritten<V>(stored: seq<StoredField<V>>, rw: MatchRewrite<V>, schema: Schema): Result<Doc<V>> {
    match SolrDocumentOf(stored, schema)
    case Err(e) => Err(e)
    case Ok(doc) =>
      match rw
      case MergeInto(template, overwriteMultivalues) => Merged(template, doc, schema, overwriteMultivalues)
      case StripFields(fields) => Ok(Deleted(fields, doc))
  }

  /**
   * The loop over the matched documents, given what rewriting each one gives
   * in iteration order: each result is passed on as a new add command; the
   * first that throws ends the loop, and what was passed on before it stays
   * passed on.
   */
  function Collect<V>(results: seq<Result<Doc<V>>>): (e: Emission<V>)
    ensures |e.adds| <= |results|
    ensures e.failure.None? ==> |e.adds| == |results|
    ensures forall k :: 0 <= k < |e.adds| ==> e.adds[k].overwriteCommitted
  {
    if results == [] then Nothing()
    else
      var before := Collect(results[..|results| - 1]);
      if before.failure.Some? then before
      else match results[|results| - 1]
        case Err(err) => Emission(before.adds, Some(err))
        case Ok(doc) => Emission(before.adds + [AddCommandFor(doc)], None)
  }

  /** What rewriting each matched document gives, in iteration order. */
  function Rewrites<V>(matches: seq<seq<StoredField<V>>>, rw: MatchRewrite<V>, schema: Schema): (r: seq<Result<Doc<V>>>)
    ensures |r| == |matches|
  {
    if matches == [] then []
    else Rewrites(matches[..|matches| - 1], rw, schema) + [Rewritten(matches[|matches| - 1], rw, schema)]
  }

  /** The k-th result is the k-th match rewritten. */
  lemma {:induction false} RewritesAt<V>(matches: seq<seq<StoredField<V>>>, rw: MatchRewrite<V>, schema: Schema, k: nat)
    requires k < |matches|
    ensures Rewrites(matches, rw, schema)[k] == Rewritten(matches[k], rw, schema)
  {
    if k < |matches| - 1 {
      RewritesAt(matches[..|matches| - 1], rw, schema, k);
    }
  }

  /** The loop of processAdd and processDelete over the matched documents. */
  function Run<V>(matches: seq<seq<StoredField<V>>>, rw: MatchRewrite<V>, schema: Schema): Emission<V> {
    Collect(Rewrites(matches, rw, schema))
  }

  /** The stored fields of the documents at the given document numbers. */
  function Retrieve<V>(index: seq<IndexedDoc<V>>, positions: seq<nat>): (docs: seq<seq<StoredField<V>>>)
    requires forall k :: 0 <= k < |positions| ==> positions[k] < |index|
    ensures |docs| == |positions|
    ensures forall k :: 0 <= k < |positions| ==> docs[k] == index[positions[k]].stored
  {
    seq(|positions|, k requires 0 <= k < |positions| => index[positions[k]].stored)
  }

  /** Parse the query (a parse failure throws before anything is passed on), then run over its matches. */
  function QueryRun<V>(index: seq<IndexedDoc<V>>, parser: string -> Option<Query<V>>, query: string,
                       rw: MatchRewrite<V>, schema: Schema): Emission<V>
  {
    match parser(query)
    case None => Emission([], Some(QueryParseError(query)))
    case Some(q) => Run(Retrieve(index, Hits(index, q)), rw, schema)
  }

  /** The single-document add: the incoming document, merged with the stored one of the same id when there is one. */
  function SingleAdd<V>(schema: Schema, index: seq<IndexedDoc<V>>, overwriteMultivalues: bool, incoming: Doc<V>, id: string): Result<Doc<V>> {
    match Searcher(schema, index).FindById(id)
    case Err(e) => Err(e)
    case Ok(None) => Ok(incoming)
    case Ok(Some(existing)) => Merged(incoming, existing, schema, overwriteMultivalues)
  }

  /** The delete by id: the stored document of that id, stripped of the fields, or nothing for an unknown id. */
  function IdDelete<V>(schema: Schema, index: seq<IndexedDoc<V>>, deleteFields: seq<string>, id: string): Emission<V> {
    match Searcher(schema, index).FindById(id)
    case Err(e) => Emission([], Some(e))
    case Ok(None) => Nothing()
    case Ok(Some(doc)) => Emission([AddCommandFor(Deleted(deleteFields, doc))], None)
  }

  /** processDelete: the id part when the command has an id, then the query part when it has a query. */
  function DeleteEffect<V>(schema: Schema, index: seq<IndexedDoc<V>>, parser: string -> Option<Query<V>>,
                           deleteFields: seq<string>, cmd: DeleteUpdateCommand): Emission<V>
  {
    Then(if cmd.id.Some? then IdDelete(schema, index, deleteFields, cmd.id.value) else Nothing(),
         if cmd.query.Some? then QueryRun(index, parser, cmd.query.value, StripFields(deleteFields), schema)
         else Nothing())
  }

  // ---------------------------------------------------------------------------
  // The processor

  class MergeUpdateRequestProcessor<V> {
    const schema: Schema
    const index: seq<IndexedDoc<V>>
    const parser: string -> Option<Query<V>>
    const overwriteMultivalues: bool
    const deleteFields: seq<string>
    const mergeQuery: Option<string>
    /** Every command passed on to the next processor, in order. */
    var downstream: seq<UpdateCommand<V>>

    /** overwriteMultivalues defaults to true; the delete fields are parsed here, once per request. */
    constructor(req: Request<V>)
      ensures schema == req.schema && index == req.index && parser == req.parser
      ensures overwriteMultivalues == GetBool(req.params.overwriteMultivalues, true)
      ensures deleteFields == SplitEach(req.params.deleteField)
      ensures mergeQuery == req.params.mergeQuery
      ensures downstream == []
    {
      var fields := DeleteFields(req.params.deleteField);
      schema := req.schema;
      index := req.index;
      parser := req.parser;
      overwriteMultivalues := GetBool(req.params.overwriteMultivalues, true);
      deleteFields := fields;
      mergeQuery := req.params.mergeQuery;
      downstream := [];
    }

    /**
     * processAdd. With no merge.query, one add is passed on: the command
     * itself, its document merged with the stored one of the same id when
     * there is one. With a merge.query, every matched document merged with
     * the incoming document less its id is passed on as a new add.
     */
    method ProcessAdd(cmd: AddUpdateCommand<V>) returns (outcome: Outcome)
      requires WellFormed(cmd.solrDoc)
      modifies this`downstream, cmd`solrDoc
      ensures Blank(mergeQuery) ==>
        var r := SingleAdd(schema, index, overwriteMultivalues, old(cmd.solrDoc), cmd.indexedId);
        && (r.Ok? ==> && outcome == Pass && cmd.solrDoc == r.value
                      && downstream == old(downstream) + [AddCmd(AddCommand(r.value, cmd.overwriteCommitted))])
        && (r.Err? ==> outcome == Fail(r.error) && cmd.solrDoc == old(cmd.solrDoc) && downstream == old(downstream))
      ensures !Blank(mergeQuery) ==>
        var e := QueryRun(index, parser, mergeQuery.value, MergeInto(WithoutId(old(cmd.solrDoc), schema), overwriteMultivalues), schema);
        && cmd.solrDoc == old(cmd.solrDoc)
        && downstream == old(downstream) + AsUpdates(e.adds)
        && outcome == OutcomeOf(e)
    {
      if mergeQuery.None? || Trim(mergeQuery.value) == "" {
        var id := cmd.indexedId;
        var found := Searcher(schema, index).FindById(id);
        match found {
          case Err(e) =>
            return Fail(e);
          case Ok(None) =>
          case Ok(Some(doc)) =>
            var merged := Merge(cmd.solrDoc, doc, schema, overwriteMultivalues);
            if merged.Err? {
              return Fail(merged.error);
            }
            cmd.solrDoc := merged.value;
        }
        downstream := downstream + [AddCmd(AddCommand(cmd.solrDoc, cmd.overwriteCommitted))];
        outcome := Pass;
      } else {
        var q := parser(mergeQuery.value);
        if q.None? {
          return Fail(QueryParseError(mergeQuery.value));
        }
        var docs := Hits(index, q.value);
        var merge := WithoutId(cmd.solrDoc, schema);
        RemoveFieldWellFormed(cmd.solrDoc, schema.uniqueKey);
        outcome := ForwardRewrites(docs, MergeInto(merge, overwriteMultivalues));
      }
    }

    /**
     * processDelete: with an id, the stored document of that id stripped of
     * the delete fields is passed on as a new add; with a query, so is every
     * matched document, after the id part. No delete is ever passed on.
     */
    method ProcessDelete(cmd: DeleteUpdateCommand) returns (outcome: Outcome)
      modifies this`downstream
      ensures var e := DeleteEffect(schema, index, parser, deleteFields, cmd);
        && downstream == old(downstream) + AsUpdates(e.adds)
        && outcome == OutcomeOf(e)
    {
      ghost var byId: Emission<V> := if cmd.id.Some? then IdDelete(schema, index, deleteFields, cmd.id.value) else Nothing();
      ghost var byQuery: Emission<V> :=
        if cmd.query.Some? then QueryRun(index, parser, cmd.query.value, StripFields(deleteFields), schema)
        else Nothing();
      ghost var effect := Then(byId, byQuery);
      assert DeleteEffect(schema, index, parser, deleteFields, cmd) == effect;
      outcome := Pass;
      if cmd.id.Some? {
        outcome := DeleteById(cmd.id.value);
        if outcome.Fail? {
          assert effect == byId;
          return;
        }
      } else {
        assert AsUpdates(byId.adds) == [];
      }
      assert byId.failure.None? && downstream == old(downstream) + AsUpdates(byId.adds);
      ghost var afterId := downstream;
      if cmd.query.Some? {
        outcome := DeleteByQuery(cmd.query.value);
      } else {
        assert AsUpdates(byQuery.adds) == [];
        assert downstream == afterId + [];
      }
      assert outcome == OutcomeOf(byQuery);
      assert downstream == afterId + AsUpdates(byQuery.adds);
      ThenUpdates(old(downstream), byId, byQuery);
    }

    /** The id part of processDelete. */
    method DeleteById(id: string) returns (outcome: Outcome)
      modifies this`downstream
      ensures var e := IdDelete(schema, index, deleteFields, id);
        && downstream == old(downstream) + AsUpdates(e.adds)
        && outcome == OutcomeOf(e)
    {
      var found := Searcher(schema, index).FindById(id);
      match found {
        case Err(e) =>
          return Fail(e);
        case Ok(None) =>
        case Ok(Some(doc)) =>
          var merged := Delete(deleteFields, doc);
          downstream := downstream + [AddCmd(AddCommandFor(merged))];
      }
      outcome := Pass;
    }

    /** The query part of processDelete. */
    method DeleteByQuery(query: string) returns (outcome: Outcome)
      modifies this`downstream
      ensures var e := QueryRun(index, parser, query, StripFields(deleteFields), schema);
        && downstream == old(downstream) + AsUpdates(e.adds)
        && outcome == OutcomeOf(e)
    {
      var q := parser(query);
      if q.None? {
        return Fail(QueryParseError(query));
      }
      var docs := Hits(index, q.value);
      outcome := ForwardRewrites(docs, StripFields(deleteFields));
    }

    /**
     * The while loop over the matched documents of processAdd and
     * processDelete: rebuild each one, rewrite it and pass it on as a new add.
     */
    method ForwardRewrites(docs: seq<nat>, rw: MatchRewrite<V>) returns (outcome: Outcome)
      requires forall k :: 0 <= k < |docs| ==> docs[k] < |index|
      requires rw.MergeInto? ==> WellFormed(rw.template)
      modifies this`downstream
      ensures var e := Run(Retrieve(index, docs), rw, schema);
        && downstream == old(downstream) + AsUpdates(e.adds)
        && outcome == OutcomeOf(e)
    {
      ghost var results := Rewrites(Retrieve(index, docs), rw, schema);
      var i := 0;
      while i < |docs|
        invariant 0 <= i <= |docs|
        invariant Collect(results[..i]).failure.None?
        invariant downstream == old(downstream) + AsUpdates(Collect(results[..i]).adds)
      {
        ghost var before := Collect(results[..i]);
        var merged := Rewrite(index[docs[i]].stored, rw);
        RewritesAt(Retrieve(index, docs), rw, schema, i);
        if merged.Err? {
          CollectFails(results, i, merged.error);
          return Fail(merged.error);
        }
        CollectStep(results, i, merged.value);
        AsUpdatesSnoc(before.adds, AddCommandFor(merged.value));
        downstream := downstream + [AddCmd(AddCommandFor(merged.value))];
        i := i + 1;
      }
      assert results[..i] == results;
      outcome := Pass;
    }

    /** The body of those loops for one matched document: toSolrDocument, then merge or delete. */
    method Rewrite(luceneDoc: seq<StoredField<V>>, rw: MatchRewrite<V>) returns (r: Result<Doc<V>>)
      requires rw.MergeInto? ==> WellFormed(rw.template)
      ensures r == Rewritten(luceneDoc, rw, schema)
    {
      var doc := ToSolrDocument(luceneDoc, schema);
      if doc.Err? {
        return Err(doc.error);
      }
      match rw {
        case MergeInto(template, overwriteMultivalues) =>
          r := Merge(template, doc.value, schema, overwriteMultivalues);
        case StripFields(fields) =>
          var merged := Delete(fields, doc.value);
          r := Ok(merged);
      }
    }
  }

  /** One more match rewritten without an exception: one more add. */
  lemma CollectStep<V>(results: seq<Result<Doc<V>>>, i: nat, doc: Doc<V>)
    requires i < |results|
    requires Collect(results[..i]).failure.None?
    requires results[i] == Ok(doc)
    ensures Collect(results[..i + 1]) == Emission(Collect(results[..i]).adds + [AddCommandFor(doc)], None)
  {
    assert results[..i + 1][..i] == results[..i];
  }

  /** A match whose rewriting throws ends the loop with what was passed on before it. */
  lemma CollectFails<V>(results: seq<Result<Doc<V>>>, i: nat, err: Error)
    requires i < |results|
    requires Collect(results[..i]).failure.None?
    requires results[i] == Err(err)
    ensures Collect(results) == Emission(Collect(results[..i]).adds, Some(err))
  {
    assert results[..i + 1][..i] == results[..i];
    CollectFailureSticks(results, i + 1);
  }

  /** The adds of two steps reach the next processor as the first step's, then the second's. */
  lemma {:induction false} AsUpdatesAppend<V>(a: seq<AddCommand<V>>, b: seq<AddCommand<V>>)
    ensures AsUpdates(a + b) == AsUpdates(a) + AsUpdates(b)
  {
    if b == [] {
      assert a + b == a;
    } else {
      AsUpdatesAppend(a, b[..|b| - 1]);
      assert (a + b)[..|a + b| - 1] == a + b[..|b| - 1];
    }
  }

  /** Passing on the first step's adds and then the second's is passing on the adds of both. */
  lemma ThenUpdates<V>(sent: seq<UpdateCommand<V>>, first: Emission<V>, second: Emission<V>)
    requires first.failure.None?
    ensures (sent + AsUpdates(first.adds)) + AsUpdates(second.adds) == sent + AsUpdates(Then(first, second).adds)
  {
    AsUpdatesAppend(first.adds, second.adds);
  }

  /** One more add reaches the next processor as one more command. */
  lemma AsUpdatesSnoc<V>(a: seq<AddCommand<V>>, x: AddCommand<V>)
    ensures AsUpdates(a + [x]) == AsUpdates(a) + [AddCmd(x)]
  {
    assert (a + [x])[..|a|] == a;
  }

  /** Once the loop has thrown, the later matches change nothing. */
  lemma {:induction false} CollectFailureSticks<V>(results: seq<Result<Doc<V>>>, i: nat)
    requires i <= |results|
    requires Collect(results[..i]).failure.Some?
    ensures Collect(results) == Collect(results[..i])
    decreases |results| - i
  {
    if i < |results| {
      assert results[..i + 1][..i] == results[..i];
      CollectFailureSticks(results, i + 1);
    } else {
      assert results[..i] == results;
    }
  }

  // ---------------------------------------------------------------------------
  // What the stage passes on

  /** Each add of the loop is the result at the same position. */
  lemma {:induction false} CollectEmitsEach<V>(results: seq<Result<Doc<V>>>)
    ensures var e := Collect(results);
      forall k :: 0 <= k < |e.adds| ==> results[k].Ok? && e.adds[k] == AddCommandFor(results[k].value)
  {
    if results != [] {
      var init := results[..|results| - 1];
      CollectEmitsEach(init);
      assert forall k :: 0 <= k < |init| ==> init[k] == results[k];
    }
  }

  /** The loop completes exactly when no result is an exception. */
  lemma {:induction false} CollectCompletes<V>(results: seq<Result<Doc<V>>>)
    ensures Collect(results).failure.None? <==> forall k :: 0 <= k < |results| ==> results[k].Ok?
  {
    if results != [] {
      var init := results[..|results| - 1];
      CollectCompletes(init);
      assert forall k :: 0 <= k < |init| ==> init[k] == results[k];
    }
  }

  /**
   * A loop that throws has passed on one add for each match before the
   * first one whose rewriting throws, and that match's exception is the
   * one raised.
   */
  lemma {:induction false} CollectStopsAtFirstFailure<V>(results: seq<Result<Doc<V>>>)
    requires Collect(results).failure.Some?
    ensures var e := Collect(results);
      && |e.adds| < |results|
      && results[|e.adds|] == Err(e.failure.value)
      && Collect(results[..|e.adds|]) == Emission(e.adds, None)
  {
    var init := results[..|results| - 1];
    var before := Collect(init);
    if before.failure.Some? {
      CollectStopsAtFirstFailure(init);
      assert init[..|before.adds|] == results[..|before.adds|];
    } else {
      assert results[..|init|] == init;
    }
  }

  /** Each add of the loop over the matched documents is the match at the same position, rebuilt and rewritten. */
  lemma RunEmitsEveryMatch<V>(matches: seq<seq<StoredField<V>>>, rw: MatchRewrite<V>, schema: Schema)
    ensures var e := Run(matches, rw, schema);
      forall k :: 0 <= k < |e.adds| ==>
        Rewritten(matches[k], rw, schema).Ok? && e.adds[k] == AddCommandFor(Rewritten(matches[k], rw, schema).value)
  {
    CollectEmitsEach(Rewrites(matches, rw, schema));
    forall k | 0 <= k < |Run(matches, rw, schema).adds| {
      RewritesAt(matches, rw, schema, k);
    }
  }

  /** A query that matches nothing passes nothing on and does not throw. */
  lemma QueryRunNoMatches<V>(index: seq<IndexedDoc<V>>, parser: string -> Option<Query<V>>, query: string, q: Query<V>,
                             rw: MatchRewrite<V>, schema: Schema)
    requires parser(query) == Some(q)
    requires forall i :: 0 <= i < |index| ==> !Matches(q, index[i])
    ensures QueryRun(index, parser, query, rw, schema) == Nothing()
  {
  }

  /**
   * The bulk merge: the k-th add is the k-th matched document merged with
   * the incoming document less its unique key, so every matched document
   * keeps its own id, or stays without one.
   */
  lemma BulkMergeKeepsIds<V>(index: seq<IndexedDoc<V>>, parser: string -> Option<Query<V>>, query: string, q: Query<V>,
                             incoming: Doc<V>, overwriteMultivalues: bool, schema: Schema, k: nat)
    requires WellFormed(incoming)
    requires parser(query) == Some(q)
    requires k < |QueryRun(index, parser, query, MergeInto(WithoutId(incoming, schema), overwriteMultivalues), schema).adds|
    ensures var sent := QueryRun(index, parser, query, MergeInto(WithoutId(incoming, schema), overwriteMultivalues), schema).adds[k].solrDoc;
      var doc := SolrDocumentOf(index[Hits(index, q)[k]].stored, schema);
      && doc.Ok?
      && Merged(WithoutId(incoming, schema), doc.value, schema, overwriteMultivalues) == Ok(sent)
      && (schema.uniqueKey in sent.fields <==> schema.uniqueKey in doc.value.fields)
      && (schema.uniqueKey in doc.value.fields ==> sent.fields[schema.uniqueKey] == doc.value.fields[schema.uniqueKey])
  {
    var template := WithoutId(incoming, schema);
    var rw := MergeInto(template, overwriteMultivalues);
    var matches := Retrieve(index, Hits(index, q));
    RunEmitsEveryMatch(matches, rw, schema);
    var doc := SolrDocumentOf(matches[k], schema).value;
    RemoveFieldWellFormed(incoming, schema.uniqueKey);
    MergeFieldNames(template, doc, schema, overwriteMultivalues);
    if schema.uniqueKey in doc.fields {
      MergeKeepsUntouched(template, doc, schema, overwriteMultivalues, schema.uniqueKey);
    }
  }

  /** The delete by query: the k-th add is the k-th matched document without the delete fields. */
  lemma QueryDeleteStrips<V>(index: seq<IndexedDoc<V>>, parser: string -> Option<Query<V>>, query: string, q: Query<V>,
                             deleteFields: seq<string>, schema: Schema, k: nat)
    requires parser(query) == Some(q)
    requires k < |QueryRun(index, parser, query, StripFields(deleteFields), schema).adds|
    ensures var doc := SolrDocumentOf(index[Hits(index, q)[k]].stored, schema);
      && doc.Ok?
      && QueryRun(index, parser, query, StripFields(deleteFields), schema).adds[k] == AddCommandFor(Deleted(deleteFields, doc.value))
  {
    RunEmitsEveryMatch(Retrieve(index, Hits(index, q)), StripFields(deleteFields), schema);
  }

  /** An add whose id is in no document is passed on untouched. */
  lemma SingleAddNew<V>(schema: Schema, index: seq<IndexedDoc<V>>, overwriteMultivalues: bool, incoming: Doc<V>, id: string)
    requires forall i :: 0 <= i < |index| ==> (schema.uniqueKey, id) !in index[i].terms
    ensures SingleAdd(schema, index, overwriteMultivalues, incoming, id) == Ok(incoming)
  {
    FindByIdMiss(Searcher(schema, index), id);
  }

  /** An add whose id is found is merged with the first document indexed under it. */
  lemma SingleAddMerges<V>(schema: Schema, index: seq<IndexedDoc<V>>, overwriteMultivalues: bool, incoming: Doc<V>, id: string, i: nat)
    requires FirstMatch(index, TermQuery(schema.uniqueKey, id), i)
    requires SolrDocumentOf(index[i].stored, schema).Ok?
    ensures SingleAdd(schema, index, overwriteMultivalues, incoming, id) ==
      Merged(incoming, SolrDocumentOf(index[i].stored, schema).value, schema, overwriteMultivalues)
  {
    FindByIdHit(Searcher(schema, index), id, i);
  }

  /** A delete by an unknown id passes nothing on. */
  lemma IdDeleteUnknown<V>(schema: Schema, index: seq<IndexedDoc<V>>, deleteFields: seq<string>, id: string)
    requires forall i :: 0 <= i < |index| ==> (schema.uniqueKey, id) !in index[i].terms
    ensures IdDelete(schema, index, deleteFields, id) == Nothing()
  {
    FindByIdMiss(Searcher(schema, index), id);
  }

  /** A delete by a known id passes on one add: the document found, without the delete fields. */
  lemma IdDeleteKnown<V>(schema: Schema, index: seq<IndexedDoc<V>>, deleteFields: seq<string>, id: string, i: nat)
    requires FirstMatch(index, TermQuery(schema.uniqueKey, id), i)
    requires SolrDocumentOf(index[i].stored, schema).Ok?
    ensures IdDelete(schema, index, deleteFields, id) ==
      Emission([AddCommandFor(Deleted(deleteFields, SolrDocumentOf(index[i].stored, schema).value))], None)
  {
    FindByIdHit(Searcher(schema, index), id, i);
  }

  // ---------------------------------------------------------------------------
  // The factory

  /** The processor getInstance hands back: the next one of the chain itself, or a merging stage in front of it. */
  datatype Processor<V> = Next | Merging(processor: MergeUpdateRequestProcessor<V>)

  /** MergeUpdateRequestProcessorFactory.getInstance: merging only when the request sets merge, which defaults to false. */
  method GetInstance<V>(req: Request<V>) returns (p: Processor<V>)
    ensures p.Next? <==> req.params.merge != Some(true)
    ensures p.Merging? ==>
      && fresh(p.processor)
      && p.processor.schema == req.schema && p.processor.index == req.index && p.processor.parser == req.parser
      && p.processor.overwriteMultivalues == (req.params.overwriteMultivalues != Some(false))
      && p.processor.deleteFields == SplitEach(req.params.deleteField)
      && p.processor.mergeQuery == req.params.mergeQuery
      && p.processor.downstream == []
  {
    if GetBool(req.params.merge, false) {
      var processor := new MergeUpdateRequestProcessor(req);
      return Merging(processor);
    }
    return Next;
  }
}
