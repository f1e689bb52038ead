# solr-field-update in Dafny

A Dafny model of the Guardian's Solr update-processor plugin. The plugin merges an incoming add with the
document already indexed under the same unique key, and turns a delete into the removal of chosen fields.

The model has four modules, one per file:

- `documents.dfy` (`Documents`) holds the Solr values the plugin works on:
  - a document is a `Doc`, its field names in insertion order plus a map from each name to its values;
  - the stored fields of a Lucene document;
  - the schema, with its unique key and, per field, whether it is multivalued and whether it is a copy-field target;
  - the exceptions the plugin lets through (an undefined field, a query that does not parse);
  - the library calls `addField`, `removeField` and `getField`.
- `merge_utils.dfy` (`MergeUtils`) is the merge and field-delete engine. `merge`, `delete`, `deleteFields` and
  `toSolrDocument` are methods with the source's loops. Each is proved equal to a declarative function of its
  inputs, and lemmas state what that function promises.
- `searcher.dfy` (`Searcher`) holds `findById`. The index is a sequence of stored Lucene documents in
  document-number order, and a query is a predicate over them.
- `merge_update_request_processor_factory.dfy` (`MergeUpdateRequestProcessorFactory`) holds the factory and the
  processor class:
  - the processor's request-scoped settings are `const` fields;
  - a `downstream` field records every command passed on to the next processor of the chain;
  - `processAdd` assigns the command's document in place;
  - `processAdd` and `processDelete` are proved against specification functions of the settings and the command
    (`SingleAdd`, `QueryRun`, `IdDelete`, `DeleteEffect`);
  - lemmas say what those specifications pass on: how many adds, which ones, and in which order.

Exceptions are values: `Result` for a library result, `Outcome` for a processor call, and `Emission` for what a
call passed on before it returned or threw. Adds passed on before an exception stay passed on.

## Model

| member | source | states |
|---|---|---|
| Documents.GetField | src/main/java/com/gu/solr/MergeUtils.java:104 | the schema entry is returned exactly when the name is defined; otherwise the error names the undefined field |
| MergeUtils.Merge | src/main/java/com/gu/solr/MergeUtils.java:39-60 | the merged document is the stored one: the non-appended incoming fields are removed, then every incoming field is added; in additive mode an undefined incoming name is an error, and it is the first such name |
| MergeUtils.CopyFields | src/main/java/com/gu/solr/MergeUtils.java:42-44 | the field-by-field copy equals the stored document: same order, same values |
| MergeUtils.AddFields | src/main/java/com/gu/solr/MergeUtils.java:55-57 | adding each incoming field in turn gives `AddAll`: new names are appended in incoming order, and held names get the incoming values after their own |
| MergeUtils.MergeKeepsUntouched | src/main/java/com/gu/solr/MergeUtils.java:42-44 | a stored field the incoming document does not name comes through with exactly its stored values |
| MergeUtils.MergeFieldNames | src/main/java/com/gu/solr/MergeUtils.java:42-57 | the merged field names are exactly the union of the stored and incoming names, each listed once |
| MergeUtils.MergeOverwrites | src/main/java/com/gu/solr/MergeUtils.java:46-57 | with overwriteMultivalues set, or for a single-valued field, the merged values are exactly the incoming values |
| MergeUtils.MergeAppends | src/main/java/com/gu/solr/MergeUtils.java:48-57 | in additive mode a multivalued field holds the stored values followed by the incoming values |
| MergeUtils.MergeConsultsSchemaOnlyWhenAdditive | src/main/java/com/gu/solr/MergeUtils.java:48 | with overwriteMultivalues set, merge never fails and does not depend on the schema; otherwise it fails exactly when an incoming name is undefined |
| MergeUtils.MergeEmptyIncoming | src/main/java/com/gu/solr/MergeUtils.java:39-60 | merging an empty document returns the stored document unchanged |
| MergeUtils.MergeDisjoint | src/main/java/com/gu/solr/MergeUtils.java:39-60 | documents with no common field merge to the stored fields followed by the incoming ones, all values unchanged |
| MergeUtils.FirstUndefinedAt | src/main/java/com/gu/solr/MergeUtils.java:46-48 | the first name the loop's getField rejects is the first undefined name of the incoming order |
| MergeUtils.Deleted | src/main/java/com/gu/solr/MergeUtils.java:62-74 | the result holds exactly the stored fields not named, each with its stored values; the unique key gets no protection |
| MergeUtils.Delete | src/main/java/com/gu/solr/MergeUtils.java:62-74 | copying and then removing each named field gives `Deleted` |
| MergeUtils.DeleteNothing | src/main/java/com/gu/solr/MergeUtils.java:69-71 | names the document does not hold are no-ops, so deleting only such names returns the document unchanged |
| MergeUtils.SplitAll | src/main/java/com/gu/solr/MergeUtils.java:89 | splitting at every comma gives at least one token, and no token contains a comma |
| MergeUtils.JoinSplitAll | src/main/java/com/gu/solr/MergeUtils.java:89 | joining the tokens with commas gives back the parameter |
| MergeUtils.SplitAllJoin | src/main/java/com/gu/solr/MergeUtils.java:89 | splitting comma-free tokens joined with commas gives back the tokens |
| MergeUtils.Split | src/main/java/com/gu/solr/MergeUtils.java:89 | `String.split(",")` yields only comma-free names |
| MergeUtils.SplitEmpty | src/main/java/com/gu/solr/MergeUtils.java:89 | an empty parameter yields one empty name |
| MergeUtils.SplitLoneComma | src/main/java/com/gu/solr/MergeUtils.java:89 | "," yields no name, because trailing empty tokens are dropped |
| MergeUtils.SplitTwoNames | src/main/java/com/gu/solr/MergeUtils.java:89 | "a,b" yields "a" then "b" |
| MergeUtils.SplitDropsTrailingEmpty | src/main/java/com/gu/solr/MergeUtils.java:89 | "a,,b," yields "a", "", "b": an inner empty token is kept and a trailing one dropped |
| MergeUtils.SplitEachAppend | src/main/java/com/gu/solr/MergeUtils.java:87-90 | flattening two runs of parameters is flattening each and concatenating, in parameter order |
| MergeUtils.DeleteFields | src/main/java/com/gu/solr/MergeUtils.java:76-93 | the list is every parameter split on commas, in parameter order then token order, with duplicates kept; no parameter gives an empty list |
| MergeUtils.DeleteFieldsExample | src/main/java/com/gu/solr/MergeUtils.java:76-93 | the parameters "a,b" and "c" give "a", "b", "c" |
| MergeUtils.SolrDocumentOf | src/main/java/com/gu/solr/MergeUtils.java:95-110 | a rebuilt document names each field once and lists exactly the fields it holds |
| MergeUtils.ToSolrDocument | src/main/java/com/gu/solr/MergeUtils.java:95-110 | the loop over the stored fields gives `SolrDocumentOf`, including its error on the first undefined stored name |
| MergeUtils.UndefinedStoredField | src/main/java/com/gu/solr/MergeUtils.java:103-104 | once getField has thrown on a stored field, the later stored fields change nothing |
| MergeUtils.SolrDocumentError | src/main/java/com/gu/solr/MergeUtils.java:103-104 | rebuilding fails exactly when some stored name is undefined, and the error names the first one |
| MergeUtils.SolrDocumentNames | src/main/java/com/gu/solr/MergeUtils.java:102-110 | the rebuilt document holds exactly the stored names that are not copy-field targets, in order of first occurrence |
| MergeUtils.SolrDocumentValues | src/main/java/com/gu/solr/MergeUtils.java:102-110 | each field holds every value stored under its name, in stored order, so repeated names accumulate |
| MergeUtils.NoCopyFieldTargets | src/main/java/com/gu/solr/MergeUtils.java:105 | no copy-field target appears in a rebuilt document, and every field it holds is defined |
| MergeUtils.WithoutId | src/main/java/com/gu/solr/MergeUpdateRequestProcessorFactory.java:103 | the template lacks the unique-key field and keeps every other field with its values |
| MergeUtils.AddCommandFor | src/main/java/com/gu/solr/MergeUtils.java:112-118 | the new command carries the document and overwrites committed versions |
| Searcher.Hits | src/main/java/com/gu/solr/MergeUpdateRequestProcessorFactory.java:101 | the hits are exactly the matching document numbers, all within the index |
| Searcher.HitsAscending | src/main/java/com/gu/solr/MergeUpdateRequestProcessorFactory.java:101 | the DocSet iterates its hits in strictly ascending document order |
| Searcher.HitsFirst | src/main/java/com/gu/solr/Searcher.java:49 | the first hit is the lowest-numbered matching document |
| Searcher.Search | src/main/java/com/gu/solr/Searcher.java:49 | the first min(n, number of hits) hits are returned, in hit order |
| Searcher.SearchAtMostOne | src/main/java/com/gu/solr/Searcher.java:49-52 | asking for one hit gives at most one, and exactly one when some document matches |
| Searcher.Searcher.FindById | src/main/java/com/gu/solr/Searcher.java:44-58 | a found document names each field once |
| Searcher.FindByIdMiss | src/main/java/com/gu/solr/Searcher.java:48-57 | the result is absent exactly when no document is indexed under the term (unique-key field, id) |
| Searcher.FindByIdHit | src/main/java/com/gu/solr/Searcher.java:48-55 | otherwise the result is the lowest-numbered such document, rebuilt by toSolrDocument, or that rebuild's error |
| Searcher.FindByIdNoCopyFields | src/main/java/com/gu/solr/Searcher.java:52-55 | a found document holds no copy-field target |
| MergeUpdateRequestProcessorFactory.TrimLeading | src/main/java/com/gu/solr/MergeUpdateRequestProcessorFactory.java:73 | the result is the text less its leading characters at most ' ': every dropped character is at most ' ', and the result is empty or starts above ' ' |
| MergeUpdateRequestProcessorFactory.TrimTrailing | src/main/java/com/gu/solr/MergeUpdateRequestProcessorFactory.java:73 | the result is the text less its trailing characters at most ' ': every dropped character is at most ' ', and the result is empty or ends above ' ' |
| MergeUpdateRequestProcessorFactory.TrimEmpty | src/main/java/com/gu/solr/MergeUpdateRequestProcessorFactory.java:73 | a merge.query trims to "" exactly when every character is at most ' ' |
| MergeUpdateRequestProcessorFactory.GetInstance | src/main/java/com/gu/solr/MergeUpdateRequestProcessorFactory.java:44-50 | the next processor itself is returned unless merge is given as true (its default is false); otherwise a fresh processor that searches the request's schema, index and query parser, with the request's settings and nothing passed on |
| MergeUpdateRequestProcessorFactory.MergeUpdateRequestProcessor.constructor | src/main/java/com/gu/solr/MergeUpdateRequestProcessorFactory.java:61-69 | overwriteMultivalues defaults to true; the delete-field list is parsed once, here; merge.query is kept as given |
| MergeUpdateRequestProcessorFactory.MergeUpdateRequestProcessor.ProcessAdd | src/main/java/com/gu/solr/MergeUpdateRequestProcessorFactory.java:72-114 | with a blank merge.query, the command itself is passed on once, its document merged with the stored document when one is found, and nothing is passed on if the lookup or merge throws; otherwise each match gives one new add, per `QueryRun`, and the command's document is unchanged |
| MergeUpdateRequestProcessorFactory.MergeUpdateRequestProcessor.ProcessDelete | src/main/java/com/gu/solr/MergeUpdateRequestProcessorFactory.java:117-159 | it passes on the id part's adds, then the query part's adds, unless the id part threw; nothing but adds |
| MergeUpdateRequestProcessorFactory.MergeUpdateRequestProcessor.DeleteById | src/main/java/com/gu/solr/MergeUpdateRequestProcessorFactory.java:118-138 | the id part passes on what `IdDelete` says |
| MergeUpdateRequestProcessorFactory.MergeUpdateRequestProcessor.DeleteByQuery | src/main/java/com/gu/solr/MergeUpdateRequestProcessorFactory.java:140-158 | the query part passes on what `QueryRun` with the delete fields says |
| MergeUpdateRequestProcessorFactory.MergeUpdateRequestProcessor.ForwardRewrites | src/main/java/com/gu/solr/MergeUpdateRequestProcessorFactory.java:105-112 | the loop over the hits passes on what `Run` over the matched documents says, and fails with `Run`'s exception |
| MergeUpdateRequestProcessorFactory.MergeUpdateRequestProcessor.Rewrite | src/main/java/com/gu/solr/MergeUpdateRequestProcessorFactory.java:106-108 | one loop body, toSolrDocument then merge or delete, gives `Rewritten` |
| MergeUpdateRequestProcessorFactory.Collect | src/main/java/com/gu/solr/MergeUpdateRequestProcessorFactory.java:105-112 | the loop passes on at most one add per match, exactly one per match when nothing throws, and every add overwrites committed versions |
| MergeUpdateRequestProcessorFactory.RunEmitsEveryMatch | src/main/java/com/gu/solr/MergeUpdateRequestProcessorFactory.java:105-112 | the k-th add is the k-th match in iteration order, rebuilt and rewritten |
| MergeUpdateRequestProcessorFactory.CollectCompletes | src/main/java/com/gu/solr/MergeUpdateRequestProcessorFactory.java:105-112 | the loop completes without an exception exactly when every match can be rebuilt and rewritten |
| MergeUpdateRequestProcessorFactory.CollectStopsAtFirstFailure | src/main/java/com/gu/solr/MergeUpdateRequestProcessorFactory.java:105-112 | a loop that throws does so at the first match whose rewriting throws, with that exception, and the adds before it stay passed on |
| MergeUpdateRequestProcessorFactory.CollectFailureSticks | src/main/java/com/gu/solr/MergeUpdateRequestProcessorFactory.java:105-112 | after an exception the remaining matches are not processed |
| MergeUpdateRequestProcessorFactory.QueryRunNoMatches | src/main/java/com/gu/solr/MergeUpdateRequestProcessorFactory.java:100-105 | a query that matches nothing passes nothing on and does not throw |
| MergeUpdateRequestProcessorFactory.BulkMergeKeepsIds | src/main/java/com/gu/solr/MergeUpdateRequestProcessorFactory.java:103-111 | the k-th bulk add is the k-th match merged with the incoming document less its id, so each match keeps its own unique key, or stays without one |
| MergeUpdateRequestProcessorFactory.QueryDeleteStrips | src/main/java/com/gu/solr/MergeUpdateRequestProcessorFactory.java:148-157 | the k-th add of a delete by query is the k-th match without the delete fields |
| MergeUpdateRequestProcessorFactory.SingleAddNew | src/main/java/com/gu/solr/MergeUpdateRequestProcessorFactory.java:78-92 | an add whose id is in no document is passed on untouched |
| MergeUpdateRequestProcessorFactory.SingleAddMerges | src/main/java/com/gu/solr/MergeUpdateRequestProcessorFactory.java:78-92 | an add whose id is found is merged with the lowest-numbered document indexed under it |
| MergeUpdateRequestProcessorFactory.IdDeleteUnknown | src/main/java/com/gu/solr/MergeUpdateRequestProcessorFactory.java:122-137 | a delete by an unknown id passes nothing on |
| MergeUpdateRequestProcessorFactory.IdDeleteKnown | src/main/java/com/gu/solr/MergeUpdateRequestProcessorFactory.java:122-132 | a delete by a known id passes on exactly one add: the found document without the delete fields, overwriting committed versions |
| MergeUpdateRequestProcessorFactory.AsUpdatesOnlyAdds | src/main/java/com/gu/solr/MergeUpdateRequestProcessorFactory.java:117-159 | what the stage passes on is its adds, in order, and never a delete |

## Left out

- I/O and Lucene are replaced by values:
  - the searcher is a fixed sequence of stored documents;
  - `searcher.doc` is indexing into that sequence;
  - `getDocSet(q).iterator()` is the ascending sequence of matching document numbers;
  - `QueryParsing.parseQuery` is a parser function supplied with the request.

  Adds passed on do not change the index the request sees, as with a Solr searcher that has not reopened.
  `IOException` is not modelled.
- Scoring is not modelled. `search(query, 1)` takes the lowest-numbered matching document, which is the tie-break
  among equally scored term matches on the unique key.
- `cmd.getIndexedId(schema)` is the command's given id (`AddUpdateCommand.indexedId`). How Solr derives it from the
  document is library code outside this model.
- `sf.getType().toObject(f)` is the identity on stored values. Field types and their conversions are not modelled.
- Dynamic-field patterns are taken as already resolved into the schema's field map.
- The body of `MergeUtils.withoutId` is not part of the source. `WithoutId` assumes it removes the unique-key field
  and keeps everything else.
- Logging is not modelled, including the two `log.debug` calls whose format arguments are ignored.
- Request parameters arrive parsed: `getBool` as an optional boolean and `delete.field` as a list, where absent and
  empty are the same.
- Field values are copied, not shared. The source hands value collections from one document to another by reference.
- The command passed on by the single-document add is recorded as a snapshot of its document and
  `overwriteCommitted` flag. Later changes to the same command object are not tracked.
- The two parts of `processDelete`, and the shared body of the two `while (docs.hasNext())` loops, are separate
  methods (`DeleteById`, `DeleteByQuery`, `ForwardRewrites`, `Rewrite`). The statements run in the same order.
- Concurrency between requests is not modelled, because the source has no locking or other concurrency logic.
- Commit semantics are not modelled. `overwriteCommitted` is only recorded on the commands passed on.
