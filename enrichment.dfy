/** The generic enrichment run of the search repository: count the selected
    documents, stream them, analyze each one's text, and apply the staged
    partial updates in one bulk request. */
module Enrichment {
  import opened Wrappers
  import opened Values
  import opened Query
  import opened DocumentStore

  /** The pluggable analyzer: text in, derived fields out (or `None`). */
  type Analyzer = Value -> Option<Document>

  /** The only field the scan asks the store to return. */
  const ProjectedFields: Option<seq<string>> := Some(["full_text"])

  /** The field the loop reads from each streamed `_source`, as written. */
  const ReadField: string := "text"

  /** The field the loop evidently means to read: the one it projects. */
  const IntendedReadField: string := "full_text"

  /** `if analyzed_result:`: a missing or empty result is falsy. */
  predicate Fired(res: Option<Document>)
  {
    res.Some? && res.value != map[]
  }

  /** Whether a streamed document yields an update action: its text is
      truthy and the analyzer returns something truthy for it. */
  predicate Emits(h: Hit, readField: string, analyzer: Analyzer)
  {
    Truthy(Get(h.source, readField)) && Fired(analyzer(Get(h.source, readField)))
  }

  /** The staged partial update for one streamed document: the analyzer's
      fields, then `updated_at`. */
  function MakeAction(h: Hit, readField: string, analyzer: Analyzer, index: string, stamp: Timestamp): (a: Action)
    requires Emits(h, readField, analyzer)
  {
    Action("update", index, h.id, analyzer(Get(h.source, readField)).value["updated_at" := VTime(stamp)])
  }

  /** The actions the generator yields for a stream; `clock(p)` is the time
      read for the document at stream position `p`. */
  function UpdateActions(hits: seq<Hit>, readField: string, analyzer: Analyzer, index: string,
                         clock: nat -> Timestamp): seq<Action>
    decreases |hits|
  {
    if |hits| == 0 then []
    else
      var p := |hits| - 1;
      UpdateActions(hits[..p], readField, analyzer, index, clock)
      + (if Emits(hits[p], readField, analyzer) then [MakeAction(hits[p], readField, analyzer, index, clock(p))] else [])
  }

  /** The stream positions that yield an action, in stream order. */
  function Emitters(hits: seq<Hit>, readField: string, analyzer: Analyzer): seq<nat>
    decreases |hits|
  {
    if |hits| == 0 then []
    else
      var p := |hits| - 1;
      Emitters(hits[..p], readField, analyzer) + (if Emits(hits[p], readField, analyzer) then [p] else [])
  }

  /** The emitting positions are positions of the stream, in increasing
      order, each naming a document that yields. */
  lemma {:induction false} EmittersAreYieldingPositions(hits: seq<Hit>, readField: string, analyzer: Analyzer)
    ensures var src := Emitters(hits, readField, analyzer);
      && |src| <= |hits|
      && (forall k :: 0 <= k < |src| ==> src[k] < |hits| && Emits(hits[src[k]], readField, analyzer))
      && (forall k1, k2 :: 0 <= k1 < k2 < |src| ==> src[k1] < src[k2])
  {
    if |hits| > 0 {
      var p := |hits| - 1;
      var init := hits[..p];
      EmittersAreYieldingPositions(init, readField, analyzer);
      var src0 := Emitters(init, readField, analyzer);
      var src := Emitters(hits, readField, analyzer);
      assert forall k :: 0 <= k < |src0| ==> init[src0[k]] == hits[src0[k]];
      assert forall k :: 0 <= k < |src0| ==> src[k] == src0[k];
    }
  }

  /** Every document of the stream that yields is among the emitting
      positions. */
  lemma {:induction false} EmittersComplete(hits: seq<Hit>, readField: string, analyzer: Analyzer)
    ensures forall j :: 0 <= j < |hits| && Emits(hits[j], readField, analyzer) ==> j in Emitters(hits, readField, analyzer)
  {
    if |hits| > 0 {
      var p := |hits| - 1;
      var init := hits[..p];
      EmittersComplete(init, readField, analyzer);
      assert forall j :: 0 <= j < p ==> init[j] == hits[j];
    }
  }

  /** The k-th action is the one staged for the k-th emitting position. */
  lemma {:induction false} ActionsFollowEmitters(hits: seq<Hit>, readField: string, analyzer: Analyzer, index: string,
                                                 clock: nat -> Timestamp)
    ensures var acts, src := UpdateActions(hits, readField, analyzer, index, clock), Emitters(hits, readField, analyzer);
      && |acts| == |src|
      && forall k :: 0 <= k < |src| ==>
           src[k] < |hits| && Emits(hits[src[k]], readField, analyzer)
           && acts[k] == MakeAction(hits[src[k]], readField, analyzer, index, clock(src[k]))
  {
    if |hits| > 0 {
      var p := |hits| - 1;
      var init := hits[..p];
      ActionsFollowEmitters(init, readField, analyzer, index, clock);
      var src0 := Emitters(init, readField, analyzer);
      assert forall k :: 0 <= k < |src0| ==> init[src0[k]] == hits[src0[k]];
    }
  }

  /** Every action is an `update` of the service's index, for the `_id` of
      the document that produced it, whose `doc` is the analyzer's fields
      with `updated_at` overriding any analyzer field of that name; there is
      at most one action per document, in stream order, and a document whose
      text is missing or empty, or whose analysis is falsy, yields none. */
  lemma UpdateActionsShape(hits: seq<Hit>, readField: string, analyzer: Analyzer, index: string,
                           clock: nat -> Timestamp)
    ensures var acts, src := UpdateActions(hits, readField, analyzer, index, clock), Emitters(hits, readField, analyzer);
      && |acts| == |src| <= |hits|
      && (forall k :: 0 <= k < |src| ==> src[k] < |hits| && Emits(hits[src[k]], readField, analyzer))
      && (forall k :: 0 <= k < |src| ==>
            && acts[k].opType == "update"
            && acts[k].index == index
            && acts[k].id == hits[src[k]].id
            && acts[k].doc == analyzer(Get(hits[src[k]].source, readField)).value["updated_at" := VTime(clock(src[k]))])
      && (forall k1, k2 :: 0 <= k1 < k2 < |src| ==> src[k1] < src[k2])
      && (forall j :: 0 <= j < |hits| && !Emits(hits[j], readField, analyzer) ==> j !in src)
      && (forall j :: 0 <= j < |hits| && Emits(hits[j], readField, analyzer) ==> j in src)
  {
    EmittersAreYieldingPositions(hits, readField, analyzer);
    EmittersComplete(hits, readField, analyzer);
    ActionsFollowEmitters(hits, readField, analyzer, index, clock);
  }

  /** When every streamed document yields, the k-th action is that of the
      k-th document. */
  lemma {:induction false} AllEmit(hits: seq<Hit>, readField: string, analyzer: Analyzer, index: string, clock: nat -> Timestamp)
    requires forall j :: 0 <= j < |hits| ==> Emits(hits[j], readField, analyzer)
    ensures |UpdateActions(hits, readField, analyzer, index, clock)| == |hits|
    ensures forall k :: 0 <= k < |hits| ==>
              UpdateActions(hits, readField, analyzer, index, clock)[k] == MakeAction(hits[k], readField, analyzer, index, clock(k))
  {
    if |hits| > 0 {
      var p := |hits| - 1;
      var init := hits[..p];
      AllEmit(init, readField, analyzer, index, clock);
      var acts0 := UpdateActions(init, readField, analyzer, index, clock);
      var m := MakeAction(hits[p], readField, analyzer, index, clock(p));
      assert UpdateActions(hits, readField, analyzer, index, clock) == acts0 + [m];
      forall k | 0 <= k < |hits|
        ensures (acts0 + [m])[k] == MakeAction(hits[k], readField, analyzer, index, clock(k))
      {
        if k < p {
          assert init[k] == hits[k];
        }
      }
    }
  }

  /** No streamed document lacking the read field yields an action. */
  lemma {:induction false} NoneEmitWithoutField(hits: seq<Hit>, readField: string, analyzer: Analyzer, index: string,
                                                clock: nat -> Timestamp)
    requires forall j :: 0 <= j < |hits| ==> readField !in hits[j].source
    ensures UpdateActions(hits, readField, analyzer, index, clock) == []
  {
    if |hits| > 0 {
      NoneEmitWithoutField(hits[..|hits| - 1], readField, analyzer, index, clock);
    }
  }

  /** As written, the scan returns only `full_text` and the loop reads
      `text`, so no run ever stages an action or changes a document. */
  lemma AsWrittenEmitsNothing(stream: seq<Hit>, docs: map<string, Document>, q: BoolQuery, leaf: (Clause, Document) -> bool,
                              analyzer: Analyzer, index: string, clock: nat -> Timestamp, rejected: set<nat>)
    requires IsScan(stream, docs, q, ProjectedFields, leaf)
    ensures UpdateActions(stream, ReadField, analyzer, index, clock) == []
    ensures Bulk(docs, UpdateActions(stream, ReadField, analyzer, index, clock), rejected) == BulkOutcome(docs, BulkResult(0, 0))
  {
    forall j | 0 <= j < |stream|
      ensures ReadField !in stream[j].source
    {
      assert stream[j].source == Project(docs[stream[j].id], ProjectedFields);
    }
    NoneEmitWithoutField(stream, ReadField, analyzer, index, clock);
  }

  /** A concrete store that shows the as-written run never drains its
      backlog: one document with text and no derived field stays selected. */
  lemma AsWrittenBacklogStays(analyzer: Analyzer, index: string, clock: nat -> Timestamp)
    ensures var docs := map["d1" := map["full_text" := VStr("ceasefire now")]];
            var args := NoArgs.(notExistsFilters := Some(["is_bds"]));
            var q := QueryOf(args);
            forall leaf: (Clause, Document) -> bool, stream: seq<Hit> | IsScan(stream, docs, q, ProjectedFields, leaf) ::
              && |stream| == 1
              && MatchingIds(Bulk(docs, UpdateActions(stream, ReadField, analyzer, index, clock), {}).docs, q, leaf) == {"d1"}
  {
    var docs := map["d1" := map["full_text" := VStr("ceasefire now")]];
    var args := NoArgs.(notExistsFilters := Some(["is_bds"]));
    var q := QueryOf(args);
    var excluded := ["is_bds"];
    MapSeqAt(ExistsClause, excluded);
    assert excluded[0] == "is_bds";
    assert MapSeq(ExistsClause, excluded) == [Exists("is_bds")];
    assert q == BoolQuery([MatchAll], [], [Exists("is_bds")]);
    forall leaf: (Clause, Document) -> bool, stream: seq<Hit> | IsScan(stream, docs, q, ProjectedFields, leaf)
      ensures |stream| == 1
      ensures MatchingIds(Bulk(docs, UpdateActions(stream, ReadField, analyzer, index, clock), {}).docs, q, leaf) == {"d1"}
    {
      assert Satisfies(q, docs["d1"], leaf);
      assert MatchingIds(docs, q, leaf) == {"d1"};
      ScanLengthIsCount(stream, docs, q, ProjectedFields, leaf);
      AsWrittenEmitsNothing(stream, docs, q, leaf, analyzer, index, clock, {});
    }
  }

  /** Under a scan projected onto `full_text`, a document read through the
      projection shows the stored `full_text`. */
  lemma {:induction false} ScanShowsFullText(stream: seq<Hit>, docs: map<string, Document>, q: BoolQuery,
                                             leaf: (Clause, Document) -> bool, j: nat)
    requires IsScan(stream, docs, q, ProjectedFields, leaf)
    requires j < |stream|
    ensures stream[j].id in MatchingIds(docs, q, leaf)
    ensures Get(stream[j].source, IntendedReadField) == Get(docs[stream[j].id], IntendedReadField)
  {
    assert stream[j].id in IdsOf(stream);
  }

  /** When every document of a scan yields, the bulk request of its actions
      merges each document's action into it and leaves every document the
      scan did not select as it was. */
  lemma {:induction false} FullStreamApplied(stream: seq<Hit>, docs: map<string, Document>, q: BoolQuery,
                                             leaf: (Clause, Document) -> bool, readField: string, analyzer: Analyzer,
                                             index: string, clock: nat -> Timestamp)
    requires IsScan(stream, docs, q, ProjectedFields, leaf)
    requires forall j :: 0 <= j < |stream| ==> Emits(stream[j], readField, analyzer)
    ensures var acts := UpdateActions(stream, readField, analyzer, index, clock);
            var after := Bulk(docs, acts, {}).docs;
      && after.Keys == docs.Keys
      && (forall k :: 0 <= k < |stream| ==>
            after[stream[k].id] == docs[stream[k].id] + MakeAction(stream[k], readField, analyzer, index, clock(k)).doc)
      && (forall id :: id in docs && id !in MatchingIds(docs, q, leaf) ==> after[id] == docs[id])
  {
    var acts := UpdateActions(stream, readField, analyzer, index, clock);
    AllEmit(stream, readField, analyzer, index, clock);
    assert forall k :: 0 <= k < |acts| ==> acts[k].id == stream[k].id;
    BulkAllApplied(docs, acts, {});
    forall id | id in docs && id !in MatchingIds(docs, q, leaf)
      ensures Bulk(docs, acts, {}).docs[id] == docs[id]
    {
      forall k | 0 <= k < |acts| ensures acts[k].id != id {
        assert stream[k].id in IdsOf(stream);
      }
      BulkFramesOthers(docs, acts, {}, id);
    }
  }

  /** Reading the projected field, a run in which the analyzer always adds
      an indexed value for a `not_exists_filters` field, every selected
      document has text, and the store rejects nothing, leaves nothing for
      the same selector: the next count is 0. */
  lemma IntendedRunDrainsBacklog(stream: seq<Hit>, docs: map<string, Document>, args: QueryArgs,
                                 leaf: (Clause, Document) -> bool, analyzer: Analyzer, index: string,
                                 clock: nat -> Timestamp, f: string)
    requires IsScan(stream, docs, QueryOf(args), ProjectedFields, leaf)
    requires f in OrEmpty(args.notExistsFilters)
    requires forall t :: Truthy(t) ==> Fired(analyzer(t)) && f in analyzer(t).value && Indexable(analyzer(t).value[f])
    requires forall id :: id in docs && Satisfies(QueryOf(args), docs[id], leaf) ==> Truthy(Get(docs[id], IntendedReadField))
    ensures MatchingIds(Bulk(docs, UpdateActions(stream, IntendedReadField, analyzer, index, clock), {}).docs,
                        QueryOf(args), leaf) == {}
  {
    var q := QueryOf(args);
    var acts := UpdateActions(stream, IntendedReadField, analyzer, index, clock);
    var after := Bulk(docs, acts, {}).docs;
    forall j | 0 <= j < |stream|
      ensures Emits(stream[j], IntendedReadField, analyzer)
    {
      ScanShowsFullText(stream, docs, q, leaf, j);
    }
    FullStreamApplied(stream, docs, q, leaf, IntendedReadField, analyzer, index, clock);
    forall id | id in after
      ensures !Satisfies(q, after[id], leaf)
    {
      if id in MatchingIds(docs, q, leaf) {
        assert id in IdsOf(stream);
        var k :| 0 <= k < |stream| && stream[k].id == id;
        var text := Get(stream[k].source, IntendedReadField);
        DrainedDocument(args, leaf, docs[id], analyzer(text).value, clock(k), f);
      }
    }
  }

  /** A document merged with analyzer fields that give `f` an indexed value
      is no longer selected by a query excluding `f`. */
  lemma DrainedDocument(args: QueryArgs, leaf: (Clause, Document) -> bool, d: Document, fields: Document,
                        stamp: Timestamp, f: string)
    requires f in OrEmpty(args.notExistsFilters)
    requires f in fields && Indexable(fields[f])
    ensures !Satisfies(QueryOf(args), d + fields["updated_at" := VTime(stamp)], leaf)
  {
    var merged := d + fields["updated_at" := VTime(stamp)];
    if f == "updated_at" {
      assert merged[f] == VTime(stamp);
    } else {
      assert merged[f] == fields[f];
    }
    NotExistsExcludes(args, merged, leaf, f);
  }

  /** The search repository, over one document store service. */
  class ElasticSearchRepository {
    const esRepository: ElasticsearchService

    constructor (es: ElasticsearchService)
      ensures esRepository == es
    {
      esRepository := es;
    }

    /** `generate_update_actions`: streams the selected documents projected
        onto `full_text` and stages one action per document that yields;
        `processedCount` counts the staged actions. */
    method GenerateUpdateActions(analyzer: Analyzer, searchParams: QueryArgs, readField: string, clock: nat -> Timestamp)
      returns (actions: seq<Action>, ghost stream: seq<Hit>)
      ensures IsScan(stream, esRepository.docs, QueryOf(searchParams), ProjectedFields, esRepository.leafMatch)
      ensures actions == UpdateActions(stream, readField, analyzer, esRepository.indexName, clock)
      ensures |actions| <= |MatchingIds(esRepository.docs, QueryOf(searchParams), esRepository.leafMatch)|
      ensures forall k :: 0 <= k < |actions| ==>
                && actions[k].opType == "update" && actions[k].index == esRepository.indexName
                && actions[k].id in MatchingIds(esRepository.docs, QueryOf(searchParams), esRepository.leafMatch)
    {
      var hits := esRepository.StreamAllDocuments(ProjectedFields, searchParams);
      stream := hits;
      actions := [];
      var processedCount := 0;
      for i := 0 to |hits|
        invariant actions == UpdateActions(hits[..i], readField, analyzer, esRepository.indexName, clock)
        invariant processedCount == |actions|
      {
        assert hits[..i + 1][..i] == hits[..i];
        var doc := hits[i];
        var textToAnalyze := Get(doc.source, readField);
        if !Truthy(textToAnalyze) {
          continue;
        }
        var analyzedResult := analyzer(textToAnalyze);
        if Fired(analyzedResult) {
          actions := actions + [Action("update", esRepository.indexName, doc.id,
                                       analyzedResult.value["updated_at" := VTime(clock(i))])];
          processedCount := processedCount + 1;
        }
      }
      assert hits[..|hits|] == hits;
      UpdateActionsShape(hits, readField, analyzer, esRepository.indexName, clock);
      ScanLengthIsCount(hits, esRepository.docs, QueryOf(searchParams), ProjectedFields, esRepository.leafMatch);
    }

    /** The run itself, for the field the loop reads. Returns `None` without
        opening a stream when the count is 0 (also when the count request
        failed), else exactly the bulk request's counts. */
    method Enrich(analyzer: Analyzer, searchParams: QueryArgs, readField: string, countFails: bool,
                  clock: nat -> Timestamp, rejected: set<nat>)
      returns (r: Option<BulkResult>, ghost stream: seq<Hit>)
      modifies esRepository
      ensures old(esRepository.Count(searchParams, countFails)) == 0 ==>
                r == None && esRepository.docs == old(esRepository.docs) && stream == []
      ensures old(esRepository.Count(searchParams, countFails)) != 0 ==>
                var acts := UpdateActions(stream, readField, analyzer, esRepository.indexName, clock);
                && IsScan(stream, old(esRepository.docs), QueryOf(searchParams), ProjectedFields, esRepository.leafMatch)
                && esRepository.docs == Bulk(old(esRepository.docs), acts, rejected).docs
                && r == Some(Bulk(old(esRepository.docs), acts, rejected).result)
    {
      var docsToProcess := esRepository.Count(searchParams, countFails);
      if docsToProcess == 0 {
        return None, [];
      }
      var actions;
      actions, stream := GenerateUpdateActions(analyzer, searchParams, readField, clock);
      var result := esRepository.BulkUpdate(actions, rejected);
      r := Some(result);
    }

    /** `generic_enrich_documents` as written: the loop reads `text`. */
    method GenericEnrichDocuments(analyzer: Analyzer, searchParams: QueryArgs, processName: string, countFails: bool,
                                  clock: nat -> Timestamp, rejected: set<nat>)
      returns (r: Option<BulkResult>, ghost stream: seq<Hit>)
      modifies esRepository
      ensures old(esRepository.Count(searchParams, countFails)) == 0 ==>
                r == None && esRepository.docs == old(esRepository.docs) && stream == []
      ensures old(esRepository.Count(searchParams, countFails)) != 0 ==>
                var acts := UpdateActions(stream, ReadField, analyzer, esRepository.indexName, clock);
                && IsScan(stream, old(esRepository.docs), QueryOf(searchParams), ProjectedFields, esRepository.leafMatch)
                && esRepository.docs == Bulk(old(esRepository.docs), acts, rejected).docs
                && r == Some(Bulk(old(esRepository.docs), acts, rejected).result)
    {
      r, stream := Enrich(analyzer, searchParams, ReadField, countFails, clock, rejected);
    }

    /** The run reading the projected field `full_text`. */
    method GenericEnrichDocumentsIntended(analyzer: Analyzer, searchParams: QueryArgs, processName: string,
                                          countFails: bool, clock: nat -> Timestamp, rejected: set<nat>)
      returns (r: Option<BulkResult>, ghost stream: seq<Hit>)
      modifies esRepository
      ensures old(esRepository.Count(searchParams, countFails)) == 0 ==>
                r == None && esRepository.docs == old(esRepository.docs) && stream == []
      ensures old(esRepository.Count(searchParams, countFails)) != 0 ==>
                var acts := UpdateActions(stream, IntendedReadField, analyzer, esRepository.indexName, clock);
                && IsScan(stream, old(esRepository.docs), QueryOf(searchParams), ProjectedFields, esRepository.leafMatch)
                && esRepository.docs == Bulk(old(esRepository.docs), acts, rejected).docs
                && r == Some(Bulk(old(esRepository.docs), acts, rejected).result)
    {
      r, stream := Enrich(analyzer, searchParams, IntendedReadField, countFails, clock, rejected);
    }
  }
}
