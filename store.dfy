/** The document store service: full replace, partial upsert, lookup, count,
    streaming scan and bulk partial update over one index, modelled as a map
    from document id to document. */
module DocumentStore {
  import opened Wrappers
  import opened Values
  import opened Query

  /** One scanned document: its `_id` and its (projected) `_source`. */
  datatype Hit = Hit(id: string, source: Document)

  /** A bulk action `{"_op_type", "_index", "_id", "doc"}`. */
  datatype Action = Action(opType: string, index: string, id: string, doc: Document)

  /** `{"success_count": ..., "error_count": ...}`. */
  datatype BulkResult = BulkResult(successCount: nat, errorCount: nat)

  /** What the index looks like after a bulk request, and its counts. */
  datatype BulkOutcome = BulkOutcome(docs: map<string, Document>, result: BulkResult)

  datatype StoreError =
    | KeyError(key: string)   // `document["file_hash"]` on a dict without it
    | InvalidId               // a `file_hash` that is not a non-empty string
    | EmptyId                 // the client's `ValueError` for an empty `id`, raised before any request

  // ----- Specification functions -----

  /** The id `create_document` writes under: `id or document["file_hash"]`. */
  function CreateId(document: Document, id: Option<string>): (r: Result<string, StoreError>)
    ensures r.Ok? ==> r.value != ""
  {
    if TextGiven(id) then Ok(id.value)
    else if "file_hash" !in document then Err(KeyError("file_hash"))
    else match document["file_hash"]
      case VStr(s) => if s != "" then Ok(s) else Err(InvalidId)
      case _ => Err(InvalidId)
  }

  /** The caller's dict after `doc_data.update({"created_at": now, "updated_at": now})`. */
  function Stamped(document: Document, now: Timestamp): Document
  {
    document["created_at" := VTime(now)]["updated_at" := VTime(now)]
  }

  /** `update_dict`: the non-null entries of the update, with `updated_at` set. */
  function UpdateFields(data: Document, now: Timestamp): (r: Document)
    ensures "updated_at" in r && r["updated_at"] == VTime(now)
    ensures forall k :: k in r ==> r[k] != VNull
    ensures forall k :: k != "updated_at" ==> (k in r <==> k in data && data[k] != VNull)
    ensures forall k :: k in r && k != "updated_at" ==> r[k] == data[k]
  {
    (map k | k in data && data[k] != VNull :: data[k])["updated_at" := VTime(now)]
  }

  /** A partial update with `doc_as_upsert`: merge into the stored document,
      or store the fields as a new document. */
  function Upsert(docs: map<string, Document>, id: string, fields: Document): map<string, Document>
  {
    docs[id := if id in docs then docs[id] + fields else fields]
  }

  /** The upsert creates an absent document, keeps the fields it does not
      name, overwrites the ones it does, and leaves other documents alone. */
  lemma UpsertIsMerge(docs: map<string, Document>, id: string, fields: Document)
    ensures var r := Upsert(docs, id, fields);
      && r.Keys == docs.Keys + {id}
      && (forall other :: other in docs && other != id ==> r[other] == docs[other])
      && (id !in docs ==> r[id] == fields)
      && (forall k :: k in fields ==> k in r[id] && r[id][k] == fields[k])
      && (id in docs ==> forall k :: k in docs[id] && k !in fields ==> k in r[id] && r[id][k] == docs[id][k])
      && (forall k :: k in r[id] ==> k in fields || (id in docs && k in docs[id]))
  {
  }

  /** Two merges into one document accumulate: `merge(fp, {a: 1})` then
      `merge(fp, {b: 2})` holds both, the later one winning on shared names. */
  lemma UpsertTwice(docs: map<string, Document>, id: string, f1: Document, f2: Document)
    ensures Upsert(Upsert(docs, id, f1), id, f2) == Upsert(docs, id, f1 + f2)
  {
    var lhs, rhs := Upsert(Upsert(docs, id, f1), id, f2), Upsert(docs, id, f1 + f2);
    if id in docs {
      assert lhs[id] == (docs[id] + f1) + f2;
      assert (docs[id] + f1) + f2 == docs[id] + (f1 + f2);
    }
    assert lhs.Keys == rhs.Keys;
  }

  /** `_source` filtering: only the requested fields, or the whole source
      when no field list is given (`fields_to_include=None`). */
  function Project(d: Document, fields: Option<seq<string>>): Document
  {
    match fields
    case None => d
    case Some(names) => map k | k in d && k in names :: d[k]
  }

  /** The ids of the documents a query selects. */
  function MatchingIds(docs: map<string, Document>, q: BoolQuery, leaf: (Clause, Document) -> bool): set<string>
  {
    set id | id in docs && Satisfies(q, docs[id], leaf)
  }

  function IdsOf(hits: seq<Hit>): set<string>
  {
    set i | 0 <= i < |hits| :: hits[i].id
  }

  predicate DistinctIds(hits: seq<Hit>)
  {
    forall i, j :: 0 <= i < j < |hits| ==> hits[i].id != hits[j].id
  }

  /** `hits` is a complete scan of `docs` for `q`: each selected document
      exactly once, in some order, its source projected onto `fields`. */
  ghost predicate IsScan(hits: seq<Hit>, docs: map<string, Document>, q: BoolQuery, fields: Option<seq<string>>,
                         leaf: (Clause, Document) -> bool)
  {
    && DistinctIds(hits)
    && IdsOf(hits) == MatchingIds(docs, q, leaf)
    && (forall i :: 0 <= i < |hits| ==> hits[i].id in docs && hits[i].source == Project(docs[hits[i].id], fields))
  }

  lemma IdsOfSnoc(hits: seq<Hit>, h: Hit)
    ensures IdsOf(hits + [h]) == IdsOf(hits) + {h.id}
  {
    var l := hits + [h];
    assert forall i :: 0 <= i < |hits| ==> l[i] == hits[i];
    assert l[|hits|] == h;
  }

  lemma {:induction false} DistinctIdsCount(hits: seq<Hit>)
    requires DistinctIds(hits)
    ensures |IdsOf(hits)| == |hits|
  {
    if |hits| > 0 {
      var init := hits[..|hits| - 1];
      assert hits == init + [hits[|hits| - 1]];
      DistinctIdsCount(init);
      IdsOfSnoc(init, hits[|hits| - 1]);
      assert hits[|hits| - 1].id !in IdsOf(init);
    }
  }

  /** A scan yields as many documents as the count query reports. */
  lemma ScanLengthIsCount(hits: seq<Hit>, docs: map<string, Document>, q: BoolQuery, fields: Option<seq<string>>,
                          leaf: (Clause, Document) -> bool)
    requires IsScan(hits, docs, q, fields, leaf)
    ensures |hits| == |MatchingIds(docs, q, leaf)|
  {
    DistinctIdsCount(hits);
  }

  /** A scan without a field list returns every selected document whole. */
  lemma WholeSourceScan(hits: seq<Hit>, docs: map<string, Document>, q: BoolQuery, leaf: (Clause, Document) -> bool)
    requires IsScan(hits, docs, q, None, leaf)
    ensures forall i :: 0 <= i < |hits| ==> hits[i].id in MatchingIds(docs, q, leaf) && hits[i].source == docs[hits[i].id]
  {
    forall i | 0 <= i < |hits|
      ensures hits[i].id in MatchingIds(docs, q, leaf)
    {
      assert hits[i].id in IdsOf(hits);
    }
  }

  /** Applies one action of a bulk request: an update of an existing
      document that the store does not reject. */
  predicate Applies(docs: map<string, Document>, a: Action, pos: nat, rejected: set<nat>)
  {
    pos !in rejected && a.id in docs
  }

  /** A bulk request of partial updates applied in order; the action at
      position `p` is rejected by the store when `p in rejected`, and an
      update of a missing document fails. */
  function Bulk(docs: map<string, Document>, actions: seq<Action>, rejected: set<nat>): (r: BulkOutcome)
    ensures r.result.successCount + r.result.errorCount == |actions|
    ensures r.docs.Keys == docs.Keys
    decreases |actions|
  {
    if |actions| == 0 then BulkOutcome(docs, BulkResult(0, 0))
    else
      var prev := Bulk(docs, actions[..|actions| - 1], rejected);
      var a, p := actions[|actions| - 1], |actions| - 1;
      if Applies(prev.docs, a, p, rejected) then
        BulkOutcome(prev.docs[a.id := prev.docs[a.id] + a.doc],
                    BulkResult(prev.result.successCount + 1, prev.result.errorCount))
      else
        BulkOutcome(prev.docs, BulkResult(prev.result.successCount, prev.result.errorCount + 1))
  }

  /** A bulk request touches only the documents its actions name. */
  lemma {:induction false} BulkFramesOthers(docs: map<string, Document>, actions: seq<Action>, rejected: set<nat>, id: string)
    requires forall k :: 0 <= k < |actions| ==> actions[k].id != id
    requires id in docs
    ensures Bulk(docs, actions, rejected).docs[id] == docs[id]
  {
    if |actions| > 0 {
      BulkFramesOthers(docs, actions[..|actions| - 1], rejected, id);
    }
  }

  /** With distinct ids of existing documents and no rejection, every action
      succeeds and merges its fields into its document. */
  lemma {:induction false} BulkAllApplied(docs: map<string, Document>, actions: seq<Action>, rejected: set<nat>)
    requires forall i, j :: 0 <= i < j < |actions| ==> actions[i].id != actions[j].id
    requires forall k :: 0 <= k < |actions| ==> actions[k].id in docs && k !in rejected
    ensures Bulk(docs, actions, rejected).result == BulkResult(|actions|, 0)
    ensures forall k :: 0 <= k < |actions| ==>
              Bulk(docs, actions, rejected).docs[actions[k].id] == docs[actions[k].id] + actions[k].doc
  {
    if |actions| > 0 {
      var init, a := actions[..|actions| - 1], actions[|actions| - 1];
      BulkAllApplied(docs, init, rejected);
      BulkFramesOthers(docs, init, rejected, a.id);
    }
  }

  /** The index of the document store service. */
  class ElasticsearchService {
    const indexName: string
    /** How the store decides the clauses the model does not interpret. */
    const leafMatch: (Clause, Document) -> bool
    var docs: map<string, Document>

    constructor (indexName: string, leafMatch: (Clause, Document) -> bool)
      ensures this.indexName == indexName && this.leafMatch == leafMatch && docs == map[]
    {
      this.indexName := indexName;
      this.leafMatch := leafMatch;
      docs := map[];
    }

    /** `create_document`: stamps the caller's dict in place with equal
        `created_at` and `updated_at`, then stores it whole under `id` or,
        when `id` is not given, under its `file_hash`, and returns the
        stored source as read back. */
    method CreateDocument(document: Dict, id: Option<string>, now: Timestamp) returns (r: Result<Document, StoreError>)
      modifies this, document
      ensures CreateId(old(document.entries), id).Err? ==> r == Err(CreateId(old(document.entries), id).error)
      ensures CreateId(old(document.entries), id) == Err(KeyError("file_hash")) ==>
                document.entries == old(document.entries)
      ensures CreateId(old(document.entries), id) != Err(KeyError("file_hash")) ==>
                document.entries == Stamped(old(document.entries), now)
      ensures CreateId(old(document.entries), id).Ok? ==>
                && docs == old(docs)[CreateId(old(document.entries), id).value := document.entries]
                && r == Ok(document.entries)
                && r == Ok(docs[CreateId(old(document.entries), id).value])
      ensures CreateId(old(document.entries), id).Err? ==> docs == old(docs)
    {
      var key := CreateId(document.entries, id);
      if key == Err(KeyError("file_hash")) {
        return Err(KeyError("file_hash"));
      }
      document.entries := Stamped(document.entries, now);
      if key.Err? {
        return Err(key.error);
      }
      docs := docs[key.value := document.entries];
      var stored := GetDocument(key.value);
      r := Ok(stored.value.value);
    }

    /** `get_document`: the stored document, or `None` when there is none;
        the client refuses an empty id, and the error is re-raised. */
    function GetDocument(id: string): (r: Result<Option<Document>, StoreError>)
      reads this
      ensures r.Err? <==> id == ""
      ensures r.Err? ==> r.error == EmptyId
      ensures r.Ok? ==> (r.value.None? <==> id !in docs)
      ensures r.Ok? && r.value.Some? ==> r.value.value == docs[id]
    {
      if id == "" then Err(EmptyId)
      else if id in docs then Ok(Some(docs[id]))
      else Ok(None)
    }

    /** `update_document`: drops `None` values, stamps `updated_at`, upserts,
        and returns the document as stored afterwards. */
    method UpdateDocument(id: string, updateData: Dict, now: Timestamp) returns (r: Result<Option<Document>, StoreError>)
      modifies this
      ensures id == "" ==> r == Err(EmptyId) && docs == old(docs)
      ensures id != "" ==> docs == Upsert(old(docs), id, UpdateFields(updateData.entries, now))
      ensures id != "" ==> r == Ok(Some(docs[id]))
    {
      if id == "" {
        return Err(EmptyId);
      }
      var updateDict := map k | k in updateData.entries && updateData.entries[k] != VNull :: updateData.entries[k];
      updateDict := updateDict["updated_at" := VTime(now)];
      docs := Upsert(docs, id, updateDict);
      r := GetDocument(id);
    }

    /** `count`: the number of documents the query selects; 0 when the
        request fails (`fails`), since the error is swallowed. */
    function Count(args: QueryArgs, fails: bool): (r: nat)
      reads this
      ensures fails ==> r == 0
      ensures !fails ==> r == |MatchingIds(docs, QueryOf(args), leafMatch)|
    {
      if fails then 0 else |MatchingIds(docs, QueryOf(args), leafMatch)|
    }

    /** `stream_all_documents`: every selected document once, in an order
        the store chooses, its source restricted to `fieldsToInclude`, or
        whole when no field list is given. */
    method StreamAllDocuments(fieldsToInclude: Option<seq<string>>, args: QueryArgs) returns (hits: seq<Hit>)
      ensures IsScan(hits, docs, QueryOf(args), fieldsToInclude, leafMatch)
    {
      var q := BuildQuery(args);
      hits := [];
      var pending := docs.Keys;
      while pending != {}
        invariant pending <= docs.Keys
        invariant DistinctIds(hits)
        invariant forall i :: 0 <= i < |hits| ==>
                    hits[i].id in docs && hits[i].id !in pending && hits[i].source == Project(docs[hits[i].id], fieldsToInclude)
        invariant IdsOf(hits) == set id | id in docs && id !in pending && Satisfies(q, docs[id], leafMatch)
        decreases pending
      {
        var id :| id in pending;
        if Satisfies(q, docs[id], leafMatch) {
          IdsOfSnoc(hits, Hit(id, Project(docs[id], fieldsToInclude)));
          hits := hits + [Hit(id, Project(docs[id], fieldsToInclude))];
        }
        pending := pending - {id};
      }
    }

    /** `bulk_update`: applies the actions in order and reports how many
        succeeded and how many failed. */
    method BulkUpdate(actions: seq<Action>, rejected: set<nat>) returns (r: BulkResult)
      modifies this
      ensures docs == Bulk(old(docs), actions, rejected).docs
      ensures r == Bulk(old(docs), actions, rejected).result
    {
      var current, success, failed := docs, 0, 0;
      for i := 0 to |actions|
        invariant Bulk(old(docs), actions[..i], rejected) == BulkOutcome(current, BulkResult(success, failed))
      {
        assert actions[..i + 1][..i] == actions[..i] && actions[..i + 1][i] == actions[i];
        var a := actions[i];
        if i !in rejected && a.id in current {
          current := current[a.id := current[a.id] + a.doc];
          success := success + 1;
        } else {
          failed := failed + 1;
        }
      }
      assert actions[..|actions|] == actions;
      docs := current;
      r := BulkResult(success, failed);
    }
  }
}
