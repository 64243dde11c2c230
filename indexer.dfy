/** The indexer: writes a received metadata message into the document store
    under the message key. */
module Indexer {
  import opened Wrappers
  import opened Values
  import opened DocumentStore

  class Index {
    const es: ElasticsearchService

    constructor (es: ElasticsearchService)
      ensures this.es == es
    {
      this.es := es;
    }

    /** `index_document`: upserts a shallow copy of the message under `key`
        and returns the stored document, or fails as the store does for an
        empty key; the caller's dict is left as it was. */
    method IndexDocument(document: Dict, key: string, now: Timestamp) returns (r: Result<Option<Document>, StoreError>)
      modifies es
      ensures key == "" ==> r == Err(EmptyId) && es.docs == old(es.docs)
      ensures key != "" ==> es.docs == Upsert(old(es.docs), key, UpdateFields(old(document.entries), now))
      ensures key != "" ==> r == Ok(Some(es.docs[key]))
      ensures document.entries == old(document.entries)
    {
      var copy := new Dict(document.entries);
      r := es.UpdateDocument(key, copy, now);
    }
  }

  /** The write goes under the message key, whatever `file_hash` the message
      carries: no other stored document changes, and the stored fields the
      message does not name (or names with `None`) survive. */
  lemma IndexWritesUnderKey(docs: map<string, Document>, key: string, message: Document, now: Timestamp)
    ensures var after := Upsert(docs, key, UpdateFields(message, now));
      && (forall id :: id != key ==> (id in after <==> id in docs) && (id in docs ==> after[id] == docs[id]))
      && (key in docs ==> forall k :: k in docs[key] && (k !in message || message[k] == VNull) && k != "updated_at" ==>
            k in after[key] && after[key][k] == docs[key][k])
      && (forall k :: k in message && message[k] != VNull && k != "updated_at" ==> after[key][k] == message[k])
      && after[key]["updated_at"] == VTime(now)
  {
    UpsertIsMerge(docs, key, UpdateFields(message, now));
  }
}
