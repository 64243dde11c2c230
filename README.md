# Muezzin pipeline core, modelled in Dafny

This project models the key/value core of the audio-ingestion pipeline. Kafka, HTTP and Whisper wiring are not modelled. The core has six parts:

- **The document store service** over one search index (`ElasticsearchService`). It covers the generic `bool` query builder, full-replace create, lookup, null-dropping upsert, count (which swallows errors), streaming scan and bulk partial update.
- **The generic enrichment run** (`ElasticSearchRepository.generic_enrich_documents`). It counts the selected documents, streams them, asks an analyzer about each one's text, stages partial-update actions and sends them through one bulk-helper call.
- **The deduplicating blob upload** (`MongoService.upload_file`). An existence check in GridFS, keyed by the content hash, guards a `put` under that hash.
- **The chunked content hash and the message handler of the preprocessor** (`Proses.get_audio_file_hash`, `Proses.proses`).
- **The indexer's write of a metadata message** (`Index.index_document`).
- **The Base64 text codec** (`Encoding.encode_base64` and `Encoding.decode_base64`).

How the model is built:

- **The store.** The index is a map from document id to a flat document (`map<string, Value>`). It is held in a class whose methods reassign it.
- **Query semantics.** `match_all` and `exists` are interpreted. The store's text analysis, term and range matching and scripts are an uninterpreted predicate fixed per store (`leafMatch`).
- **The scan.** The scan's order is the store's choice. The enrichment methods report through a ghost out-parameter the scan they were given.
- **Bulk rejections.** The store's per-action rejection decisions are a parameter: the set of rejected positions.
- **Abstracted services.** The hash algorithm is an uninterpreted function of all bytes fed to the hasher. Clocks are timestamp parameters. The local file system is a map from path to file content, or to an `open` failure.
- **Concrete codecs.** Base64 follows section 4 of RFC 4648 for encoding. Decoding follows CPython's non-strict `binascii.a2b_base64`, the one `b64decode` uses without `validate`:
  - bytes outside the alphabet are skipped;
  - decoding stops at the first complete padding;
  - a group cut short is an error.

  UTF-8 is concrete as well: a strict decoder that rejects overlong forms, surrogates and code points above U+10FFFF.

Behaviour of the code worth stating plainly:

- **Hash errors.** `get_audio_file_hash` never raises. A missing file returns `"Error: File not found at <path>"` and every other failure returns `"An error occurred: <message>"`: an unknown algorithm, a path that is not a string, an unreadable file, or a buffer size below -1 (`read length must be non-negative or -1`). Buffer size 0 reads nothing and returns the digest of no bytes.
- **No fan-out.** `proses` reads `file_path` and `meta_data`, hashes the path and publishes nothing.
- **Empty count.** The enrichment run returns `None` when the count is 0, and the bulk counts otherwise.
- **The read field.** The run has no configurable input field. It projects `full_text` and reads `text` (see Findings).

## Model

| member | source | states |
|---|---|---|
| Query.BuildQuery | utilities/elasticsearch/elasticsearch_service.py:95-168 | The three lists appended in source order equal the reference query `QueryOf(args)` whose shape the lemmas below pin down |
| Query.MustIsSingleTextClause | utilities/elasticsearch/elasticsearch_service.py:124-130 | Exactly one `must` clause: `match` on `text` for a non-empty `query_text`, else `terms` on `text` for non-empty `search_terms`, else `match_all` |
| Query.MustNotIsNotExists | utilities/elasticsearch/elasticsearch_service.py:142-145 | `must_not` is one `exists` clause per `not_exists_filters` field, in input order, and nothing else |
| Query.FilterLayout | utilities/elasticsearch/elasticsearch_service.py:132-160 | The `filter` length is the number of term + exists + terms + range + script entries, placed in that category order and each category in input order |
| Query.NoArgsQuery | utilities/elasticsearch/elasticsearch_service.py:120-168 | With no arguments the query is `bool{must: [match_all], filter: [], must_not: []}` |
| Query.NotExistsExcludes | utilities/elasticsearch/elasticsearch_service.py:142-145 | A document holding an indexed value for a `not_exists_filters` field is never selected |
| DocumentStore.UpdateFields | utilities/elasticsearch/elasticsearch_service.py:77-79 | The update never carries a `None` value, always carries `updated_at` stamped now, and keeps exactly the non-null entries of `update_data` with their values |
| DocumentStore.UpsertIsMerge | utilities/elasticsearch/elasticsearch_service.py:81-85 | The partial update with `doc_as_upsert` creates an absent document, overwrites the fields it names, keeps the others, and leaves all other ids untouched |
| DocumentStore.UpsertTwice | utilities/elasticsearch/elasticsearch_service.py:81-85 | Two upserts into one id accumulate: they equal one upsert of the merged fields, the later value winning |
| DocumentStore.Bulk | utilities/elasticsearch/elasticsearch_service.py:199-202 | A bulk request's success and error counts add up to the number of actions, and it neither creates nor deletes documents |
| DocumentStore.BulkFramesOthers | utilities/elasticsearch/elasticsearch_service.py:199-200 | A bulk request leaves unchanged every document none of its actions names |
| DocumentStore.BulkAllApplied | utilities/elasticsearch/elasticsearch_service.py:199-202 | With distinct existing ids and no rejection, every action succeeds and merges its `doc` into its document |
| DocumentStore.WholeSourceScan | utilities/elasticsearch/elasticsearch_service.py:170-187 | Without a field list, every streamed hit is a selected document with its whole stored `_source` |
| DocumentStore.ScanLengthIsCount | utilities/elasticsearch/elasticsearch_service.py:170-187 | A scan yields as many documents as the same query counts |
| DocumentStore.ElasticsearchService.constructor | utilities/elasticsearch/elasticsearch_service.py:13-15 | A service over an index name starts with that name and an empty index |
| DocumentStore.ElasticsearchService.CreateDocument | utilities/elasticsearch/elasticsearch_service.py:44-60 | Uses `id` when truthy, else `document["file_hash"]` (a missing one raises before anything changes). It stamps the caller's dict in place with `created_at == updated_at`, replaces the stored document whole with it and returns the stored source as read back, which equals the stamped dict |
| DocumentStore.ElasticsearchService.GetDocument | utilities/elasticsearch/elasticsearch_service.py:62-72 | An error exactly for the empty id, which the client refuses before any request and the handler re-raises. Otherwise `None` exactly when the id is not stored, else the stored source |
| DocumentStore.ElasticsearchService.UpdateDocument | utilities/elasticsearch/elasticsearch_service.py:74-93 | The empty id fails with the client's error and changes nothing. Any other id: the index becomes the upsert of the non-null fields plus `updated_at`, and the result is the document as stored after the write |
| DocumentStore.ElasticsearchService.Count | utilities/elasticsearch/elasticsearch_service.py:207-215 | The number of selected documents, or 0 when the request fails, the error being swallowed |
| DocumentStore.ElasticsearchService.StreamAllDocuments | utilities/elasticsearch/elasticsearch_service.py:170-190 | Every selected document exactly once, in an order the store picks, its `_source` restricted to the requested fields, or whole when `fields_to_include` is `None` |
| DocumentStore.ElasticsearchService.BulkUpdate | utilities/elasticsearch/elasticsearch_service.py:192-202 | Applies the actions in order and returns `{success_count, error_count}` of that application |
| Enrichment.ElasticSearchRepository.constructor | utilities/elasticsearch/elasticSearch_repository.py:11-12 | The repository wraps the given store service |
| Enrichment.ElasticSearchRepository.GenerateUpdateActions | utilities/elasticsearch/elasticSearch_repository.py:35-62 | Streams projected onto `full_text`. The actions are the staged update of each streamed document that yields, in stream order. Each is an `update` of the service's index for a selected id, and there are at most as many as the count |
| Enrichment.ElasticSearchRepository.Enrich | utilities/elasticsearch/elasticSearch_repository.py:28-66 | A count of 0 returns `None` with no stream and no write. Otherwise the index becomes the bulk application of the staged actions and the result is exactly the bulk counts |
| Enrichment.ElasticSearchRepository.GenericEnrichDocuments | utilities/elasticsearch/elasticSearch_repository.py:14-66 | The run as written, reading `text` from sources projected onto `full_text` |
| Enrichment.ElasticSearchRepository.GenericEnrichDocumentsIntended | utilities/elasticsearch/elasticSearch_repository.py:14-66 | The same run reading the projected `full_text` |
| Enrichment.UpdateActionsShape | utilities/elasticsearch/elasticSearch_repository.py:41-57 | Every action is an `update` of the service's index for the streamed `_id`, with `doc` the analyzer fields and `updated_at` overriding. At most one action per document, in stream order. Exactly the documents with truthy text and truthy analysis yield one |
| Enrichment.EmittersAreYieldingPositions | utilities/elasticsearch/elasticSearch_repository.py:41-47 | The yielding positions are increasing stream positions, each one a document with truthy text and truthy analysis |
| Enrichment.EmittersComplete | utilities/elasticsearch/elasticSearch_repository.py:41-47 | Every streamed document with truthy text and truthy analysis is among the yielding positions |
| Enrichment.ActionsFollowEmitters | utilities/elasticsearch/elasticSearch_repository.py:48-56 | The k-th action is the one built from the k-th yielding document |
| Enrichment.AllEmit | utilities/elasticsearch/elasticSearch_repository.py:41-57 | When every streamed document yields, the actions correspond one to one with the stream |
| Enrichment.NoneEmitWithoutField | utilities/elasticsearch/elasticSearch_repository.py:42-44 | Documents whose source lacks the read field yield no action |
| Enrichment.AsWrittenEmitsNothing | utilities/elasticsearch/elasticSearch_repository.py:36-44 | With a `full_text` projection and a read of `text`, no run stages an action, and the bulk write changes nothing and counts 0/0 |
| Enrichment.AsWrittenBacklogStays | utilities/elasticsearch/elasticSearch_repository.py:36-44 | A concrete backlog document with `full_text` is still selected after the as-written run |
| Enrichment.ScanShowsFullText | utilities/elasticsearch/elasticSearch_repository.py:36-38 | Through the `full_text` projection, a streamed document shows its stored `full_text` |
| Enrichment.FullStreamApplied | utilities/elasticsearch/elasticSearch_repository.py:41-66 | When every scanned document yields, the bulk write merges each one's staged `doc` into it, keeps the id set, and leaves every unselected document as it was |
| Enrichment.IntendedRunDrainsBacklog | utilities/elasticsearch/elasticSearch_repository.py:35-66 | Reading `full_text`, a run whose analyzer fills a `not_exists_filters` field leaves nothing for the next count of the same selector |
| Enrichment.DrainedDocument | utilities/elasticsearch/elasticSearch_repository.py:52-55 | A document merged with fields that fill an excluded field is no longer selected |
| BlobStorage.GridFs.Exists | storage/mongo_service.py:18 | `exists(_id=h)` holds exactly when some file is stored under `h` |
| BlobStorage.GridFs.Put | storage/mongo_service.py:23 | `put` stores the bytes under a new id and returns the id. A taken id is refused and changes nothing |
| BlobStorage.Upload | storage/mongo_service.py:16-27 | An existing hash is returned without a put. Otherwise a readable file is put under the hash and the hash returned. Stored content is never overwritten and only the hash's entry can appear |
| BlobStorage.UploadTwice | storage/mongo_service.py:18-23 | Two uploads of one hash make at most one put, exactly one for a new hash and a readable file. The second changes nothing and returns the hash |
| BlobStorage.MongoService.constructor | storage/mongo_service.py:11-14 | The service holds the given GridFS bucket |
| BlobStorage.MongoService.UploadFile | storage/mongo_service.py:16-27 | The bucket and the returned value are those of `Upload`, and `put` is called exactly when `Upload` puts |
| Preprocessor.Read | preprosesor/proses.py:32 | `read(n)` returns the next bytes of the file, at most `n` of them and at least one while any remain, and all that remain for `-1` |
| Preprocessor.ChunksCover | preprosesor/proses.py:31-35 | For every buffer size but 0, the chunks read one after another add up to the whole rest of the file |
| Preprocessor.ChunksBounded | preprosesor/proses.py:31-35 | Every chunk is non-empty and at most `buffer_size` long, and buffer size 0 reads no chunk |
| Preprocessor.HashChunks | preprosesor/proses.py:31-35 | The read loop feeds the hasher exactly the file's chunks, in file order, so the hasher's input is the whole file (nothing for buffer size 0) |
| Preprocessor.GetAudioFileHash | preprosesor/proses.py:16-41 | Feeds the hasher the file's chunks in file order until the first empty read, and returns the digest of the whole file or the source's error string, including `open`'s `TypeError` text with the path's type name |
| Preprocessor.FailuresAreStrings | preprosesor/proses.py:28-41 | A missing file gives `"Error: File not found at <path>"` and any other failure a string starting `"An error occurred: "`. A readable file gives its digest |
| Preprocessor.NonePathMessage | preprosesor/proses.py:29-41 | A `None` path returns `"An error occurred: expected str, bytes or os.PathLike object, not NoneType"` |
| Preprocessor.BufferSizeIrrelevant | preprosesor/proses.py:16-37 | The digest is the same for every buffer size the reads accept except 0 |
| Preprocessor.SameContentSameHash | preprosesor/proses.py:16-37 | Byte-identical files have the same digest |
| Preprocessor.Process | preprosesor/proses.py:10-13 | Missing `file_path` or `meta_data` raises KeyError, in that order. Otherwise it hashes the path with `sha256` and 65536 and returns nothing |
| Indexer.Index.constructor | index/indux.py:6-7 | The indexer holds the given store service |
| Indexer.Index.IndexDocument | index/indux.py:9-15 | Leaves the caller's dict as it was. An empty `key` fails as the store does and writes nothing. Any other key: upserts the message's non-null fields plus `updated_at` under it and returns the stored document |
| Indexer.IndexWritesUnderKey | index/indux.py:11-14 | The write is under the message key. Other documents are untouched, stored fields the message does not name survive, and named fields take the message's values |
| Utf8.DecodeFirstOfEncoded | utilities/encoding.py:10 | The decoder reads back the first encoded code point and the length of its form, whatever bytes follow |
| Utf8.DecodeEncode | utilities/encoding.py:6 | Strict UTF-8 decoding gives back every encoded string |
| Utf8.DecodeUnique | utilities/encoding.py:10 | A decoded string encodes back to exactly the bytes decoded |
| Utf8.DecodeAscii | utilities/encoding.py:6 | Bytes below 0x80 decode one to one into the same code points |
| Base64.SymbolValue | utilities/encoding.py:10 | Each alphabet byte maps to the sextet the encoder writes it for |
| Base64.EncodeLength | utilities/encoding.py:6 | Four output characters per started group of three bytes: `4 * ceil(n / 3)` |
| Base64.EncodeAlphabet | utilities/encoding.py:6 | Only `A-Z a-z 0-9 + /` and `=` are written |
| Base64.EncodePadsLast | utilities/encoding.py:6 | Every `=` of the output is followed only by `=` |
| Base64.DecodeEncodeThen | utilities/encoding.py:10 | A padded encoding ends the decode whatever follows; an unpadded one is followed by the decode of what follows |
| Base64.DecodeEncode | utilities/encoding.py:6-10 | `b64decode(b64encode(b)) == b` for all bytes |
| Encoding.AsciiBytes | utilities/encoding.py:10 | A str passed to `b64decode` converts exactly when it is ASCII, code point to byte |
| Encoding.EncodeBase64 | utilities/encoding.py:5-6 | Its output is `4 * ceil(n / 3)` long for `n` UTF-8 bytes, ASCII only, in the Base64 alphabet plus `=` |
| Encoding.DecodeBase64 | utilities/encoding.py:9-10 | Non-ASCII input fails. A success's UTF-8 bytes are exactly what the Base64 layer decoded |
| Encoding.AsciiOfEncoded | utilities/encoding.py:6-10 | The encoded text read as ASCII is the Base64 encoding's bytes |
| Encoding.RoundTrip | utilities/encoding.py:5-10 | `decode_base64(encode_base64(s)) == s` for every string |
| Encoding.TrailingNewlineIgnored | utilities/encoding.py:10 | A newline after the encoding is skipped by the non-validating decoder |
| Encoding.EncodeEmpty | utilities/encoding.py:6 | `encode_base64("") == ""` |
| Encoding.InvalidUtf8Rejected | utilities/encoding.py:10 | `"/w=="` decodes to the byte 0xFF, which fails as UTF-8 |
| Encoding.MissingPaddingRejected | utilities/encoding.py:10 | `"/w"`, a group cut short, fails with incorrect padding |

## Left out

- Nested objects and floating-point values in documents: a `Value` is flat (null, bool, int, string, timestamp, list), so the store's partial merge is a shallow map merge.
- The store's query language proper (text analysis for `match`, term, terms, range and script matching) is an uninterpreted predicate of the document; only `match_all` and `exists` are interpreted.
- Index administration (`initialize_index`, `refresh`, `is_connected`, index checks), logging, `print` and `async`/`await`: no part of the modelled behaviour depends on them beyond visibility, which the model gives at once.
- Request failures of the store other than those modelled: a failing stream, bulk or update request raises in the source and is not modelled (the `count` failure is, as a `fails` flag); `update_document`'s `NotFoundError` branch is unreachable with `doc_as_upsert` on an existing index.
- DocumentStore.ElasticsearchService.CreateDocument: an empty or non-string `file_hash` is an `InvalidId` error that writes nothing. In the source, the client indexes an empty id under a store-generated id, and the following `get_document` then raises.
- DocumentStore.ElasticsearchService.CreateDocument: JSON serialisation is not modelled. When the store reads back a `_source`, its dates are the ISO-8601 strings the client wrote for the `datetime` stamps. The model keeps one `VTime` value for the caller's stamp, the stored value and the returned one, so `created_at` and `updated_at` of the result are `VTime`, not `str` as in Python. The same holds for the documents `UpdateDocument` and `Indexer.Index.IndexDocument` return, and for the `updated_at` of the bulk actions' `doc`.
- DocumentStore.ElasticsearchService.BulkUpdate: the action's `_index` is not consulted (one index), and every action is applied as a partial update. The bulk helper's default `raise_on_error=True` is not modelled. In the source, a rejected action raises `BulkIndexError`, `bulk_update` re-raises it, and a returned `error_count` is always 0. The model counts rejections instead (`DocumentStore.Bulk`).
- DocumentStore.ElasticsearchService.Count: an unknown keyword argument (a `TypeError` the handler also swallows) is covered only through the `fails` flag.
- Enrichment.ElasticSearchRepository.GenerateUpdateActions: the progress log every 100 actions is left out (the local `processed_count` that feeds it is kept equal to the number of actions only as a loop invariant, not in the contract), and the clock is read per stream position. The analyzer is a total function. In the source, an exception from `analyzer_func` escapes the generator and the bulk helper, `bulk_update` re-raises it, and the run aborts.
- Enrichment.ElasticSearchRepository.Enrich: the scan runs to completion before the bulk request applies every action. In the source, the async bulk helper pulls the lazy generator in chunks of 500 actions and sends each chunk while the scroll goes on. When a chunk raises, the earlier chunks stay applied and the later ones are never sent. The model promises nothing about such a partially applied run.
- Preprocessor.GetAudioFileHash: an integer or boolean path, which `open` takes as a file descriptor (`True` is descriptor 1), is not modelled as a descriptor. It gets the `TypeError` text naming `int` or `bool`, which Python does not produce.
- Indexer.Index.IndexDocument: the key is a `string`, so a `None` key cannot be represented. In the source, a message without a key reaches `update_document` as `None`, which the client refuses like the empty id.
- Preprocessor.Process: the digest is computed and dropped, exactly as in the source: no publish or store write follows.
- Kafka producers and consumers, the retry loops, the HTTP app, Whisper transcription, the data loader and the analysis stub are I/O or foreign code and not modelled.
- Strings are sequences of Unicode scalar values: lone surrogates in a Python `str`, which `encode('utf-8')` rejects, cannot occur in the model.
- The hash algorithm itself (SHA-256) is abstract: a function of the bytes fed, nothing about its output format is assumed.

## Findings

| source | as written | input that shows it | evidently intended | confidence | as-written member | corrected member |
|---|---|---|---|---|---|---|
| utilities/elasticsearch/elasticSearch_repository.py:37-42 | the scan asks for `_source` fields `["full_text"]`, then the loop reads `doc["_source"].get("text")`, which a projected source never holds, so no action is ever staged | a store holding `{"d1": {"full_text": "ceasefire now"}}` with `not_exists_filters=["is_bds"]`: the run counts 1, stages nothing, and `d1` is selected again on every later run | the loop reads the projected `full_text`; then a run whose analyzer fills the excluded field drains the backlog (Enrichment.IntendedRunDrainsBacklog) | not executed | Enrichment.AsWrittenBacklogStays | Enrichment.ElasticSearchRepository.GenericEnrichDocumentsIntended |
