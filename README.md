# Verified model of the RAG chatbot's document store

This project models the core of a retrieval-augmented chatbot that answers
agricultural questions from ingested files and wiki pages. The model is
written in Dafny. It covers four parts:

- **Ingestion** (`ingest.dfy`). A source text is cut into chunks: a text of
  at most 1200 characters is one chunk, and a longer one goes through the
  text splitter. Each chunk gets a vector and a metadata entry (label,
  `rep_type`, `full_path`). A batch is appended to the in-memory vector
  index and to the `docs` list, which describes vector i at position i.
  The source is then recorded in `processed_sources`.
- **The relational metadata store** (`db.dfy`). This is the `documents`
  table as a map from id to row. It covers:
  - id allocation as max + 1;
  - the distinct `full_path` set;
  - the all-or-nothing batch insert under the primary key;
  - fetch by ids in the caller's order;
  - delete by path.
- **Retrieval** (`qa.dfy`, `ranking.dfy`):
  - drop the search labels that are -1 or beyond `docs`;
  - sort stably by descending rerank score;
  - apply the score threshold and the `rerank_top_n` cut;
  - number the ranks from 1.

  An empty result gives no prompt, and the answer is then the fixed
  apology.
- **The HTTP endpoints** (`server.dfy`). `/ask` rejects an empty question.
  `/ingest` works in two steps. It first deletes every position of the
  URL's old chunks, from the index in one call and from `docs` in
  descending order. It then appends the new chunks and marks the URL as
  processed.

Supporting modules:

- `flat_index.dfy` models positional removal (`Keep`), which is what both
  FAISS `remove_ids` on a flat index and `del docs[i]` do. `Zip` states
  that vector i stays next to document i.
- `text.dfy` models the Python string operations the code relies on:
  `isspace`, `strip`, newline replacement and `str(int)`.

The external models and services are parameters of the operations that
use them:

- `embed` is the sentence embedder;
- `split` is the RecursiveCharacterTextSplitter's answer for a long text;
- `uuid(i)` is the uuid4 drawn for chunk i;
- `positions` is the label row of the FAISS search for the query;
- `rerank(query, text)` is the CrossEncoder;
- `llm` is the Ollama call.

## Model

| member | source | states |
|---|---|---|
| Text.CleanText | src/qa.py:98 | The cleaned passage holds no line break and neither starts nor ends with whitespace. |
| Text.CleanTextTrims | src/qa.py:98 | The cleaned passage is a slice of the text with line breaks replaced by spaces, and everything cut off at either end is whitespace. |
| Text.Strip | src/ingest.py:67 | Reference definition of `str.strip()`: it never lengthens the text and leaves no whitespace at either end. `StripTrims` pins what it cuts, and `StripEmptyIffBlank` pins the blank test on it. |
| Text.StripTrims | src/ingest.py:67 | `str.strip()` returns a slice of its input, and everything cut off at either end is whitespace; `CleanTextTrims` is its corollary for the newline-replaced text. |
| Text.StripEmptyIffBlank | src/ingest.py:67 | `text.strip()` is empty exactly when every character is whitespace, so `not text.strip()` is the blank test. |
| Text.NatToString | src/ingest.py:87 | `str(n)` is a non-empty string of decimal digits without a leading zero. |
| Text.ParseNatToString | src/ingest.py:87 | Reading back the decimal text of n gives n. |
| Text.NatToStringInjective | src/ingest.py:85-87 | Different chunk numbers print differently. |
| FlatIndex.Keep | src/server.py:79-81 | Positional removal keeps a subsequence of the original: the result is no longer than the input and holds only its elements. |
| FlatIndex.KeepNone | src/server.py:77 | Removing no position leaves the index and `docs` as they were. |
| FlatIndex.KeepMatchingIsWithout | src/server.py:72-81 | Deleting the positions whose entry matches is the same as filtering out the matching entries: every other entry stays, in order. |
| FlatIndex.KeepOneMore | src/server.py:80-81 | When every position deleted so far lies above p, entry p is still at position p, and `del docs[p]` deletes exactly that position. |
| FlatIndex.KeepZip | src/server.py:79-81 | Removing the same positions from the index and from `docs` keeps them of equal length and keeps each vector next to its document. |
| FlatIndex.ZipAppend | src/ingest.py:241-242 | Appending vectors and metadata of equal count appends the new pairs after the old ones. |
| Ranking.RankOrder | src/qa.py:67 | The sorted order lists every candidate position exactly once. Scores never increase, and equal scores keep search order, as Python's stable `sorted(..., reverse=True)` does. |
| Ranking.SortDescOrdered | src/qa.py:67 | Insertion sort of distinct positions puts every earlier position before every later one (higher score, or same score and earlier position). |
| Ranking.OrderedUnique | src/qa.py:67 | Two orderings of the same positions that are both ordered this way are equal. |
| Ranking.RankOrderIsTheStableOrder | src/qa.py:67 | Any permutation of the candidate positions ordered by (score descending, position ascending) is RankOrder, so the model's sort is the one Python performs. |
| Ingest.RepType | src/ingest.py:99 | `rep_type` is "wiki_content" exactly when the source type is "wiki", and "file_content" exactly when it is not. |
| Ingest.Label | src/ingest.py:85-87 | Reference definition of `display_source`: the source name alone for a single chunk, otherwise the name followed by a suffix. `LabelsDistinct` pins the suffixes as pairwise distinct. |
| Ingest.LabelsDistinct | src/ingest.py:85-87 | The chunks of a split source carry pairwise different labels "name (Đoạn k)". |
| Ingest.Chunks | src/ingest.py:73-76 | Reference definition of the chunking: a text of at most 1200 characters is the single chunk, and a longer one is the splitter's output. `ProcessContent`'s contract is stated through it. |
| Ingest.Skips | src/ingest.py:60-65 | Reference definition of the skip rule: only an unforced source already in `processed_sources` is skipped, and only when its type is "file" or "wiki". `ProcessContent` and `SavedSourcesAreSkipped` are stated through it. |
| Ingest.ChunkMetas | src/ingest.py:82-105 | There is one metadata entry per chunk, in chunk order. Entry i has uuid i, the label for chunk i, the rep_type, the chunk's text and the source identifier. |
| Ingest.PathsOfAppend | src/ingest.py:247-248 | The sources of `docs + metas` are the sources of `docs` together with those of `metas`. |
| Ingest.SavedSourcesAreSkipped | src/ingest.py:60-65 | Once a batch is saved, an unforced `process_content` of a file or wiki page with the same identifier is skipped. |
| Ingest.Ingestor.constructor | src/ingest.py:49 | At start-up `processed_sources` is exactly the set of `full_path` values in the loaded `docs`. |
| Ingest.Ingestor.ProcessContent | src/ingest.py:55-107 | An unforced file or wiki source already processed gives two empty lists, and so does blank text, forced or not. Otherwise there is one vector (the chunk's embedding) and one metadata entry per chunk, in order. Every `full_path` is the identifier and every `rep_type` follows the source type. A text of at most 1200 characters is exactly one chunk, labelled with the source name. |
| Ingest.Ingestor.EmbedChunks | src/ingest.py:82-105 | The chunk loop yields one vector per chunk, the embedding of that chunk, and exactly the metadata list ChunkMetas describes, in chunk order. |
| Ingest.Ingestor.SaveBatch | src/ingest.py:238-248 | No vectors: nothing changes. Otherwise the vectors and metas go to the end of the index and `docs`, in order, and `processed_sources` gains exactly their paths. The set only grows, every source in `docs` stays processed, and equal lengths and the vector/doc pairing are kept. |
| Db.MaxId | src/db.py:38 | `MAX(id)` of a non-empty table is a stored id at least as large as every stored id. |
| Db.NextId | src/db.py:34-41 | The next id is 0 for an empty table. Otherwise it is the largest id plus one, which is above every stored id. |
| Db.MetadataStore.GetDocCount | src/db.py:34-41 | `get_doc_count` is 0 on an empty table, otherwise max id + 1: it is above every stored id and equals NextId. The scan over the keys is proved against that. |
| Db.AllocatedBatchIsFresh | src/db.py:21 | Ids handed out consecutively from `get_doc_count` never clash with the primary key. |
| Db.DeletingMaxIdFreesIt | src/db.py:34-41 | For every non-empty table: when a path's rows hold the largest id, deleting that path makes `get_doc_count` return that id or less, so the id is handed out again. |
| Db.DeletedIdIsReallocated | src/db.py:34-41 | A witness for the above: in a two-row table, deleting the path of id 1 makes `get_doc_count` return 1 again. |
| Db.MetadataStore.GetAllFullPaths | src/db.py:43-50 | A path is returned exactly when some stored row has it. |
| Db.MetadataStore.AddDocumentsBatch | src/db.py:52-81 | An empty batch commits nothing. A batch commits exactly when none of its ids is stored or repeated, and then inserts every row under its own id. Otherwise it is an IntegrityError and the table is unchanged. |
| Db.InsertPaths | src/db.py:75-78 | A committed batch adds exactly its own paths to the stored paths. |
| Db.MetadataStore.GetDocumentsByIds | src/db.py:83-120 | The result is the stored row of each requested id that exists, in the caller's order, with no more entries than requested. |
| Db.Hydrate | src/db.py:114-120 | Reference definition of what `get_documents_by_ids` returns: every row is a stored id with its stored record. `HydrateIsPresent`, `PresentCount` and `HydrateAppend` pin order and multiplicity, and `GetDocumentsByIds` is proved equal to it. |
| Db.HydrateIsPresent | src/db.py:115-120 | Entry j of the fetch is the j-th requested id that is stored, with its stored record. |
| Db.PresentCount | src/db.py:115-120 | A stored id requested k times appears k times; an id not stored never appears. |
| Db.HydrateAppend | src/db.py:115-120 | Fetching a concatenation of requests is fetching each part in turn. |
| Db.HydrateAllStored | src/db.py:115-120 | When every requested id is stored, the fetch returns one row per requested id, in request order, each with its stored record. |
| Db.FetchAfterInsert | src/db.py:75-78 | After a committed batch, fetching the batch's ids gives back the batch. |
| Db.MetadataStore.DeleteDocumentsByPath | src/db.py:122-141 | The returned ids are exactly the ids with that path, each once. Those rows are gone and every other row is unchanged. A path with no rows returns [] and changes nothing. |
| Db.DeletePaths | src/db.py:137 | After the delete, that path is no longer stored and every other path still is. |
| Qa.Candidates | src/qa.py:51-55 | Reference definition of the candidate loop: the docs at the labels that are not -1 and lie below `len(docs)`, in search order, never more than the labels. `CandidatesMembers` pins membership, and the loop in `QaStore.Retrieve` is proved equal to it. |
| Qa.CandidatesMembers | src/qa.py:53-55 | A doc is a candidate exactly when some search label that is not -1 and lies below `len(docs)` names it. |
| Qa.Scores | src/qa.py:61-62 | Candidate i's score is the reranker's score of the pair (query, its text). |
| Qa.Ranked | src/qa.py:67 | The sorted list has one entry per candidate with scores never increasing. Each entry is a candidate with its own score. It arranges the candidates by a permutation of their positions in which higher scores come first and equal scores keep search order. |
| Qa.RankedCovers | src/qa.py:67 | Sorting loses no candidate. |
| Qa.Passing | src/qa.py:70-71 | Every kept entry is an entry of the input scoring at or above the threshold. |
| Qa.PassingKeeps | src/qa.py:70-71 | No entry scoring at or above the threshold is dropped. |
| Qa.PassingAppend | src/qa.py:69-71 | The threshold filter keeps the order of the entries it keeps. |
| Qa.PassingSorted | src/qa.py:67-71 | Filtering a list sorted by descending score leaves it sorted. |
| Qa.Take | src/qa.py:73-74 | At most n entries are kept (none when n <= 0), and they are the first ones. |
| Qa.Hits | src/qa.py:76-82 | Result j has rank j + 1 and carries its doc's source, rep_type and text, and its score. |
| Qa.Selection | src/qa.py:57-84 | Reference definition of what `retrieve` returns: nothing without candidates, and never more results than candidates or than `rerank_top_n`. `SelectionProperties` and `SelectionStable` pin the rest, and `QaStore.Retrieve` is proved equal to it. |
| Qa.SelectionProperties | src/qa.py:40-84 | The results are ranked 1, 2, … in order. Every score is at or above the threshold. There are at most `rerank_top_n` results, their scores never increase, and each is a candidate with its own rerank score. The results come from distinct candidate positions, and equal scores keep search order. |
| Qa.SelectionStable | src/qa.py:67-84 | The threshold filter and the `rerank_top_n` cut keep the sort's order. Result j is the candidate at position ps[j] with its score, and ps is Ordered: positions are distinct, scores never increase, and ties are in search order. |
| Qa.PassingArranged | src/qa.py:69-71 | Filtering an arranged list by the threshold arranges an Ordered subsequence of its positions. |
| Qa.SkipStep | src/qa.py:70-71 | An entry below the threshold leaves the walk's result unchanged. |
| Qa.StopStep | src/qa.py:73-74 | Once `rerank_top_n` results are held, the rest of the sorted list changes nothing, so `break` is safe. |
| Qa.TakeStep | src/qa.py:76-82 | Below the cap, a passing entry is appended with rank len(results) + 1. |
| Qa.Walk | src/qa.py:69-82 | The walk with `continue`/`break` returns the first `rerank_top_n` passing entries of the sorted list, numbered. |
| Qa.QaStore.Retrieve | src/qa.py:40-84 | `retrieve` returns Selection: [] without candidates, otherwise the first `rerank_top_n` reranked candidates at or above the threshold, ranked from 1. |
| Qa.MakePrompt | src/qa.py:89-101 | There is no prompt exactly when nothing was retrieved. Otherwise passage i + 1 has result i's source and its text, cleaned by CleanText. |
| Qa.QaStore.Answer | src/qa.py:148-166 | With top 5 and threshold 0.0: if nothing passes, the reply is the fixed apology and no model is called. Otherwise it is the model's reply to the prompt. |
| Server.AskEndpoint | src/server.py:37-43 | An empty question, and only an empty question, is rejected with 400 "Câu hỏi rỗng". Any other question gets `answer`'s reply. |
| Server.NewMetas | src/server.py:84-90 | Every new chunk of the re-ingested page has the request URL as its `full_path`. |
| Server.RemovedLeavesNoChunk | src/server.py:72-81 | After the removal phase no doc has the request URL, and the other docs remain in order. |
| Server.CollectPositions | src/server.py:72-75 | `indices_to_remove` holds exactly the positions whose `full_path` is the URL, increasing, all within `docs`. |
| Server.RemoveOldChunks | src/server.py:77-81 | The same position set is removed from the index and from `docs`. Deleting in descending order removes exactly those positions. |
| Server.IngestEndpoint | src/server.py:48-110 | The new index and `docs` are the old ones without the URL's positions, followed by the new vectors and metas in chunk order. The reply is a warning exactly when the content gives no chunk, and then `processed_sources` is unchanged. Otherwise it reports the chunk count and the URL joins `processed_sources`. The ingestion module's own index and `docs` are untouched. |
| Server.IngestKeepsStoreConsistent | src/server.py:72-107 | One `/ingest` keeps the index and `docs` equal in length with each vector beside its own doc. No old chunk of the URL survives, all appended chunks have the URL, and every source in `docs` stays processed. |

## Left out

- Persistence is not modelled: `faiss.read_index`/`write_index`, `json.load`/`json.dump` of `docs`, SQLite connections and `init_db`'s schema creation. The loaded index and `docs` are constructor arguments, and the missing-index `FileNotFoundError` at module load is not modelled.
- The embedder, the FAISS nearest-neighbour search, the CrossEncoder and the Ollama call are oracles. Scores are mathematical reals, so float32 rounding and NaN scores are not modelled.
- The RecursiveCharacterTextSplitter's choice of boundaries (size 1000, overlap 200) is an oracle. Only the code's own rule, that a text of at most 1200 characters is one chunk, is modelled.
- uuid4 is the oracle `uuid(i)`; uniqueness of the drawn uuids is not modelled.
- `top_k` is part of the search oracle: `positions` is whatever label row the search returned.
- Qa.Candidates: requires every search label to be at least -1, which is the FAISS label contract. A label below -1 would make Python index `docs` from the end.
- Db.MetadataStore.AddDocumentsBatch: ids are `nat`, following the comment at src/db.py:65 that a row's id is a FAISS id (0, 1, 2, …). The `INTEGER PRIMARY KEY` column (src/db.py:21) would accept a negative id, and the model cannot express one. SQLite integers are 64-bit and the model's ids are unbounded. A batch holding an id of 2^63 or more, such as `get_doc_count`'s MAX(id) + 1 when MAX(id) is 2^63 − 1, makes the binding raise `OverflowError` with nothing committed. The model commits such a batch.
- Db.MetadataStore.GetDocumentsByIds: binds one SQL parameter per requested id (src/db.py:92-98). A request longer than SQLite's host-parameter limit raises `sqlite3.OperationalError` ("too many SQL variables"). The model returns the fetched rows for a request of any length. SQLite integers are 64-bit: a requested id of 2^63 or more makes the binding raise `OverflowError` and nothing is returned, while the model leaves that id out and returns the rows of the other ids.
- Db.MetadataStore.DeleteDocumentsByPath: returns the deleted ids in an unspecified order, since `SELECT` without `ORDER BY` promises none.
- Qa.QaStore.Answer: the catch-all `except` reply "Lỗi hệ thống: …" and the debug printing are not modelled.
- Server.AskEndpoint: the catch-all reply "Xin lỗi, hệ thống đang gặp sự cố." is not modelled.
- Server.IngestEndpoint: these parts are not modelled:
  - reading and validating the JSON body (the 422 reply);
  - the `{"status": "error"}` reply for an exception, and the state an exception leaves in memory. If `process_content` raises, the URL's old chunks are already gone from `qa.index` and `qa.docs` and nothing new is added. If the disk write raises (src/server.py:102-104), the new chunks are in memory but the URL never joins `processed_sources`;
  - writing the index and `docs` to disk.
- `call_ollama` and the instruction wording of `make_prompt` are not modelled. A prompt is its role, question and numbered passages.
- `fetch_all_wiki_pages`, `ingest_wiki` and `ingest_local_files` are not modelled: they are HTTP pagination, directory walking and file extraction.
- src/utils.py and src/testapi.py are not part of this model. They are model wrappers and a network smoke test.
- Concurrency is not modelled: the endpoints run one at a time. The unlocked async mutation of the shared index, `docs` and `processed_sources` is not captured.

## Behaviour of the code worth knowing

- **Id reuse.** `get_doc_count` returns MAX(id) + 1, so deleting the rows with the largest id makes that id available again; `Db.DeletingMaxIdFreesIt` proves it for every table and `Db.DeletedIdIsReallocated` exhibits it.
- **Repeated ids in a fetch.** `get_documents_by_ids` returns a row once per occurrence of its id in the request (`Db.PresentCount`).
- **Ingestion and the database.** `process_content` and `_save_batch` never touch the database and identify chunks by uuid4, so the metadata store is modelled on its own.
- **The skip rule.** Without `force_update`, `process_content` skips an already processed source only when its type is "file" or "wiki" (`Ingest.Skips`); a source of any other type is processed again.
- **Retrieval.** `retrieve` reads the in-memory `docs` list by search position; it does not read the database.
