# paperless-ngx search index core, in Dafny

This project models the part of paperless-ngx's full-text search index
(`src/documents/index.py`, over a tantivy index) that does not depend on the
engine itself:

- **Sort order of a search page** (`sort_order.dfy`, module `SortOrder`).
  `DelayedQuery._get_query_sortedby` turns the `ordering` query parameter into
  an index field and a direction. It strips at most one leading `-` and looks
  the key up in a nine-entry allow-list. `__getitem__` then passes the result
  to the engine's `search` call.
- **The record a document is indexed as** (`projection.dfy`, module
  `Projection`, with `text.dfy`, module `Text`). `update_document` builds
  this record:
  - It joins the tag names and ids, the notes, the custom-field texts and
    ids, and the viewer ids with commas.
  - It indexes an out-of-range archive serial number (ASN) as 0.
  - It summarises the four optional relations (correspondent, document type,
    storage path, owner) by name, id and a `has_*` flag.
  - It drops every `None` value.

  Record keys are an enumeration (`Projection.Field`), and `FieldName` gives
  each one its schema name. `KeywordArguments` is the string-keyed map handed
  to `tantivy.Document(**...)`. `Text` holds the comma join and decimal
  rendering, together with a parser that is their inverse. That parser is
  not in the source. It exists so the model can state that the joined id
  fields lose nothing.
- **Autocomplete ranking** (`autocomplete.dfy`, module `Autocomplete`, with
  `utf8.dfy`, module `Utf8`).
  - A `Counter` tallies the matched terms of every hit.
  - `most_common(limit)` ranks them by count. Ties keep first-seen order.
  - The UTF-8 encoding of the search term is moved to the front when it
    appears.

  The method `Suggestions` keeps the source's loops. It is proved equal to
  the specification function `Suggest`, and the lemmas are about `Suggest`.
  `Utf8` is a strict encoder/decoder pair, proved to be inverse.
- **The writer protocol** (`write_scope.dfy`, module `WriteScope`).
  - `open_index_writer` runs a body. It commits if the body returns and rolls
    back if the body raises an `Exception` (which is logged and swallowed).
    A `BaseException` that is not an `Exception` gets neither a commit nor a
    rollback and propagates. In every case the scope then waits for the
    merging threads.
  - `Writer` is a class whose `calls` field records what was done to it.
  - `update_document` and `remove_document` commit inside the scope.
  - `Index`/`Replay` gives the calls a transactional meaning: additions and
    deletions are pending until a commit and dropped by a rollback. On top of
    that, the model proves what re-indexing and removal do to the stored
    documents.

Re-indexing is **not** an upsert. Any description of the index that calls
`add_or_update_document` an update follows the name, not the code:
`update_document` only adds, and never deletes the earlier record with the
same `doc_id`. `WriteScope.AddOrUpdateAppends` proves that re-indexing a
document adds one more copy of it.

## Model

| member | source | states |
|---|---|---|
| SortOrder.QuerySortedBy | src/documents/index.py:225-252 | no `ordering` gives (None, False); a field is chosen exactly when the key, after one `-` is stripped, is allow-listed, and it is that entry's field; reverse exactly when a field is chosen and the value starts with `-` |
| SortOrder.OrderingKey | src/documents/index.py:243-247 | the value is the key with exactly one `-` prefixed when it starts with `-`, else the key itself |
| SortOrder.AllowListHasNoDash | src/documents/index.py:231-241 | no allow-listed key starts with `-` |
| SortOrder.AllowedOrderingRoundTrip | src/documents/index.py:226-252 | every allow-listed key, written ascending or with one `-`, resolves to its field and that direction |
| SortOrder.UnknownOrderingIgnored | src/documents/index.py:249-250 | a key outside the allow-list gives (None, False) even when prefixed with `-` |
| SortOrder.DoubleDashIgnored | src/documents/index.py:243-250 | a value with two leading dashes never sorts, since only one is stripped |
| SortOrder.PageSearchArgs | src/documents/index.py:272-285 | the search call gets offset = slice start, limit = page size, the chosen field, and Desc exactly when reverse (which needs a field) |
| Projection.IndexedAsn | src/documents/index.py:121-133 | no ASN stays absent, an ASN within [min, max] passes through, one outside becomes 0 |
| Projection.AsnField | src/documents/index.py:121-154 | `asn` is in the record exactly when the document has one, with its value, or 0 when out of range |
| Projection.AsnBoundaries | src/documents/index.py:121-125 | the bounds themselves are kept; one below the minimum or above the maximum becomes 0 |
| Projection.RelationSummary | src/documents/index.py:143-167 | for each relation, `has_R` is present and true iff it is set; its name and id fields are present iff it is set, with its name and id |
| Projection.RelationSummaries | src/documents/index.py:143-167 | the summary property for correspondent, type, path and owner together |
| Projection.ScalarsPresent | src/documents/index.py:139-172 | doc_id, title, content, the three timestamps and checksum (the non-null columns) are always present with the document's values |
| Projection.OriginalFilenameField | src/documents/index.py:170-173 | original_filename is present exactly when the nullable column is set, with its value |
| Projection.CollectionsAlwaysPresent | src/documents/index.py:159-162 | notes, num_notes, custom_fields and custom_field_count are present even when empty; custom_field_count is the number of instances |
| Projection.JoinedTextFields | src/documents/index.py:146-163 | `tag` is omitted exactly when the joined names are empty and otherwise is that text; has_tag and has_custom_fields test the joined text for emptiness |
| Projection.TagPresence | src/documents/index.py:146-148 | `tag` is omitted and has_tag false exactly for no tags or a single tag with an empty name |
| Projection.JoinedIdFields | src/documents/index.py:134-171 | tag_id, custom_fields_id and viewer_id are omitted exactly when there are no ids; is_shared is true exactly when there are viewers |
| Projection.JoinedIdsRecoverable | src/documents/index.py:113-138 | each joined id field present in the record parses back to the ids it was built from |
| Projection.NumNotesIsJoinedLength | src/documents/index.py:159-160 | num_notes is the character length of the comma-joined notes (sum of lengths plus separators), not the note count |
| Projection.FieldName | src/documents/index.py:27-66 | every record key has a schema name, and that name resolves back to the key |
| Projection.SummaryName | src/documents/index.py:33-56 | each relation summary field (`R`, `R_id`, `has_R`) has a name that resolves back to it |
| Projection.ScalarName | src/documents/index.py:29-59 | each non-null column field has a name that resolves back to it |
| Projection.JoinedName | src/documents/index.py:36-58 | each comma-joined or counted collection field has a name that resolves back to it |
| Projection.FieldNameInjective | src/documents/index.py:139-172 | distinct record keys have distinct names |
| Projection.AllFieldsListed | src/documents/index.py:139-172 | the field list holds every key of the record |
| Projection.Fields | src/documents/index.py:139-172 | the `tdoc` dict has an entry for every record key, holding that field's value or None |
| Projection.DropNone | src/documents/index.py:173 | a key is kept exactly when its value is not None, with that value |
| Projection.ProjectDocument | src/documents/index.py:139-175 | a key is in the record exactly when its projected value is not None, and holds that value |
| Projection.KeywordArguments | src/documents/index.py:175 | the keyword arguments hold one entry per record key, under the key's name, with the same value, and no other entry |
| Text.Join | src/documents/index.py:159-160 | `",".join`: for at least one part, the text is as long as the parts plus one comma between each two |
| Text.JoinIsEmpty | src/documents/index.py:146-148 | the joined text is empty exactly for no parts or one empty part |
| Text.IntToDecimal | src/documents/index.py:114 | `str(id)` is never empty and holds no comma |
| Text.SplitJoin | src/documents/index.py:113-120 | splitting a join of comma-free parts at commas gives the parts back |
| Text.DecimalRoundTrip | src/documents/index.py:114-120 | `str(id)` is a decimal numeral that reads back as the id |
| Text.JoinedIdsRoundTrip | src/documents/index.py:114-138 | the comma-joined decimal ids of a non-empty list parse back to the list |
| Text.JoinedIdsEmpty | src/documents/index.py:134-138 | the joined ids are empty exactly when there are no ids |
| Text.JoinIds | src/documents/index.py:114-138 | the joined ids are empty iff there are none, and otherwise parse back to the ids |
| Utf8.EncodeString | src/documents/index.py:400 | `term.encode("UTF-8")` is at least as long as the term and empty exactly for the empty term |
| Utf8.CodePointRoundTrip | src/documents/index.py:400 | one encoded code point announces its length in its lead byte, continues with continuation bytes and decodes back |
| Utf8.EncodeDecode | src/documents/index.py:400 | decoding the encoding of a string gives the string |
| Utf8.DecodeEncode | src/documents/index.py:400 | re-encoding a decoded valid byte string gives the same bytes |
| Utf8.EncodeInjective | src/documents/index.py:400-401 | distinct terms have distinct encodings, so the membership test compares terms |
| Autocomplete.TallyTerms | src/documents/index.py:393-397 | the counter's keys are the matched terms in first-encountered order |
| Autocomplete.TallyCounts | src/documents/index.py:393-397 | each term's count is how often it was matched |
| Autocomplete.Tally | src/documents/index.py:393-397 | the counter of the matched terms has every count at least 1 |
| Autocomplete.TallyAppend | src/documents/index.py:397 | counting one more match increments that term's count or appends it with count 1 |
| Autocomplete.Bump | src/documents/index.py:397 | `termCounts[match] += 1` keeps the keys when the term is counted already, else appends it as the last key |
| Autocomplete.SortByCountSorted | src/documents/index.py:398 | ranking orders the entries by non-increasing count and is a permutation |
| Autocomplete.SortByCountStable | src/documents/index.py:398 | entries with equal counts keep their counter order |
| Autocomplete.SortByCountTerms | src/documents/index.py:398 | ranking keeps the same distinct terms |
| Autocomplete.Insert | src/documents/index.py:398 | placing one entry into a ranking adds exactly one entry |
| Autocomplete.SortByCount | src/documents/index.py:398 | ranking keeps the number of entries |
| Autocomplete.MostCommon | src/documents/index.py:398 | `most_common(n)` returns min(n, size) entries, none for n <= 0 |
| Autocomplete.MostCommonFromCounter | src/documents/index.py:398 | every returned entry comes from the counter, at most once |
| Autocomplete.MostCommonSorted | src/documents/index.py:398 | returned counts do not increase |
| Autocomplete.MostCommonTop | src/documents/index.py:398 | no entry left out has a greater count than any entry returned |
| Autocomplete.MostCommonTies | src/documents/index.py:398 | among equal counts, the returned entries are a prefix of the counter's, in first-encountered order |
| Autocomplete.MostCommonDistinct | src/documents/index.py:398 | the returned terms are distinct counter keys |
| Autocomplete.IndexOf | src/documents/index.py:402 | `terms.index(t)` is the position of the first occurrence of a present term |
| Autocomplete.MoveToFront | src/documents/index.py:401-402 | moving the term keeps the list length and puts a present term at index 0 |
| Autocomplete.PopInsert | src/documents/index.py:402 | `terms.insert(0, terms.pop(terms.index(t)))` gives the list with the term moved to the front |
| Autocomplete.MoveToFrontPermutes | src/documents/index.py:401-402 | moving the term is a permutation with the term at index 0; an absent term leaves the list as it is |
| Autocomplete.MoveToFrontKeepsOrder | src/documents/index.py:401-402 | the other terms keep their relative order |
| Autocomplete.MoveToFrontDistinct | src/documents/index.py:401-402 | moving a term keeps a duplicate-free list duplicate-free |
| Autocomplete.Suggestions | src/documents/index.py:393-404 | the loops compute exactly `Suggest`: the ranked terms with the encoded search term moved first |
| Autocomplete.Suggest | src/documents/index.py:393-404 | no matched terms give no suggestions; otherwise as many suggestions as ranked terms |
| Autocomplete.SuggestShape | src/documents/index.py:393-404 | at most max(limit, 0) terms, no duplicates, all matched, the encoded search term first when present |
| Autocomplete.SuggestEmpty | src/documents/index.py:393-404 | no matched terms, no matches or a limit <= 0 give no suggestions |
| Autocomplete.SuggestFollowsRanking | src/documents/index.py:398-402 | apart from the search term, the suggestions are the `most_common(limit)` terms in rank order |
| Autocomplete.RankedCounts | src/documents/index.py:393-398 | the ranked counts do not increase and each equals the number of times its term was matched |
| Autocomplete.RankedTop | src/documents/index.py:393-398 | a matched term left out was matched no more often than any term kept |
| Autocomplete.LeftOutCountsLess | src/documents/index.py:398 | an entry `most_common(n)` leaves out has a count no greater than any returned entry |
| Autocomplete.RankedTies | src/documents/index.py:393-398 | among equally frequent terms the kept ones are the first encountered |
| WriteScope.Writer.AddDocument | src/documents/index.py:175 | the writer records one added record |
| WriteScope.Writer.DeleteDocuments | src/documents/index.py:186 | the writer records one delete by field and value |
| WriteScope.Writer.Commit | src/documents/index.py:97 | the writer records one commit |
| WriteScope.Writer.Rollback | src/documents/index.py:95 | the writer records one rollback |
| WriteScope.Writer.WaitMergingThreads | src/documents/index.py:99 | the writer records one wait |
| WriteScope.Writer.constructor | src/documents/index.py:89 | `open_index().writer()` gives a writer with no calls recorded |
| WriteScope.OpenIndexWriter | src/documents/index.py:87-99 | the fresh writer sees the body's calls up to the point it raises, then commit if it returns, rollback for an `Exception` and nothing for another `BaseException`, then one wait; only the latter propagates |
| WriteScope.ScopeLog | src/documents/index.py:87-99 | the calls of the scope: the body's calls that ran, the handler's call, and a final wait |
| WriteScope.ScopeWaitsOnce | src/documents/index.py:98-99 | the scope waits exactly once, as its last call |
| WriteScope.ScopeSuccess | src/documents/index.py:91-97 | after a body that returns: the body's calls, one more commit, no extra rollback |
| WriteScope.ScopeFailure | src/documents/index.py:91-95 | after a body that raises: the calls before it, one rollback, no commit by the scope |
| WriteScope.ScopeEscapes | src/documents/index.py:93-99 | after a `BaseException` that is not an `Exception`: the calls before it, then only the wait, with no commit or rollback added |
| WriteScope.UpdateDocument | src/documents/index.py:112-177 | the writer gets the projected record, then a commit |
| WriteScope.UpdateCalls | src/documents/index.py:175-177 | `update_document` adds one record, storing the document's key under `doc_id`, then commits |
| WriteScope.RemoveDocumentById | src/documents/index.py:185-186 | the writer gets a delete on `doc_id` |
| WriteScope.RemoveDocument | src/documents/index.py:180-182 | the writer gets a delete on `doc_id`, then a commit |
| WriteScope.RemoveCalls | src/documents/index.py:180-182 | `remove_document` deletes on `doc_id` with the document's key, then commits |
| WriteScope.AddOrUpdateDocument | src/documents/index.py:193-195 | the scope's log around the update's calls; the exception propagates exactly for a `BaseException` that is not an `Exception` |
| WriteScope.RemoveDocumentFromIndex | src/documents/index.py:188-190 | the scope's log around the removal's calls; the exception propagates exactly for a `BaseException` that is not an `Exception` |
| WriteScope.UpdateScopeCommitsTwice | src/documents/index.py:193-195 | successful re-indexing adds, commits in `update_document`, commits again on leaving the scope, waits |
| WriteScope.DeleteMatching | src/documents/index.py:186 | a document is kept exactly when it does not store the value under the field; a kept document keeps all its copies, and nothing is added |
| WriteScope.AddOrUpdateAppends | src/documents/index.py:193-195 | successful re-indexing appends the record and deletes nothing, so the document has one more copy |
| WriteScope.RemoveDeletes | src/documents/index.py:180-190 | successful removal keeps exactly the documents not stored under that `doc_id` |
| WriteScope.FailureBeforeCommit | src/documents/index.py:91-99 | any body that raises before it commits leaves the stored documents unchanged; after an `Exception` the rollback also clears the pending calls |
| WriteScope.ReplayConcat | src/documents/index.py:91-99 | replaying two call lists one after the other is replaying their concatenation |
| WriteScope.ReplayNoCommit | src/documents/index.py:91-99 | calls without a commit never change the stored documents |
| WriteScope.FailedUpdateChangesNothing | src/documents/index.py:91-99 | re-indexing whose `update_document` raises before its commit leaves the stored documents unchanged, and after an `Exception` the whole index |
| WriteScope.FailedRemoveChangesNothing | src/documents/index.py:91-99 | removal whose `remove_document` raises before its commit leaves the stored documents unchanged, and after an `Exception` the whole index |
| WriteScope.CopiesOfAppend | src/documents/index.py:175 | appending a record adds one copy of a `doc_id` exactly when the record stores it |

## Left out

- The tantivy engine: `get_schema`, `open_index`, `optimize`, `open_index_searcher`, query parsing and `search`. They are calls into code that is not part of this model. The schema appears only as the field names `Projection.FieldName` gives. Field types (text, integer, unsigned, boolean, date) and indexing options are not modelled.
- The ORM and permissions lookups (`doc.tags.all()`, the `Note` and `CustomFieldInstance` queries, `get_users_with_perms`) become the `Projection.Collections` parameter. The source runs several queries where the model has one list: `doc.tags.all()` twice (names at line 113, ids at line 114), `CustomFieldInstance.objects.filter(document=doc)` twice (texts at lines 116-118, ids at lines 119-121) and the count for `custom_field_count` comes from a third lookup, `doc.custom_fields.all()` (line 162). Each repeated query is assumed to return the same rows in the same order, so the tag names and ids, and the custom-field texts, ids and count, come from one list each.
- `str(c)` of a custom-field instance and `str(c.note)` are opaque strings. Timestamps (`created`, `added`, `modified` and `.timestamp()`) are opaque reals, so time zones and floating point are not modelled.
- `Document.ARCHIVE_SERIAL_NUMBER_MIN`/`_MAX` are parameters. Their values live in the document model, which is not part of this model.
- `Projection.JoinedIdsRecoverable`, `Text.SplitJoin`: the comma split only reads back ids. The joined tag names, notes and custom-field texts may contain commas, so they cannot be split back, and no such claim is made.
- The filesystem side of `open_index` (creating, clearing and recreating the index directory) is out of scope.
- Logging (`logger.exception`, `logger.error`) and `print(results)` are output only, with no effect on the modelled values.
- `DelayedQuery.__init__`, its `saved_results` page cache, `first_score`, `__len__` and `_get_query` are left out. `_get_query` belongs to the query subclasses. The cache is read at lines 273-274, but the line that would fill it (line 302) is commented out, so `saved_results` stays the empty dict of line 264 and every `__getitem__` call reaches the search. `SortOrder.PageSearchArgs` models that search call, which is therefore made on every call.
- `get_permissions_criterias` and the commented-out permission filter in `autocomplete` have no effect in the source, so they are not modelled.
- Autocomplete's engine inputs, the hits' matched terms and `has_matched_terms()`, are parameters of `Autocomplete.Suggest`.
- `Utf8.EncodeString`: Python's `str.encode("UTF-8")` raises on a lone surrogate. A Dafny `char` cannot hold one, so that error path does not arise in the model.
- WriteScope: the body of a `with open_index_writer()` block is modelled as the list of writer calls it makes and a `WriteScope.Outcome`: it returns, it raises an `Exception` after some of its calls, or it raises a `BaseException` that is not an `Exception` after some of its calls. Exceptions raised by `commit`, `rollback` or `wait_merging_threads` themselves are not modelled.
- `WriteScope.Replay` is an abstract transactional model of the index. The engine's merging, segment layout and the effect of the second, empty commit beyond flushing nothing are not modelled.
- WriteScope.DeleteMatching: the contract states which records stay and that each keeps its number of copies, not that the kept records keep their relative order; no property of the model depends on that order.
