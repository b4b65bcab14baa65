# doc-manager: document/attachment pairing over a flat blob store

This project models the core of the doc-manager web service (`src/main.rs`):
the handlers that store text documents, each with an optional attached file,
in a flat key → bytes blob container and rebuild "a document with its file"
from key names alone.

- A document's content is stored under its id; a file uploaded with it under
  `id + "_" + name`, where an upload without a name is called `file`
  (`Keys.CompanionKey`).
- Listing drops every key that contains `_`, fetches each remaining key,
  requires its bytes to be UTF-8 and pairs it with the first listed key that
  starts with `id + "_"` (`Documents.BlobContainer.ListDocuments`, proved equal
  to `Documents.ListDocumentsOf`).
- Reading one document does the same for one id; create and update write the
  content and then, if present, the file; delete removes the id's key only;
  download returns the bytes with a filename `id.txt` or `id.bin` chosen by
  UTF-8 validity (section 4 of RFC 3629, module `Utf8`).

The blob container is the class `Documents.BlobContainer`, whose field
`blobs: map<string, seq<byte>>` the handler methods update. Every remote call
(listing, get, put, delete) and every local temp-file step may fail; whether it
does is an explicit input of the handler (`getFails`, `putFails`, `fileStep`,
`uploadFails`, `deleteFails`), so each handler's contract states the exact
outcome for every combination. The first page of the container's listing is an
input too (`ListPage`: the call failed, the stream was empty, or these keys in
service order). The handlers that only read are proved equal to specification
functions (`ListDocumentsOf`, `GetDocumentOf`, `DownloadOf`); the module
`DocumentProperties` proves what those functions promise and what a read
observes after a create, update or delete.

A document has no `isBinary` flag, and binary data is never turned into empty
content. A primary blob that is not UTF-8 makes reading and listing fail with
"Failed to parse content" (HTTP 500). The classification into text and binary
exists only in download. Reading one document answers 404 only when its fetch
fails or the listing stream is empty; a parse error or a failed listing call
answers 500 (`DocumentProperties.FailureStatuses`). Since create and update
take the content as a string, a primary blob the service itself wrote is always
text (`DocumentProperties.WrittenDocumentDownloadsAsText`).

## Model

| member | source | states |
|---|---|---|
| `Utf8.IsValid` | src/main.rs:388 | the UTF-8 check behind `is_binary`: a valid non-empty sequence starts with an ASCII byte or a lead byte C2–F4 and ends with a byte below C0, never a lead byte |
| `Utf8.Encode` | src/main.rs:205 | the bytes stored for a string of n characters (`as_bytes`) number between n and 4n |
| `Utf8.Decode` | src/main.rs:108-117 | the characters `String::from_utf8` yields from accepted bytes are never more than the bytes |
| `Utf8.DecodeEncode` | src/main.rs:205 | the bytes of a submitted string (`as_bytes`) decode back to that string, so storing content as bytes loses nothing |
| `Utf8.EncodeIsInjective` | src/main.rs:205 | two strings stored as the same bytes are the same string |
| `Utf8.EncodeDecode` | src/main.rs:108-117 | bytes accepted by `String::from_utf8` are exactly the encoding of the string they decode to |
| `Utf8.ValidIffDecodes` | src/main.rs:388 | the RFC 3629 grammar check used for `is_binary` accepts exactly the bytes that `from_utf8` decodes |
| `Utf8.EncodedIsValid` | src/main.rs:267 | the encoding of any string is valid UTF-8, so text content is never classified binary |
| `Utf8.EncodeCharDecodes` | src/main.rs:205 | one character's octets form a well-formed UTF-8 character, whatever follows, and decode back to it |
| `Utf8.DecodeFirstEncodes` | src/main.rs:108-117 | a well-formed UTF-8 character is the encoding of the scalar value decoded from it |
| `Keys.CompanionKey` | src/main.rs:220 | the file key starts with `id + "_"`, has the separator right after the id, and ends with the upload's name or `file` |
| `Keys.IsCompanionKey` | src/main.rs:85 | the filter's test: a key without `_` starts with `id + "_"` for no id, so a key kept as a document is no document's file |
| `Keys.PrimaryKeys` | src/main.rs:82-86 | filtering the listing never yields more keys than were listed |
| `Keys.PrimaryKeysAreUnseparated` | src/main.rs:85 | a key is kept by the filter exactly when it is listed and contains no `_` |
| `Keys.PrimaryKeysAppend` | src/main.rs:82-86 | the filter keeps listing order: it distributes over concatenation |
| `Keys.FirstCompanion` | src/main.rs:100-107 | whatever the file search returns is a listed key that starts with `id + "_"` |
| `Keys.FirstCompanionIsFirstMatch` | src/main.rs:100-107 | the file search finds nothing exactly when no listed key starts with `id + "_"`, and otherwise the key at the first listed position that does |
| `Keys.FirstCompanionFindsOnly` | src/main.rs:173-180 | when one key alone has the prefix `id + "_"`, the search returns it |
| `Keys.CompanionOwnerIsUnique` | src/main.rs:103 | for ids without `_`, a key starts with `id + "_"` for at most one id, so no document is credited with another's file |
| `Keys.CompanionKeyIsInjective` | src/main.rs:220 | for ids without `_`, equal file keys come from the same id and the same filename |
| `Documents.FindCompanion` | src/main.rs:100-107 | the loop that breaks on the first listed key with prefix `id + "_"` returns the first such key, or none |
| `Documents.CollectDocuments` | src/main.rs:82-123 | building documents for the kept keys yields one document per key, or fails with "Failed to get blob content" or "Failed to parse content" and nothing else |
| `Documents.ListDocumentsOf` | src/main.rs:49-126 | a listing succeeds only on a first page and then has exactly one document per listed key without `_` |
| `Documents.GetDocumentOf` | src/main.rs:133-196 | a document is returned only for a key that exists and was fetched, under the requested id, with text that encodes to the stored bytes; once the fetch succeeds the error is never "Failed to get document" |
| `Documents.DownloadFilename` | src/main.rs:391 | the download's name is the key followed by `.bin` for binary content and `.txt` otherwise |
| `Documents.DownloadOf` | src/main.rs:373-394 | a download fails with a 404 exactly when the get fails; otherwise it returns the stored bytes unchanged, `is_binary` exactly when they do not decode as UTF-8, and filename `id.bin` or `id.txt` accordingly |
| `Documents.BlobContainer.ListDocuments` | src/main.rs:49-126 | the listing loop (filter, fetch, file search, decode, push, early error returns) yields exactly `ListDocumentsOf` |
| `Documents.BlobContainer.GetDocument` | src/main.rs:128-197 | reading one document yields exactly `GetDocumentOf`: fetch, decode, list, file search |
| `Documents.BlobContainer.CreateDocument` | src/main.rs:199-258 | for a fresh id without `_`: a failed primary put writes nothing; after it, a failed open, read or upload of the file leaves the primary written and returns its error; on success the store maps the id to the content's bytes and the file key to the file's bytes, the returned `file_id` is that key, and every other key is unchanged; every failure answers 500 |
| `Documents.BlobContainer.UpdateDocument` | src/main.rs:260-330 | overwrites the id's key without checking it exists; the file steps fail as in create, a failed temp-file removal comes after the upload and leaves the file written; on success the document carries the same id and the submitted text; no key is ever removed, so files under other names stay; every failure answers 500 |
| `Documents.BlobContainer.DeleteDocument` | src/main.rs:332-348 | removes the key `id` and no other; a failed delete, or one of a key that is not there, changes nothing and reports an error; a failure answers 500 |
| `Documents.BlobContainer.DownloadDocument` | src/main.rs:373-394 | the download handler yields exactly `DownloadOf` |
| `DocumentProperties.CollectSucceedsWhenAllReadable` | src/main.rs:82-123 | building documents for the kept keys succeeds exactly when every key can be fetched and holds UTF-8 |
| `DocumentProperties.CollectDocumentsFaithful` | src/main.rs:118-122 | a successful build holds, at each position, a document whose id is the key there, whose text encodes to the bytes stored under it and whose file is that key's first companion |
| `DocumentProperties.ListEmitsOnlyPrimaries` | src/main.rs:82-86 | a successful listing emits exactly the listed keys without `_`, in listing order, and no attachment key |
| `DocumentProperties.ListContentsMatchStore` | src/main.rs:118-122 | each listed document's text encodes to the bytes stored under its id and its `file_id` is the first listed key starting with `id + "_"` |
| `DocumentProperties.ListFailsAsAWhole` | src/main.rs:62-79 | a failed listing call gives "Failed to list blobs", an empty stream a 404 "No blobs found"; otherwise the listing succeeds exactly when every primary key can be fetched and is UTF-8, and fails with no partial list |
| `DocumentProperties.GetDocumentOutcomes` | src/main.rs:133-196 | a failed get gives a 404; bytes that are not UTF-8 give a parse error, not a document; otherwise, once the listing is available, a document with the requested id, the stored text and the first companion key |
| `DocumentProperties.FailureStatuses` | src/main.rs:62-394 | listing answers 404 exactly when the listing stream is empty; reading one document answers 404 exactly when its fetch fails or, its text being UTF-8, the listing stream is empty, so non-UTF-8 text and a failed listing call answer 500; every failed download answers 404 |
| `DocumentProperties.CreatedCompanionIsFound` | src/main.rs:173-180 | after a fresh id's create, with the whole store listed, the file search finds the created file key, or none when no file was sent |
| `DocumentProperties.CreateThenGet` | src/main.rs:199-258 | reading a just-created document returns the submitted text and the `file_id` the create returned |
| `DocumentProperties.CreateThenList` | src/main.rs:82-123 | a just-created document appears, with its text and file, in any successful listing of the whole store |
| `DocumentProperties.WrittenDocumentDownloadsAsText` | src/main.rs:388-391 | a document written by create or update downloads as its content's bytes, not binary, named `id.txt` |
| `DocumentProperties.CreateThenDownloadFile` | src/main.rs:242 | downloading an uploaded file by its key returns the uploaded bytes unchanged |
| `DocumentProperties.UpdateThenGet` | src/main.rs:325-329 | reading a document after an update returns the new text under the same id |
| `DocumentProperties.UpdateWithNewNameCanReadOldFile` | src/main.rs:281 | an update under a new filename leaves the old file in place, and when that file is listed first a later read reports it instead of the new one |
| `DocumentProperties.DeleteThenGet` | src/main.rs:337-346 | after a delete, reading the document gives a 404 |
| `DocumentProperties.DeleteOrphansFiles` | src/main.rs:337-346 | a delete leaves every `id + "_"` key in place and still downloadable |
| `DocumentProperties.BinaryAttachmentScenario` | src/main.rs:220 | "hi" created with bytes FF FE 00 in an upload the framework reports as `img`: the read names `id_img`, whose download returns the same three bytes, binary, as `id_img.bin` |

## Left out

- HTTP plumbing: Rocket routing, form parsing, JSON serialisation, the `index` route and the response header building of `DownloadResponse` (src/main.rs:356-371); only the filename and the `is_binary` flag are kept. Status codes are kept as `StatusOf`.
- Error messages carry only their fixed text (one `HandlerError` value per message); the underlying error text appended after the colon is not modelled.
- The Azure SDK, its async streams and pagination: the container is a map, the listing is its first page given as a key sequence, and every remote call's failure is an input. The listing is not tied to the map, so a stale listing (a listed key that is gone) is possible, as it is with the real service; the create-then-read lemmas assume a listing of the whole store (`ListsAll`).
- Azure's behaviour when deleting a key that does not exist is modelled as a failure (`DeleteFailed`); the service's code relies on the SDK for this.
- UUID generation: the id is an input of `CreateDocument`, with the preconditions that it contains no `_` and that no key is or starts with `id + "_"` yet (which a random UUID gives).
- The name of an upload is the name the web framework reports (`TempFile::name`, which strips path and extension); how the framework derives it is not part of this model.
- Local temp-file handling (open/read in create, `persist_to`/`fs::read`/`remove_file` in update): only whether each step succeeds is modelled; the bytes read back are the uploaded bytes.
- `rocket()` startup: environment variables, container creation and CORS; `eprintln!`/`println!` logging.
- The two React front ends: rendering and fetch calls only.
- Concurrency: concurrent requests on the same id interleave at the blob store; each handler is modelled as a sequence of steps on a store no one else touches.
