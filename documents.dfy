/**
 * The document handlers of the service over its blob container. The container
 * is a map from key to bytes; each remote call's success or failure is an
 * explicit input, and the first page of the container's listing is given as
 * the keys it returned, in the order the service returned them.
 */
module Documents {
  import opened Results
  import opened Utf8
  import opened Keys

  /** A document as the service returns it: its id, its text and the key of its attached file. */
  datatype Document = Document(id: string, content: string, fileId: Option<string>)

  /** What a download returns: the stored bytes, the suggested filename and the text/binary flag. */
  datatype DownloadResponse = DownloadResponse(content: seq<byte>, filename: string, isBinary: bool)

  /** The file part of a form: the name the web framework reports for it, if any, and its bytes. */
  datatype Upload = Upload(name: Option<string>, bytes: seq<byte>)

  /** The HTTP status an error is reported with. */
  datatype Status = NotFound | InternalServerError

  /** Why a handler failed; each one stands for the message the handler reports. */
  datatype HandlerError =
    | ListBlobsFailed      // "Failed to list blobs"
    | NoBlobsFound         // "No blobs found"
    | GetContentFailed     // "Failed to get blob content"
    | ParseContentFailed   // "Failed to parse content"
    | GetDocumentFailed    // "Failed to get document"
    | CreateFailed         // "Failed to create document"
    | OpenFileFailed       // "Failed to open file"
    | ReadFileFailed       // "Failed to read file"
    | UploadFileFailed     // "Failed to upload file"
    | UpdateFailed         // "Failed to update document"
    | PersistFileFailed    // "Failed to persist file"
    | RemoveFileFailed     // "Failed to remove file"
    | DeleteFailed         // "Failed to delete document"
    | DownloadFailed       // "Failed to download document"

  /** The status each error is reported with: 404 for an empty listing, a failed read and a failed download. */
  function StatusOf(f: HandlerError): (st: Status)
    ensures st == NotFound <==> f in {NoBlobsFound, GetDocumentFailed, DownloadFailed}
  {
    match f
    case NoBlobsFound | GetDocumentFailed | DownloadFailed => NotFound
    case _ => InternalServerError
  }

  /** The body of a successful delete. */
  const DeletedMessage: string := "Document deleted successfully"

  /** The first page of the container's listing: the call failed, the stream was empty, or these keys. */
  datatype ListPage = ListError | NoPage | FirstPage(keys: seq<string>)

  /** How the temporary file of a create went: opened and read, or which step failed. */
  datatype CreateFileStep = FileRead | OpenFails | ReadFails

  /**
   * How the temporary file of an update went: persisted, read back and removed,
   * or which local step failed (removal comes after the upload).
   */
  datatype UpdateFileStep = FileRoundTrip | PersistFails | ReadBackFails | RemoveFails

  /** The blob container's contents. */
  type Store = map<string, seq<byte>>

  /** An id no key uses yet, neither as a document nor as the owner of a file. */
  predicate IsFreshId(blobs: Store, id: string) {
    id !in blobs && forall k :: k in blobs ==> !(CompanionPrefix(id) <= k)
  }

  /** The store after a document and, if given, its file were both written. */
  function WithDocument(blobs: Store, id: string, content: string, file: Option<Upload>): Store {
    if file.Some? then blobs[id := Encode(content)][CompanionKey(id, file.value.name) := file.value.bytes]
    else blobs[id := Encode(content)]
  }

  /** Prefixes the documents already built to the outcome of building the rest. */
  function Prepend(docs: seq<Document>, r: Result<seq<Document>, HandlerError>): Result<seq<Document>, HandlerError> {
    match r
    case Success(rest) => Success(docs + rest)
    case Failure(e) => Failure(e)
  }

  lemma PrependNothing(r: Result<seq<Document>, HandlerError>)
    ensures Prepend([], r) == r
  {
    if r.Success? {
      assert [] + r.value == r.value;
    }
  }

  lemma PrependTwice(a: seq<Document>, b: seq<Document>, r: Result<seq<Document>, HandlerError>)
    ensures Prepend(a, Prepend(b, r)) == Prepend(a + b, r)
  {
    if r.Success? {
      assert a + (b + r.value) == (a + b) + r.value;
    }
  }

  /**
   * The documents for the primary keys `ids`, in order, each fetched, paired
   * with its first companion in `keys` and decoded; the first key whose fetch
   * fails or whose bytes are not UTF-8 fails the whole list.
   */
  function CollectDocuments(blobs: Store, keys: seq<string>, ids: seq<string>, getFails: set<string>): (r: Result<seq<Document>, HandlerError>)
    ensures r.Success? ==> |r.value| == |ids|
    ensures r.Failure? ==> r.error in {GetContentFailed, ParseContentFailed}
  {
    if ids == [] then Success([])
    else
      var id := ids[0];
      if id !in blobs || id in getFails then Failure(GetContentFailed)
      else match Decode(blobs[id])
        case None => Failure(ParseContentFailed)
        case Some(text) => Prepend([Document(id, text, FirstCompanion(keys, id))], CollectDocuments(blobs, keys, ids[1..], getFails))
  }

  /** What listing the documents yields for a given first page; fetching a key in `getFails` fails. */
  function ListDocumentsOf(blobs: Store, page: ListPage, getFails: set<string>): (r: Result<seq<Document>, HandlerError>)
    ensures r.Success? ==> page.FirstPage? && |r.value| == |PrimaryKeys(page.keys)|
  {
    match page
    case ListError => Failure(ListBlobsFailed)
    case NoPage => Failure(NoBlobsFound)
    case FirstPage(keys) => CollectDocuments(blobs, keys, PrimaryKeys(keys), getFails)
  }

  /** What reading document `id` yields. */
  function GetDocumentOf(blobs: Store, id: string, getFails: bool, page: ListPage): (r: Result<Document, HandlerError>)
    ensures r.Success? ==> id in blobs && !getFails && r.value.id == id && Encode(r.value.content) == blobs[id]
    ensures id in blobs && !getFails && r.Failure? ==> r.error != GetDocumentFailed
  {
    if id !in blobs || getFails then Failure(GetDocumentFailed)
    else match Decode(blobs[id])
      case None => Failure(ParseContentFailed)
      case Some(text) =>
        EncodeDecode(blobs[id]);
        match page
        case ListError => Failure(ListBlobsFailed)
        case NoPage => Failure(NoBlobsFound)
        case FirstPage(keys) => Success(Document(id, text, FirstCompanion(keys, id)))
  }

  /** The suggested filename of a download: the id with extension `bin` or `txt`. */
  function DownloadFilename(id: string, isBinary: bool): (name: string)
    ensures |name| == |id| + 4 && name[..|id|] == id
    ensures name[|id|..] == if isBinary then ".bin" else ".txt"
  {
    id + "." + (if isBinary then "bin" else "txt")
  }

  /**
   * What downloading key `id` yields: its bytes unchanged, flagged binary
   * exactly when they do not decode as UTF-8.
   */
  function DownloadOf(blobs: Store, id: string, getFails: bool): (r: Result<DownloadResponse, HandlerError>)
    ensures r.Success? <==> id in blobs && !getFails
    ensures r.Failure? ==> r.error == DownloadFailed
    ensures r.Success? ==> r.value.content == blobs[id]
    ensures r.Success? ==> (r.value.isBinary <==> Decode(blobs[id]).None?)
    ensures r.Success? ==> r.value.filename == id + (if r.value.isBinary then ".bin" else ".txt")
  {
    if id !in blobs || getFails then Failure(DownloadFailed)
    else
      var isBinary := !IsValid(blobs[id]);
      ValidIffDecodes(blobs[id]);
      Success(DownloadResponse(blobs[id], DownloadFilename(id, isBinary), isBinary))
  }

  /** The search for a document's attached file: the first listed key starting with `id + "_"`. */
  method FindCompanion(keys: seq<string>, id: string) returns (fileId: Option<string>)
    ensures fileId == FirstCompanion(keys, id)
  {
    fileId := None;
    var prefix := CompanionPrefix(id);
    for j := 0 to |keys|
      invariant fileId == None
      invariant FirstCompanion(keys[j..], id) == FirstCompanion(keys, id)
    {
      if prefix <= keys[j] {
        fileId := Some(keys[j]);
        break;
      }
      assert keys[j..][1..] == keys[j + 1..];
    }
  }

  /** The service's view of its blob container, with one method per document handler. */
  class BlobContainer {
    var blobs: Store

    /** Lists the documents of the first listing page, or fails as a whole. */
    method ListDocuments(page: ListPage, getFails: set<string>) returns (r: Result<seq<Document>, HandlerError>)
      ensures r == ListDocumentsOf(blobs, page, getFails)
    {
      if page.ListError? {
        return Failure(ListBlobsFailed);
      } else if page.NoPage? {
        return Failure(NoBlobsFound);
      }
      var keys := page.keys;
      var documents: seq<Document> := [];
      var i := 0;
      assert keys[i..] == keys;
      PrependNothing(CollectDocuments(blobs, keys, PrimaryKeys(keys), getFails));
      while i < |keys|
        invariant 0 <= i <= |keys|
        invariant Prepend(documents, CollectDocuments(blobs, keys, PrimaryKeys(keys[i..]), getFails)) == ListDocumentsOf(blobs, page, getFails)
      {
        assert keys[i..][1..] == keys[i + 1..];
        var name := keys[i];
        if !IsCompanionKey(name) {
          if name !in blobs || name in getFails {
            return Failure(GetContentFailed);
          }
          var content := blobs[name];
          var fileId := FindCompanion(keys, name);
          var text := Decode(content);
          if text.None? {
            return Failure(ParseContentFailed);
          }
          PrependTwice(documents, [Document(name, text.value, fileId)], CollectDocuments(blobs, keys, PrimaryKeys(keys[i + 1..]), getFails));
          documents := documents + [Document(name, text.value, fileId)];
        }
        i := i + 1;
      }
      assert keys[i..] == [] && documents + [] == documents;
      return Success(documents);
    }

    /** Reads one document: its content must be UTF-8, and its file is looked up in the first listing page. */
    method GetDocument(id: string, getFails: bool, page: ListPage) returns (r: Result<Document, HandlerError>)
      ensures r == GetDocumentOf(blobs, id, getFails, page)
    {
      if id !in blobs || getFails {
        return Failure(GetDocumentFailed);
      }
      var text := Decode(blobs[id]);
      if text.None? {
        return Failure(ParseContentFailed);
      }
      match page
      case ListError =>
        return Failure(ListBlobsFailed);
      case NoPage =>
        return Failure(NoBlobsFound);
      case FirstPage(keys) =>
        var fileId := FindCompanion(keys, id);
        return Success(Document(id, text.value, fileId));
    }

    /**
     * Creates document `id` with `content`, then, if a file came with it, stores
     * the file under its companion key. A failed step returns its error and
     * leaves every earlier write in place.
     */
    method CreateDocument(id: string, content: string, file: Option<Upload>,
                          putFails: bool, fileStep: CreateFileStep, uploadFails: bool)
      returns (r: Result<Document, HandlerError>)
      requires Separator !in id && IsFreshId(blobs, id)
      modifies this
      ensures putFails ==> r == Failure(CreateFailed) && blobs == old(blobs)
      ensures !putFails && file.None? ==>
        r == Success(Document(id, content, None)) && blobs == old(blobs)[id := Encode(content)]
      ensures !putFails && file.Some? && fileStep == OpenFails ==>
        r == Failure(OpenFileFailed) && blobs == old(blobs)[id := Encode(content)]
      ensures !putFails && file.Some? && fileStep == ReadFails ==>
        r == Failure(ReadFileFailed) && blobs == old(blobs)[id := Encode(content)]
      ensures !putFails && file.Some? && fileStep == FileRead && uploadFails ==>
        r == Failure(UploadFileFailed) && blobs == old(blobs)[id := Encode(content)]
      ensures !putFails && file.Some? && fileStep == FileRead && !uploadFails ==>
        && r == Success(Document(id, content, Some(CompanionKey(id, file.value.name))))
        && blobs == old(blobs)[id := Encode(content)][CompanionKey(id, file.value.name) := file.value.bytes]
      ensures r.Success? ==> blobs == WithDocument(old(blobs), id, content, file)
      ensures r.Failure? ==> StatusOf(r.error) == InternalServerError
    {
      if putFails {
        return Failure(CreateFailed);
      }
      blobs := blobs[id := Encode(content)];
      var fileName: Option<string> := None;
      if file.Some? {
        var key := CompanionKey(id, file.value.name);
        fileName := Some(key);
        if fileStep == OpenFails {
          return Failure(OpenFileFailed);
        } else if fileStep == ReadFails {
          return Failure(ReadFileFailed);
        }
        if uploadFails {
          return Failure(UploadFileFailed);
        }
        blobs := blobs[key := file.value.bytes];
      }
      return Success(Document(id, content, fileName));
    }

    /**
     * Overwrites document `id` with `content` whether or not it exists, then, if
     * a file came with it, stores the file under its companion key. Files stored
     * earlier under other names are left in place.
     */
    method UpdateDocument(id: string, content: string, file: Option<Upload>,
                          putFails: bool, fileStep: UpdateFileStep, uploadFails: bool)
      returns (r: Result<Document, HandlerError>)
      modifies this
      ensures putFails ==> r == Failure(UpdateFailed) && blobs == old(blobs)
      ensures !putFails && file.None? ==>
        r == Success(Document(id, content, None)) && blobs == old(blobs)[id := Encode(content)]
      ensures !putFails && file.Some? && fileStep == PersistFails ==>
        r == Failure(PersistFileFailed) && blobs == old(blobs)[id := Encode(content)]
      ensures !putFails && file.Some? && fileStep == ReadBackFails ==>
        r == Failure(ReadFileFailed) && blobs == old(blobs)[id := Encode(content)]
      ensures !putFails && file.Some? && fileStep in {FileRoundTrip, RemoveFails} && uploadFails ==>
        r == Failure(UploadFileFailed) && blobs == old(blobs)[id := Encode(content)]
      ensures !putFails && file.Some? && fileStep == RemoveFails && !uploadFails ==>
        && r == Failure(RemoveFileFailed)
        && blobs == old(blobs)[id := Encode(content)][CompanionKey(id, file.value.name) := file.value.bytes]
      ensures !putFails && file.Some? && fileStep == FileRoundTrip && !uploadFails ==>
        && r == Success(Document(id, content, Some(CompanionKey(id, file.value.name))))
        && blobs == old(blobs)[id := Encode(content)][CompanionKey(id, file.value.name) := file.value.bytes]
      ensures r.Success? ==> blobs == WithDocument(old(blobs), id, content, file)
      ensures forall k :: k in old(blobs) ==> k in blobs
      ensures r.Failure? ==> StatusOf(r.error) == InternalServerError
    {
      if putFails {
        return Failure(UpdateFailed);
      }
      blobs := blobs[id := Encode(content)];
      var fileName: Option<string> := None;
      if file.Some? {
        var key := CompanionKey(id, file.value.name);
        fileName := Some(key);
        if fileStep == PersistFails {
          return Failure(PersistFileFailed);
        } else if fileStep == ReadBackFails {
          return Failure(ReadFileFailed);
        }
        if uploadFails {
          return Failure(UploadFileFailed);
        }
        blobs := blobs[key := file.value.bytes];
        if fileStep == RemoveFails {
          return Failure(RemoveFileFailed);
        }
      }
      return Success(Document(id, content, fileName));
    }

    /** Deletes the key `id` and nothing else; deleting a key that is not there fails. */
    method DeleteDocument(id: string, deleteFails: bool) returns (r: Result<string, HandlerError>)
      modifies this
      ensures id in old(blobs) && !deleteFails ==> r == Success(DeletedMessage) && blobs == old(blobs) - {id}
      ensures id !in old(blobs) || deleteFails ==> r == Failure(DeleteFailed) && blobs == old(blobs)
      ensures forall k :: k in old(blobs) && k != id ==> k in blobs && blobs[k] == old(blobs)[k]
      ensures r.Failure? ==> StatusOf(r.error) == InternalServerError
    {
      if id !in blobs || deleteFails {
        return Failure(DeleteFailed);
      }
      blobs := blobs - {id};
      return Success(DeletedMessage);
    }

    /** Downloads the bytes stored under `id` with a filename and a text/binary flag. */
    method DownloadDocument(id: string, getFails: bool) returns (r: Result<DownloadResponse, HandlerError>)
      ensures r == DownloadOf(blobs, id, getFails)
    {
      if id !in blobs || getFails {
        return Failure(DownloadFailed);
      }
      var content := blobs[id];
      var isBinary := !IsValid(content);
      return Success(DownloadResponse(content, DownloadFilename(id, isBinary), isBinary));
    }
  }
}
