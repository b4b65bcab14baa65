/**
 * Properties of the document handlers: what listing, reading and downloading
 * promise about the store, and what a read or download observes after a
 * create, update or delete.
 */
module DocumentProperties {
  import opened Results
  import opened Utf8
  import opened Keys
  import opened Documents

  /** The listing page names exactly the keys of the store. */
  ghost predicate ListsAll(keys: seq<string>, blobs: Store) {
    forall k :: k in blobs <==> k in keys
  }

  /**
   * Building documents for `ids` succeeds exactly when every id can be fetched
   * and holds UTF-8.
   */
  lemma {:induction false} CollectSucceedsWhenAllReadable(blobs: Store, keys: seq<string>, ids: seq<string>, getFails: set<string>)
    ensures CollectDocuments(blobs, keys, ids, getFails).Success? <==>
      forall id :: id in ids ==> id in blobs && id !in getFails && IsValid(blobs[id])
  {
    if ids != [] {
      var id := ids[0];
      assert ids == [id] + ids[1..];
      CollectSucceedsWhenAllReadable(blobs, keys, ids[1..], getFails);
      if id in blobs {
        ValidIffDecodes(blobs[id]);
      }
    }
  }

  /**
   * A successful build yields one document per id, in order, whose text
   * encodes to the bytes stored under the id and whose file is the id's first
   * companion in the listing.
   */
  lemma {:induction false} CollectDocumentsFaithful(blobs: Store, keys: seq<string>, ids: seq<string>, getFails: set<string>)
    requires CollectDocuments(blobs, keys, ids, getFails).Success?
    ensures var docs := CollectDocuments(blobs, keys, ids, getFails).value;
      forall i :: 0 <= i < |ids| ==>
        && docs[i].id == ids[i]
        && ids[i] in blobs
        && Encode(docs[i].content) == blobs[ids[i]]
        && docs[i].fileId == FirstCompanion(keys, ids[i])
  {
    if ids != [] {
      var id := ids[0];
      var text := Decode(blobs[id]).value;
      var rest := CollectDocuments(blobs, keys, ids[1..], getFails);
      CollectDocumentsFaithful(blobs, keys, ids[1..], getFails);
      EncodeDecode(blobs[id]);
      var docs := CollectDocuments(blobs, keys, ids, getFails).value;
      assert docs == [Document(id, text, FirstCompanion(keys, id))] + rest.value;
      forall i | 0 < i < |ids|
        ensures docs[i].id == ids[i] && ids[i] in blobs
          && Encode(docs[i].content) == blobs[ids[i]] && docs[i].fileId == FirstCompanion(keys, ids[i])
      {
        assert docs[i] == rest.value[i - 1] && ids[i] == ids[1..][i - 1];
      }
    }
  }

  /**
   * A successful listing emits exactly the listed keys without a separator, in
   * listing order, so no attachment ever appears as a document of its own.
   */
  lemma ListEmitsOnlyPrimaries(blobs: Store, page: ListPage, getFails: set<string>)
    requires ListDocumentsOf(blobs, page, getFails).Success?
    ensures page.FirstPage?
    ensures var docs := ListDocumentsOf(blobs, page, getFails).value;
      && |docs| == |PrimaryKeys(page.keys)|
      && (forall i :: 0 <= i < |docs| ==> docs[i].id == PrimaryKeys(page.keys)[i])
      && (forall i :: 0 <= i < |docs| ==> docs[i].id in page.keys && !IsCompanionKey(docs[i].id))
  {
    CollectDocumentsFaithful(blobs, page.keys, PrimaryKeys(page.keys), getFails);
    PrimaryKeysAreUnseparated(page.keys);
  }

  /**
   * Each listed document's text encodes to the bytes stored under its id, and
   * its file is the first listed key starting with its id and the separator.
   */
  lemma ListContentsMatchStore(blobs: Store, page: ListPage, getFails: set<string>)
    requires ListDocumentsOf(blobs, page, getFails).Success?
    ensures page.FirstPage?
    ensures var docs := ListDocumentsOf(blobs, page, getFails).value;
      forall i :: 0 <= i < |docs| ==>
        && docs[i].id in blobs
        && Encode(docs[i].content) == blobs[docs[i].id]
        && docs[i].fileId == FirstCompanion(page.keys, docs[i].id)
  {
    CollectDocumentsFaithful(blobs, page.keys, PrimaryKeys(page.keys), getFails);
  }

  /**
   * Listing fails as a whole, never returning a partial list: a failed listing
   * call or an empty stream fail it, and so does any primary key whose fetch
   * fails or whose bytes are not UTF-8.
   */
  lemma ListFailsAsAWhole(blobs: Store, page: ListPage, getFails: set<string>)
    ensures page.ListError? ==> ListDocumentsOf(blobs, page, getFails) == Failure(ListBlobsFailed)
    ensures page.NoPage? ==> ListDocumentsOf(blobs, page, getFails) == Failure(NoBlobsFound)
    ensures page.FirstPage? ==>
      (ListDocumentsOf(blobs, page, getFails).Success? <==>
        forall k :: k in page.keys && !IsCompanionKey(k) ==> k in blobs && k !in getFails && IsValid(blobs[k]))
    ensures page.FirstPage? && ListDocumentsOf(blobs, page, getFails).Failure? ==>
      ListDocumentsOf(blobs, page, getFails).error in {GetContentFailed, ParseContentFailed}
  {
    if page.FirstPage? {
      CollectSucceedsWhenAllReadable(blobs, page.keys, PrimaryKeys(page.keys), getFails);
      PrimaryKeysAreUnseparated(page.keys);
    }
  }

  /**
   * Reading a document has three kinds of outcome: not found when its fetch
   * fails, a parse error when its bytes are not UTF-8, and otherwise (once the
   * listing is available) the document under the requested id.
   */
  lemma GetDocumentOutcomes(blobs: Store, id: string, getFails: bool, page: ListPage)
    ensures id !in blobs || getFails ==>
      GetDocumentOf(blobs, id, getFails, page) == Failure(GetDocumentFailed)
    ensures id in blobs && !getFails && !IsValid(blobs[id]) ==>
      GetDocumentOf(blobs, id, getFails, page) == Failure(ParseContentFailed)
    ensures id in blobs && !getFails && IsValid(blobs[id]) && page.FirstPage? ==>
      GetDocumentOf(blobs, id, getFails, page).Success?
    ensures GetDocumentOf(blobs, id, getFails, page).Success? ==>
      var doc := GetDocumentOf(blobs, id, getFails, page).value;
      && doc.id == id
      && id in blobs
      && Encode(doc.content) == blobs[id]
      && page.FirstPage?
      && doc.fileId == FirstCompanion(page.keys, id)
  {
    if id in blobs {
      ValidIffDecodes(blobs[id]);
      if Decode(blobs[id]).Some? {
        EncodeDecode(blobs[id]);
      }
    }
  }

  /**
   * The status each reading handler answers a failure with. Listing answers
   * 404 exactly when the listing stream is empty. Reading one document answers
   * 404 exactly when its fetch fails, or when its text is UTF-8 and the listing
   * stream is empty; text that is not UTF-8 and a failed listing call answer
   * 500. Every failed download answers 404.
   */
  lemma FailureStatuses(blobs: Store, page: ListPage, listGetFails: set<string>, id: string, getFails: bool)
    ensures var r := ListDocumentsOf(blobs, page, listGetFails);
      r.Failure? && StatusOf(r.error) == NotFound <==> page.NoPage?
    ensures var r := GetDocumentOf(blobs, id, getFails, page);
      r.Failure? && StatusOf(r.error) == NotFound <==>
        id !in blobs || getFails || (IsValid(blobs[id]) && page.NoPage?)
    ensures var r := DownloadOf(blobs, id, getFails);
      r.Failure? ==> StatusOf(r.error) == NotFound
  {
    if id in blobs {
      ValidIffDecodes(blobs[id]);
    }
  }

  /** Every key of a store listed in full, after a fresh id's document and file were written, is the id, its file or an older key. */
  lemma CreatedCompanionIsFound(blobs: Store, id: string, content: string, file: Option<Upload>, keys: seq<string>)
    requires IsFreshId(blobs, id)
    requires ListsAll(keys, WithDocument(blobs, id, content, file))
    ensures FirstCompanion(keys, id) == if file.Some? then Some(CompanionKey(id, file.value.name)) else None
  {
    var after := WithDocument(blobs, id, content, file);
    if file.Some? {
      var k := CompanionKey(id, file.value.name);
      assert k in after;
      forall key | key in keys && CompanionPrefix(id) <= key ensures key == k {
        assert key in after;
      }
      FirstCompanionFindsOnly(keys, id, k);
    } else {
      FirstCompanionIsFirstMatch(keys, id);
      forall j | 0 <= j < |keys| ensures !(CompanionPrefix(id) <= keys[j]) {
        assert keys[j] in after;
      }
    }
  }

  /**
   * Reading a document right after creating it returns the submitted text and,
   * when a file came with it, the companion key the create returned.
   */
  lemma CreateThenGet(blobs: Store, id: string, content: string, file: Option<Upload>, keys: seq<string>)
    requires IsFreshId(blobs, id)
    requires ListsAll(keys, WithDocument(blobs, id, content, file))
    ensures GetDocumentOf(WithDocument(blobs, id, content, file), id, false, FirstPage(keys))
      == Success(Document(id, content, if file.Some? then Some(CompanionKey(id, file.value.name)) else None))
  {
    DecodeEncode(content);
    CreatedCompanionIsFound(blobs, id, content, file, keys);
  }

  /**
   * A created document appears in any successful listing of the whole store,
   * with its text and its file.
   */
  lemma CreateThenList(blobs: Store, id: string, content: string, file: Option<Upload>,
                       keys: seq<string>, getFails: set<string>)
    requires Separator !in id && IsFreshId(blobs, id)
    requires ListsAll(keys, WithDocument(blobs, id, content, file))
    requires ListDocumentsOf(WithDocument(blobs, id, content, file), FirstPage(keys), getFails).Success?
    ensures var docs := ListDocumentsOf(WithDocument(blobs, id, content, file), FirstPage(keys), getFails).value;
      exists i :: 0 <= i < |docs| &&
        docs[i] == Document(id, content, if file.Some? then Some(CompanionKey(id, file.value.name)) else None)
  {
    var after := WithDocument(blobs, id, content, file);
    var docs := ListDocumentsOf(after, FirstPage(keys), getFails).value;
    ListEmitsOnlyPrimaries(after, FirstPage(keys), getFails);
    ListContentsMatchStore(after, FirstPage(keys), getFails);
    PrimaryKeysAreUnseparated(keys);
    assert id in after;
    var i :| 0 <= i < |PrimaryKeys(keys)| && PrimaryKeys(keys)[i] == id;
    EncodeIsInjective(docs[i].content, content);
    CreatedCompanionIsFound(blobs, id, content, file, keys);
  }

  /** The content the service writes is text: a created or updated document downloads as `id.txt`. */
  lemma WrittenDocumentDownloadsAsText(blobs: Store, id: string, content: string, file: Option<Upload>)
    ensures DownloadOf(WithDocument(blobs, id, content, file), id, false)
      == Success(DownloadResponse(Encode(content), id + ".txt", false))
  {
    EncodedIsValid(content);
  }

  /** Downloading a created document's file by its companion key returns the uploaded bytes unchanged. */
  lemma CreateThenDownloadFile(blobs: Store, id: string, content: string, upload: Upload)
    ensures var key := CompanionKey(id, upload.name);
      var r := DownloadOf(WithDocument(blobs, id, content, Some(upload)), key, false);
      r.Success? && r.value.content == upload.bytes && r.value.filename == DownloadFilename(key, !IsValid(upload.bytes))
  {
  }

  /** Reading a document after an update returns the new text under the same id. */
  lemma UpdateThenGet(blobs: Store, id: string, content: string, file: Option<Upload>, keys: seq<string>)
    ensures GetDocumentOf(WithDocument(blobs, id, content, file), id, false, FirstPage(keys))
      == Success(Document(id, content, FirstCompanion(keys, id)))
  {
    DecodeEncode(content);
  }

  /**
   * An update that uploads a file under a new name leaves the old file in
   * place; when the old file is listed first, a later read reports the old
   * file rather than the one the update returned.
   */
  lemma UpdateWithNewNameCanReadOldFile(blobs: Store, id: string, content: string,
                                        oldName: Option<string>, upload: Upload, rest: seq<string>)
    requires CompanionKey(id, oldName) in blobs
    requires CompanionKey(id, oldName) != CompanionKey(id, upload.name)
    ensures CompanionKey(id, oldName) in WithDocument(blobs, id, content, Some(upload))
    ensures GetDocumentOf(WithDocument(blobs, id, content, Some(upload)), id, false, FirstPage([CompanionKey(id, oldName)] + rest))
      == Success(Document(id, content, Some(CompanionKey(id, oldName))))
  {
    DecodeEncode(content);
  }

  /** After a delete, reading the document reports it not found. */
  lemma DeleteThenGet(blobs: Store, id: string, getFails: bool, page: ListPage)
    ensures GetDocumentOf(blobs - {id}, id, getFails, page) == Failure(GetDocumentFailed)
  {
  }

  /** Deleting a document leaves its files behind, still downloadable. */
  lemma DeleteOrphansFiles(blobs: Store, id: string, key: string)
    requires key in blobs && CompanionPrefix(id) <= key
    ensures key in blobs - {id}
    ensures DownloadOf(blobs - {id}, key, false).Success?
    ensures DownloadOf(blobs - {id}, key, false).value.content == blobs[key]
  {
  }

  /**
   * A document "hi" created with the three bytes FF FE 00 in an upload the
   * framework reports as "img": reading it names the file `id_img`, and
   * downloading the file returns the same three bytes, flagged binary, as
   * `id_img.bin`.
   */
  lemma BinaryAttachmentScenario(blobs: Store, id: string, keys: seq<string>)
    requires IsFreshId(blobs, id)
    requires ListsAll(keys, WithDocument(blobs, id, "hi", Some(Upload(Some("img"), [0xFF, 0xFE, 0x00]))))
    ensures var after := WithDocument(blobs, id, "hi", Some(Upload(Some("img"), [0xFF, 0xFE, 0x00])));
      && GetDocumentOf(after, id, false, FirstPage(keys)) == Success(Document(id, "hi", Some(id + "_img")))
      && DownloadOf(after, id + "_img", false) == Success(DownloadResponse([0xFF, 0xFE, 0x00], id + "_img.bin", true))
  {
    BinaryAttachmentIsRead(blobs, id, keys);
    BinaryAttachmentDownloads(blobs, id);
  }

  /** The reading half of BinaryAttachmentScenario. */
  lemma BinaryAttachmentIsRead(blobs: Store, id: string, keys: seq<string>)
    requires IsFreshId(blobs, id)
    requires ListsAll(keys, WithDocument(blobs, id, "hi", Some(Upload(Some("img"), [0xFF, 0xFE, 0x00]))))
    ensures GetDocumentOf(WithDocument(blobs, id, "hi", Some(Upload(Some("img"), [0xFF, 0xFE, 0x00]))), id, false, FirstPage(keys))
      == Success(Document(id, "hi", Some(id + "_img")))
  {
    var upload := Upload(Some("img"), [0xFF, 0xFE, 0x00]);
    CreateThenGet(blobs, id, "hi", Some(upload), keys);
    assert CompanionKey(id, upload.name) == id + "_img";
  }

  /** The download half of BinaryAttachmentScenario. */
  lemma BinaryAttachmentDownloads(blobs: Store, id: string)
    ensures DownloadOf(WithDocument(blobs, id, "hi", Some(Upload(Some("img"), [0xFF, 0xFE, 0x00]))), id + "_img", false)
      == Success(DownloadResponse([0xFF, 0xFE, 0x00], id + "_img.bin", true))
  {
    var upload := Upload(Some("img"), [0xFF, 0xFE, 0x00]);
    var key := CompanionKey(id, upload.name);
    assert key == id + "_img";
    assert !IsValid(upload.bytes) by {
      assert FirstCharLength(upload.bytes) == 0;
    }
    CreateThenDownloadFile(blobs, id, "hi", upload);
    assert DownloadFilename(key, true) == id + "_img.bin";
  }
}
