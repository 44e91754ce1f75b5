/**
 * The storage side of the knowledge-base service
 * (`src-tauri/src/services/knowledge_base_service.rs`): the in-memory
 * `StorageData` with its knowledge bases and documents, and the commands
 * that change it. Loading and saving the JSON file is not modelled: each
 * command works on the data as loaded and leaves the data to be saved.
 * Fresh ids (`Uuid::new_v4`) and the clock (`Utc::now`) are parameters.
 */
module KnowledgeBaseService {
  import opened Wrappers
  import opened Text
  import opened KnowledgeBaseParse
  import opened Seqs

  /** A knowledge base; `createdAt` and `updatedAt` are opaque timestamps. */
  datatype KnowledgeBase = KnowledgeBase(
    id: string, name: string, description: Option<string>,
    createdAt: int, updatedAt: int, documentCount: nat)

  /** The metadata computed on import; `keywords` is always `None`. */
  datatype Metadata = Metadata(
    wordCount: nat, lineCount: nat, headings: seq<HeadingInfo>, keywords: Option<seq<string>>)

  datatype Document = Document(
    id: string, kbId: string, path: string, title: string, content: string,
    chunks: seq<Chunk>, metadata: Metadata, createdAt: int)

  /** The stored data as a value. */
  datatype Contents = Contents(knowledgeBases: seq<KnowledgeBase>, documents: seq<Document>)

  // ---------------------------------------------------------------------
  // `find`
  // ---------------------------------------------------------------------

  /** The index of the first knowledge base with id `id`, or -1 (`iter().find`). */
  function IndexOfKb(kbs: seq<KnowledgeBase>, id: string): (i: int)
    ensures -1 <= i < |kbs|
    ensures i >= 0 ==> kbs[i].id == id
    ensures forall j | 0 <= j < |kbs| && (i < 0 || j < i) :: kbs[j].id != id
  {
    FirstIndex(kbs, (kb: KnowledgeBase) => kb.id == id)
  }

  /** The first knowledge base with id `id`. */
  function FindKb(kbs: seq<KnowledgeBase>, id: string): (r: Option<KnowledgeBase>)
    ensures r.Some? ==> r.value in kbs && r.value.id == id
    ensures r.None? <==> forall kb | kb in kbs :: kb.id != id
  {
    var i := IndexOfKb(kbs, id);
    if i >= 0 then Some(kbs[i]) else None
  }

  /** The owner of the first document with id `docId`. */
  function OwnerOf(docs: seq<Document>, docId: string): (r: Option<string>)
    ensures r.Some? ==> exists d | d in docs :: d.id == docId && d.kbId == r.value
    ensures r.None? <==> forall d | d in docs :: d.id != docId
  {
    if docs == [] then None
    else if docs[0].id == docId then Some(docs[0].kbId)
    else
      var r := OwnerOf(docs[1..], docId);
      assert forall d | d in docs[1..] :: d in docs;
      r
  }

  // ---------------------------------------------------------------------
  // Document counts
  // ---------------------------------------------------------------------

  /** The documents of knowledge base `kbId`, in stored order (`get_documents`). */
  function DocumentsOf(docs: seq<Document>, kbId: string): (r: seq<Document>)
    ensures forall d :: d in r <==> d in docs && d.kbId == kbId
  {
    Filter(docs, (d: Document) => d.kbId == kbId)
  }

  /** The number of stored documents of knowledge base `kbId`, the value `document_count` is set to. */
  function CountOf(docs: seq<Document>, kbId: string): nat {
    if docs == [] then 0 else (if docs[0].kbId == kbId then 1 else 0) + CountOf(docs[1..], kbId)
  }

  /** The count is the number of documents `get_documents` returns. */
  lemma {:induction false} CountIsDocumentsOf(docs: seq<Document>, kbId: string)
    ensures CountOf(docs, kbId) == |DocumentsOf(docs, kbId)|
  {
    if docs != [] {
      CountIsDocumentsOf(docs[1..], kbId);
    }
  }

  /** The documents of `kbId` in `a + b` are those in `a` followed by those in `b`. */
  lemma DocumentsOfAppend(a: seq<Document>, b: seq<Document>, kbId: string)
    ensures DocumentsOf(a + b, kbId) == DocumentsOf(a, kbId) + DocumentsOf(b, kbId)
  {
    FilterAppend(a, b, (d: Document) => d.kbId == kbId);
  }

  lemma {:induction false} CountOfAppend(a: seq<Document>, b: seq<Document>, kbId: string)
    ensures CountOf(a + b, kbId) == CountOf(a, kbId) + CountOf(b, kbId)
  {
    if a != [] {
      assert (a + b)[1..] == a[1..] + b;
      CountOfAppend(a[1..], b, kbId);
    } else {
      assert a + b == b;
    }
  }

  /** One more document of `doc.kbId` adds one to its count and leaves every other count. */
  lemma CountAfterPush(docs: seq<Document>, doc: Document, kbId: string)
    ensures CountOf(docs + [doc], kbId) == CountOf(docs, kbId) + (if doc.kbId == kbId then 1 else 0)
  {
    CountOfAppend(docs, [doc], kbId);
  }

  /** Removing only documents of other knowledge bases leaves the count of `kbId`. */
  lemma {:induction false} CountAfterRetain(docs: seq<Document>, keep: Document -> bool, kbId: string)
    requires forall d | d in docs && !keep(d) :: d.kbId != kbId
    ensures CountOf(Filter(docs, keep), kbId) == CountOf(docs, kbId)
  {
    if docs != [] {
      var tail := docs[1..];
      assert forall d | d in tail :: d in docs;
      CountAfterRetain(tail, keep, kbId);
      if keep(docs[0]) {
        var kept := Filter(docs, keep);
        assert kept[0] == docs[0] && kept[1..] == Filter(tail, keep);
      } else {
        assert docs[0] in docs;
        assert Filter(docs, keep) == [] + Filter(tail, keep) == Filter(tail, keep);
      }
    }
  }

  /** Knowledge base `id`, if present, gets the count of `id` in `docs` and timestamp `now`. */
  function Recount(kbs: seq<KnowledgeBase>, id: string, docs: seq<Document>, now: int): (r: seq<KnowledgeBase>)
    ensures |r| == |kbs|
    ensures forall j | 0 <= j < |kbs| :: r[j].id == kbs[j].id
  {
    var i := IndexOfKb(kbs, id);
    if i < 0 then kbs else kbs[i := kbs[i].(documentCount := CountOf(docs, id), updatedAt := now)]
  }

  /** Only the first knowledge base with that id changes, and only its count and timestamp. */
  lemma RecountChangesOne(kbs: seq<KnowledgeBase>, id: string, docs: seq<Document>, now: int)
    ensures var i := IndexOfKb(kbs, id);
      forall j | 0 <= j < |kbs| ::
        Recount(kbs, id, docs, now)[j] ==
          if j == i then kbs[j].(documentCount := CountOf(docs, id), updatedAt := now) else kbs[j]
  {
  }

  // ---------------------------------------------------------------------
  // The commands, as functions of the stored data
  // ---------------------------------------------------------------------

  /** `create_knowledge_base`: the new knowledge base goes last. */
  function Create(c: Contents, kb: KnowledgeBase): Contents {
    c.(knowledgeBases := c.knowledgeBases + [kb])
  }

  function KeepsOtherKb(id: string): KnowledgeBase -> bool {
    (kb: KnowledgeBase) => kb.id != id
  }

  function KeepsOtherOwner(id: string): Document -> bool {
    (d: Document) => d.kbId != id
  }

  function KeepsOtherDoc(docId: string): Document -> bool {
    (d: Document) => d.id != docId
  }

  /** `delete_knowledge_base`: the knowledge base and all of its documents go. */
  function DeleteKb(c: Contents, id: string): Contents {
    Contents(Filter(c.knowledgeBases, KeepsOtherKb(id)), Filter(c.documents, KeepsOtherOwner(id)))
  }

  /** `import_document` once the document is built: push it, then recount its knowledge base. */
  function Import(c: Contents, doc: Document, now: int): Contents {
    var docs := c.documents + [doc];
    Contents(Recount(c.knowledgeBases, doc.kbId, docs, now), docs)
  }

  /** `delete_document`: remove it, then recount the knowledge base of the first document with that id. */
  function DeleteDoc(c: Contents, docId: string, now: int): Contents {
    var docs := Filter(c.documents, KeepsOtherDoc(docId));
    match OwnerOf(c.documents, docId)
    case Some(kbId) => Contents(Recount(c.knowledgeBases, kbId, docs, now), docs)
    case None => Contents(c.knowledgeBases, docs)
  }

  // ---------------------------------------------------------------------
  // What the commands promise
  // ---------------------------------------------------------------------

  /**
   * The bookkeeping the service keeps: knowledge-base ids and document ids
   * are unique, and each knowledge base counts the stored documents that
   * name it.
   */
  predicate Consistent(c: Contents) {
    DistinctBy(c.knowledgeBases, (kb: KnowledgeBase) => kb.id) &&
    DistinctBy(c.documents, (d: Document) => d.id) &&
    forall i | 0 <= i < |c.knowledgeBases| ::
      c.knowledgeBases[i].documentCount == CountOf(c.documents, c.knowledgeBases[i].id)
  }

  /** Recounting id `id` against `docs` keeps consistency when no other count changed. */
  lemma RecountConsistent(kbs: seq<KnowledgeBase>, id: string, docs: seq<Document>, now: int)
    requires DistinctBy(kbs, (kb: KnowledgeBase) => kb.id) && DistinctBy(docs, (d: Document) => d.id)
    requires forall i | 0 <= i < |kbs| && kbs[i].id != id :: kbs[i].documentCount == CountOf(docs, kbs[i].id)
    ensures Consistent(Contents(Recount(kbs, id, docs, now), docs))
  {
    var r := Recount(kbs, id, docs, now);
    RecountChangesOne(kbs, id, docs, now);
    var i := IndexOfKb(kbs, id);
    assert DistinctBy(r, (kb: KnowledgeBase) => kb.id) by {
      forall a, b | 0 <= a < b < |r| ensures r[a].id != r[b].id {
        assert r[a].id == kbs[a].id && r[b].id == kbs[b].id;
      }
    }
    forall j | 0 <= j < |r| ensures r[j].documentCount == CountOf(docs, r[j].id) {
      if j != i {
        assert kbs[j].id != id by {
          if i >= 0 {
            assert kbs[i].id == id;
          }
        }
      }
    }
  }

  /** A new knowledge base with a fresh id, no documents yet and count 0 keeps consistency. */
  lemma CreateKeepsConsistent(c: Contents, kb: KnowledgeBase)
    requires Consistent(c) && kb.documentCount == 0 && CountOf(c.documents, kb.id) == 0
    requires forall k | k in c.knowledgeBases :: k.id != kb.id
    ensures Consistent(Create(c, kb))
  {
    var r := Create(c, kb).knowledgeBases;
    forall a, b | 0 <= a < b < |r| ensures r[a].id != r[b].id {
      if b == |r| - 1 {
        assert r[a] in c.knowledgeBases;
      }
    }
  }

  /**
   * After `delete_knowledge_base(id)` no knowledge base has id `id`, no
   * document belongs to it, and every other entry stays, in order.
   */
  lemma DeleteKbRemovesExactly(c: Contents, id: string)
    ensures forall kb :: kb in DeleteKb(c, id).knowledgeBases <==> kb in c.knowledgeBases && kb.id != id
    ensures forall d :: d in DeleteKb(c, id).documents <==> d in c.documents && d.kbId != id
    ensures (forall kb | kb in c.knowledgeBases :: kb.id != id) && (forall d | d in c.documents :: d.kbId != id)
      ==> DeleteKb(c, id) == c
  {
    if (forall kb | kb in c.knowledgeBases :: kb.id != id) && (forall d | d in c.documents :: d.kbId != id) {
      FilterAll(c.knowledgeBases, KeepsOtherKb(id));
      FilterAll(c.documents, KeepsOtherOwner(id));
    }
  }

  lemma DeleteKbKeepsConsistent(c: Contents, id: string)
    requires Consistent(c)
    ensures Consistent(DeleteKb(c, id))
  {
    var r := DeleteKb(c, id);
    FilterDistinct(c.knowledgeBases, KeepsOtherKb(id), (kb: KnowledgeBase) => kb.id);
    FilterDistinct(c.documents, KeepsOtherOwner(id), (d: Document) => d.id);
    forall j | 0 <= j < |r.knowledgeBases|
      ensures r.knowledgeBases[j].documentCount == CountOf(r.documents, r.knowledgeBases[j].id)
    {
      var kb := r.knowledgeBases[j];
      assert kb in c.knowledgeBases && kb.id != id;
      var i :| 0 <= i < |c.knowledgeBases| && c.knowledgeBases[i] == kb;
      CountAfterRetain(c.documents, KeepsOtherOwner(id), kb.id);
    }
  }

  /**
   * After `import_document`, the document is stored last, and the first
   * knowledge base with its `kbId`, if any, counts one more document.
   */
  lemma ImportCounts(c: Contents, doc: Document, now: int)
    requires Consistent(c)
    ensures Import(c, doc, now).documents == c.documents + [doc]
    ensures var i := IndexOfKb(c.knowledgeBases, doc.kbId);
      i >= 0 ==> Import(c, doc, now).knowledgeBases[i].documentCount == c.knowledgeBases[i].documentCount + 1
  {
    CountAfterPush(c.documents, doc, doc.kbId);
  }

  /** Importing a document with a fresh id keeps consistency, whether or not its knowledge base exists. */
  lemma ImportKeepsConsistent(c: Contents, doc: Document, now: int)
    requires Consistent(c) && forall d | d in c.documents :: d.id != doc.id
    ensures Consistent(Import(c, doc, now))
  {
    var docs := c.documents + [doc];
    var kbs := c.knowledgeBases;
    assert DistinctBy(docs, (d: Document) => d.id) by {
      forall a, b | 0 <= a < b < |docs| ensures docs[a].id != docs[b].id {
        if b == |docs| - 1 {
          assert docs[a] in c.documents;
        }
      }
    }
    forall i | 0 <= i < |kbs| && kbs[i].id != doc.kbId
      ensures kbs[i].documentCount == CountOf(docs, kbs[i].id)
    {
      CountAfterPush(c.documents, doc, kbs[i].id);
    }
    RecountConsistent(kbs, doc.kbId, docs, now);
  }

  /** Deleting an unknown document id changes nothing. */
  lemma DeleteUnknownDoc(c: Contents, docId: string, now: int)
    requires forall d | d in c.documents :: d.id != docId
    ensures DeleteDoc(c, docId, now) == c
  {
    FilterAll(c.documents, KeepsOtherDoc(docId));
  }

  /** `delete_document` removes exactly the documents with that id. */
  lemma DeleteDocRemovesExactly(c: Contents, docId: string, now: int)
    ensures forall d :: d in DeleteDoc(c, docId, now).documents <==> d in c.documents && d.id != docId
  {
  }

  /** Deleting a document keeps consistency: its owner is recounted and no other count moves. */
  lemma DeleteDocKeepsConsistent(c: Contents, docId: string, now: int)
    requires Consistent(c)
    ensures Consistent(DeleteDoc(c, docId, now))
  {
    var docs := Filter(c.documents, KeepsOtherDoc(docId));
    var kbs := c.knowledgeBases;
    FilterDistinct(c.documents, KeepsOtherDoc(docId), (d: Document) => d.id);
    match OwnerOf(c.documents, docId) {
      case None =>
        DeleteUnknownDoc(c, docId, now);
      case Some(owner) =>
        var d0 :| d0 in c.documents && d0.id == docId && d0.kbId == owner;
        forall d | d in c.documents && !KeepsOtherDoc(docId)(d) ensures d.kbId == owner {
          var a :| 0 <= a < |c.documents| && c.documents[a] == d;
          var b :| 0 <= b < |c.documents| && c.documents[b] == d0;
          assert a == b;
        }
        forall i | 0 <= i < |kbs| && kbs[i].id != owner
          ensures kbs[i].documentCount == CountOf(docs, kbs[i].id)
        {
          CountAfterRetain(c.documents, KeepsOtherDoc(docId), kbs[i].id);
        }
        RecountConsistent(kbs, owner, docs, now);
    }
  }

  // ---------------------------------------------------------------------
  // The service over its in-memory storage
  // ---------------------------------------------------------------------

  /** The metadata `import_document` computes for `content`. */
  function MetadataOf(content: string): (m: Metadata)
    ensures m.headings == HeadingsIn(Lines(content)) && m.keywords.None?
  {
    Metadata(NonSpaceCount(content), |Lines(content)|, HeadingsIn(Lines(content)), None)
  }

  /** `StorageData`: the knowledge bases and documents, changed in place by each command. */
  class StorageData {
    var knowledgeBases: seq<KnowledgeBase>
    var documents: seq<Document>

    function Value(): Contents
      reads this
    {
      Contents(knowledgeBases, documents)
    }

    /** `StorageData::default()`, used when no file exists yet. */
    constructor ()
      ensures Value() == Contents([], [])
    {
      knowledgeBases := [];
      documents := [];
    }

    method CreateKnowledgeBase(id: string, name: string, description: Option<string>, now: int)
      returns (kb: KnowledgeBase)
      modifies this
      ensures kb == KnowledgeBase(id, name, description, now, now, 0)
      ensures Value() == Create(old(Value()), kb)
    {
      kb := KnowledgeBase(id, name, description, now, now, 0);
      knowledgeBases := knowledgeBases + [kb];
    }

    method ListKnowledgeBases() returns (r: seq<KnowledgeBase>)
      ensures r == knowledgeBases
    {
      r := knowledgeBases;
    }

    method GetKnowledgeBase(id: string) returns (r: Option<KnowledgeBase>)
      ensures r == FindKb(knowledgeBases, id)
    {
      r := FindKb(knowledgeBases, id);
    }

    method DeleteKnowledgeBase(id: string)
      modifies this
      ensures Value() == DeleteKb(old(Value()), id)
    {
      knowledgeBases := Filter(knowledgeBases, KeepsOtherKb(id));
      documents := Filter(documents, KeepsOtherOwner(id));
    }

    /**
     * `import_document` on the text `content` read from `path`: the title
     * comes from the first heading or the file name, the chunks from the
     * Markdown scanner.
     */
    method ImportDocument(kbId: string, path: string, content: string, docId: string, now: int)
      returns (doc: Document)
      modifies this
      ensures doc.id == docId && doc.kbId == kbId && doc.path == path && doc.content == content
      ensures doc.createdAt == now && doc.metadata == MetadataOf(content)
      ensures doc.title == Title(HeadingsIn(Lines(content)), path)
      ensures doc.chunks == Chunks(Lines(content))
      ensures Value() == Import(old(Value()), doc, now)
    {
      var chunks, headings := ParseMarkdown(content);
      var metadata := Metadata(NonSpaceCount(content), |Lines(content)|, headings, None);
      var title := Title(metadata.headings, path);
      doc := Document(docId, kbId, path, title, content, chunks, metadata, now);
      documents := documents + [doc];
      var i := IndexOfKb(knowledgeBases, kbId);
      if i >= 0 {
        knowledgeBases := knowledgeBases[i := knowledgeBases[i].(documentCount := CountOf(documents, kbId), updatedAt := now)];
      }
    }

    method GetDocuments(kbId: string) returns (r: seq<Document>)
      ensures r == DocumentsOf(documents, kbId)
    {
      r := Filter(documents, (d: Document) => d.kbId == kbId);
    }

    method DeleteDocument(docId: string, now: int)
      modifies this
      ensures Value() == DeleteDoc(old(Value()), docId, now)
    {
      var owner := OwnerOf(documents, docId);
      documents := Filter(documents, KeepsOtherDoc(docId));
      match owner {
        case Some(kbId) =>
          var i := IndexOfKb(knowledgeBases, kbId);
          if i >= 0 {
            knowledgeBases := knowledgeBases[i := knowledgeBases[i].(documentCount := CountOf(documents, kbId), updatedAt := now)];
          }
        case None =>
      }
    }
  }
}
