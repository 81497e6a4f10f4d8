/**
 * The document store hook (src/state/useDocumentStore.ts): the open document,
 * the list shown in the file menu, the loading flag, the one debounced write
 * waiting for its timer, and the id of the last document remembered in
 * `localStorage`. Every operation of the hook is a method of `Store`, proved
 * to leave the state that a function of the old state describes; the lemmas
 * below state what those functions guarantee.
 *
 * `freshId` stands for `generateId()` and `now` for `Date.now()`. One `Faults`
 * value describes every storage call that one operation makes.
 */
module DocumentStore {
  import opened Wrappers
  import opened Text
  import opened Titles
  import opened Storage

  const UntitledTitle := "Untitled"
  const WelcomeContent := "# Welcome to MD Reader\n\nStart writing your Markdown here...\n"

  /** The state of one session of the hook, together with what storage holds. */
  datatype Session = Session(
    backends: Backends,
    document: Option<Document>,
    documents: seq<Document>,
    isLoading: bool,
    pending: Option<Document>,
    lastDocId: Option<string>)

  ghost predicate WellFormed(s: Session) {
    KeyedById(s.backends.primary)
  }

  /** `if (lastDocId)`: a remembered id counts only when it is present and not empty. */
  predicate Remembered(lastDocId: Option<string>) {
    lastDocId.Some? && lastDocId.value != ""
  }

  // ---------------------------------------------------------------------------
  // Editing the open document
  // ---------------------------------------------------------------------------

  /** Whether an edit to `content` replaces the title with one generated from it. */
  predicate Retitles(title: string, content: string) {
    title == UntitledTitle && Trim(content) != []
  }

  /** The document `updateContent(content)` makes of `prev`. */
  function ContentEdited(prev: Document, content: string, now: nat): (d: Document)
    ensures d.id == prev.id && d.content == content && d.updatedAt == now
    ensures Retitles(prev.title, content) ==> d.title == GenerateTitle(content, now)
    ensures !Retitles(prev.title, content) ==> d.title == prev.title
  {
    var title := if Retitles(prev.title, content) then GenerateTitle(content, now) else prev.title;
    prev.(content := content, title := title, updatedAt := now)
  }

  /** The document `updateTitle(title)` makes of `prev`. */
  function TitleEdited(prev: Document, title: string, now: nat): (d: Document)
    ensures d.id == prev.id && d.content == prev.content && d.title == title && d.updatedAt == now
  {
    prev.(title := title, updatedAt := now)
  }

  /** Editing the same content twice at the same time changes nothing the first edit did not. */
  lemma ContentEditIdempotent(prev: Document, content: string, now: nat)
    ensures ContentEdited(ContentEdited(prev, content, now), content, now) == ContentEdited(prev, content, now)
  {
  }

  /** A document whose title is not `Untitled` keeps it through any content edit. */
  lemma TitleKeptByContentEdits(prev: Document, content: string, now: nat)
    requires prev.title != UntitledTitle
    ensures ContentEdited(prev, content, now).title == prev.title
  {
  }

  /** Blank content never names a document. */
  lemma BlankContentKeepsTitle(prev: Document, content: string, now: nat)
    requires AllWhitespace(content)
    ensures ContentEdited(prev, content, now).title == prev.title
  {
  }

  /** An automatic title is non-blank text without formatting characters or newlines. */
  lemma AutomaticTitleIsClean(prev: Document, content: string, now: nat)
    requires Retitles(prev.title, content)
    ensures ContentEdited(prev, content, now).title != []
    ensures CleanText(ContentEdited(prev, content, now).title)
  {
    TitleIsClean(content, now);
  }

  /** A title set by hand survives every later content edit unless it is `Untitled`. */
  lemma ManualTitleSticks(prev: Document, title: string, t1: nat, content: string, t2: nat)
    requires title != UntitledTitle
    ensures ContentEdited(TitleEdited(prev, title, t1), content, t2).title == title
  {
  }

  // ---------------------------------------------------------------------------
  // The operations as functions of the session
  // ---------------------------------------------------------------------------

  /** `refreshDocuments`: the menu shows what `getAllDocuments` returns. */
  function Refreshed(s: Session, served: bool): (r: Session)
    requires WellFormed(s)
    ensures WellFormed(r) && r.documents == Listing(s.backends, served)
    ensures r.(documents := s.documents) == s
  {
    s.(documents := Listing(s.backends, served))
  }

  /** Which stored document the start-up load opens, if any: the remembered one, else the most recent. */
  function StartupChoice(b: Backends, served: bool, lastDocId: Option<string>): Option<Document>
    requires KeyedById(b.primary)
  {
    var remembered := if Remembered(lastDocId) then Lookup(b, served, lastDocId.value) else None;
    if remembered.Some? then remembered else LastDocument(b, served)
  }

  /** The document created when storage holds none. */
  function WelcomeDocument(freshId: string, now: nat): Document {
    Document(freshId, UntitledTitle, WelcomeContent, now)
  }

  /** The document the load on mount opens: a stored one, or a welcome document saved at once. */
  function StartupOpened(s: Session, served: bool, writeFails: bool, freshId: string, now: nat): (r: Session)
    requires WellFormed(s)
    ensures WellFormed(r)
  {
    var chosen := StartupChoice(s.backends, served, s.lastDocId);
    if chosen.Some? then s.(document := chosen)
    else
      var w := WelcomeDocument(freshId, now);
      s.(backends := Saved(s.backends, served, w, writeFails), lastDocId := Some(w.id), document := Some(w))
  }

  /** The load effect on mount: open a document, refresh the menu, stop loading. */
  function Started(s: Session, served: bool, writeFails: bool, freshId: string, now: nat): (r: Session)
    requires WellFormed(s)
    ensures WellFormed(r)
  {
    Refreshed(StartupOpened(s, served, writeFails, freshId, now), served).(isLoading := false)
  }

  /** `debouncedSave(doc)`: the timer set before is cleared, so only `doc` waits to be written. */
  function Scheduled(s: Session, doc: Document): Session {
    s.(pending := Some(doc))
  }

  /** The debounce timer elapses: the waiting document is saved and remembered as the last one. */
  function Fired(s: Session, served: bool, writeFails: bool): (r: Session)
    requires WellFormed(s)
    ensures WellFormed(r) && r.pending.None?
  {
    match s.pending
    case None => s
    case Some(d) => s.(backends := Saved(s.backends, served, d, writeFails), lastDocId := Some(d.id), pending := None)
  }

  /** A document opened in the editor and scheduled for its first save. */
  function Displayed(s: Session, doc: Document): Session {
    Scheduled(s.(document := Some(doc)), doc)
  }

  /** `createNewDocument`. */
  function Created(s: Session, freshId: string, now: nat): Session {
    Displayed(s, Document(freshId, UntitledTitle, "", now))
  }

  /** `loadFromFile(content, filename)`: the title is the file name without its markdown extension. */
  function FileLoaded(s: Session, content: string, filename: string, freshId: string, now: nat): Session {
    Displayed(s, Document(freshId, StripMarkdownExtension(filename), content, now))
  }

  /** `updateContent(content)`: nothing happens while no document is open. */
  function ContentUpdated(s: Session, content: string, now: nat): Session {
    match s.document
    case None => s
    case Some(prev) => Displayed(s, ContentEdited(prev, content, now))
  }

  /** `updateTitle(title)`: nothing happens while no document is open. */
  function TitleUpdated(s: Session, title: string, now: nat): Session {
    match s.document
    case None => s
    case Some(prev) => Displayed(s, TitleEdited(prev, title, now))
  }

  /** `loadDocument(id)`: a found document is opened and remembered; otherwise nothing changes. */
  function DocumentLoaded(s: Session, served: bool, id: string): Session
    requires WellFormed(s)
  {
    match Lookup(s.backends, served, id)
    case None => s
    case Some(d) => s.(document := Some(d), lastDocId := Some(d.id))
  }

  /** The empty document that replaces the last one deleted. */
  function ReplacementDocument(freshId: string, now: nat): Document {
    Document(freshId, UntitledTitle, "", now)
  }

  /**
   * `deleteDocument(id)`: delete, refresh; when the open document was deleted,
   * open the most recent remaining one, or save and open a new empty one.
   */
  function DeletedFrom(s: Session, served: bool, writeFails: bool, id: string, freshId: string, now: nat): (r: Session)
    requires WellFormed(s)
    ensures WellFormed(r)
  {
    var gone := Refreshed(s.(backends := Deleted(s.backends, served, id, writeFails)), served);
    if s.document.None? || s.document.value.id != id then gone
    else Succeeded(gone, served, writeFails, freshId, now)
  }

  /** The document opened after the open one is deleted: the first listed, or a new empty one saved at once. */
  function Succeeded(s: Session, served: bool, writeFails: bool, freshId: string, now: nat): (r: Session)
    requires WellFormed(s)
    ensures WellFormed(r)
  {
    var docs := Listing(s.backends, served);
    if docs != [] then s.(document := Some(docs[0]), lastDocId := Some(docs[0].id))
    else
      var n := ReplacementDocument(freshId, now);
      var saved := s.(backends := Saved(s.backends, served, n, writeFails), lastDocId := Some(n.id), document := Some(n));
      Refreshed(saved, served)
  }

  // ---------------------------------------------------------------------------
  // What the operations guarantee
  // ---------------------------------------------------------------------------

  /** The start-up load reopens the remembered document whenever storage still has it. */
  lemma StartupReopensRemembered(b: Backends, served: bool, lastDocId: Option<string>)
    requires KeyedById(b.primary) && Remembered(lastDocId)
    requires Lookup(b, served, lastDocId.value).Some?
    ensures StartupChoice(b, served, lastDocId) == Lookup(b, served, lastDocId.value)
  {
  }

  /**
   * Without a usable remembered id the start-up load opens the first listed
   * document, which is the most recently updated one when IndexedDB answers.
   */
  lemma StartupFallsBackToMostRecent(b: Backends, served: bool, lastDocId: Option<string>)
    requires KeyedById(b.primary)
    requires !Remembered(lastDocId) || Lookup(b, served, lastDocId.value).None?
    ensures StartupChoice(b, served, lastDocId) == LastDocument(b, served)
  {
  }

  /** A welcome document is created exactly when storage lists no document. */
  lemma StartupCreatesOnlyWhenEmpty(b: Backends, served: bool, lastDocId: Option<string>)
    requires KeyedById(b.primary)
    ensures StartupChoice(b, served, lastDocId).None? <==> Listing(b, served) == []
    ensures StartupChoice(b, served, lastDocId).Some? ==> StartupChoice(b, served, lastDocId).value in Listing(b, served)
  {
    if Remembered(lastDocId) {
      LookupListed(b, served, lastDocId.value);
    }
    if Listing(b, served) != [] {
      assert LastDocument(b, served).Some?;
    }
  }

  /**
   * After start-up a document is open, loading is over and the menu shows the
   * listing; when the welcome document had to be created and its save reached
   * a backend, it is the one document listed and the one remembered.
   */
  lemma StartupOutcome(s: Session, served: bool, writeFails: bool, freshId: string, now: nat)
    requires WellFormed(s)
    ensures var r := Started(s, served, writeFails, freshId, now);
            && r.document.Some? && !r.isLoading
            && r.documents == Listing(r.backends, served)
            && r.pending == s.pending
    ensures var r := Started(s, served, writeFails, freshId, now);
            Listing(s.backends, served) == [] && (served || !writeFails) ==>
              r.documents == [WelcomeDocument(freshId, now)] && r.lastDocId == Some(freshId)
    ensures var r := Started(s, served, writeFails, freshId, now);
            Listing(s.backends, served) != [] ==> r.backends == s.backends && r.document.value in r.documents
  {
    StartupCreatesOnlyWhenEmpty(s.backends, served, s.lastDocId);
    if Listing(s.backends, served) == [] && (served || !writeFails) {
      SaveIntoEmpty(s.backends, served, WelcomeDocument(freshId, now), writeFails);
    }
  }

  /** Only the last of several quick saves is written: a new schedule replaces the waiting one. */
  lemma LastScheduledWins(s: Session, d1: Document, d2: Document, served: bool, writeFails: bool)
    requires WellFormed(s)
    ensures Fired(Scheduled(Scheduled(s, d1), d2), served, writeFails) == Fired(Scheduled(s, d2), served, writeFails)
  {
  }

  /** Once the timer fires, an edited document can be read back from storage. */
  lemma EditPersists(s: Session, content: string, now: nat, served: bool, writeFails: bool)
    requires WellFormed(s) && s.document.Some?
    requires served || !writeFails
    ensures var r := Fired(ContentUpdated(s, content, now), served, writeFails);
            var d := ContentEdited(s.document.value, content, now);
            && r.document == Some(d)
            && Lookup(r.backends, served, d.id) == Some(d)
            && r.lastDocId == Some(d.id)
  {
    SaveThenLookup(s.backends, served, ContentEdited(s.document.value, content, now), writeFails);
  }

  /** Two edits in one debounce window write only the result of both. */
  lemma QuickEditsWriteOnce(s: Session, c1: string, t1: nat, c2: string, t2: nat, served: bool, writeFails: bool)
    requires WellFormed(s) && s.document.Some?
    ensures var d := ContentEdited(ContentEdited(s.document.value, c1, t1), c2, t2);
            Fired(ContentUpdated(ContentUpdated(s, c1, t1), c2, t2), served, writeFails).backends
              == Saved(s.backends, served, d, writeFails)
  {
  }

  /** Edits while no document is open leave the whole session as it was. */
  lemma EditsNeedADocument(s: Session, content: string, title: string, now: nat)
    requires s.document.None?
    ensures ContentUpdated(s, content, now) == s
    ensures TitleUpdated(s, title, now) == s
  {
  }

  /**
   * An imported file is opened at once under its file name without the
   * extension, and once the timer fires storage holds its content unchanged.
   */
  lemma ImportedFileIsSaved(s: Session, content: string, filename: string, freshId: string, now: nat, served: bool, writeFails: bool)
    requires WellFormed(s)
    requires served || !writeFails
    ensures var d := Document(freshId, StripMarkdownExtension(filename), content, now);
            var r := Fired(FileLoaded(s, content, filename, freshId, now), served, writeFails);
            && FileLoaded(s, content, filename, freshId, now).document == Some(d)
            && r.document == Some(d) && r.lastDocId == Some(freshId)
            && Lookup(r.backends, served, freshId) == Some(d)
  {
    SaveThenLookup(s.backends, served, Document(freshId, StripMarkdownExtension(filename), content, now), writeFails);
  }

  /** A document saved by the timer is the one `loadDocument` opens again. */
  lemma SavedDocumentLoads(s: Session, served: bool, writeFails: bool)
    requires WellFormed(s) && s.pending.Some?
    requires served || !writeFails
    ensures var r := DocumentLoaded(Fired(s, served, writeFails), served, s.pending.value.id);
            r.document == s.pending && r.lastDocId == Some(s.pending.value.id)
  {
    SaveThenLookup(s.backends, served, s.pending.value, writeFails);
  }

  /** Loading an id storage does not have changes nothing. */
  lemma LoadMissingKeepsSession(s: Session, served: bool, id: string)
    requires WellFormed(s) && Lookup(s.backends, served, id).None?
    ensures DocumentLoaded(s, served, id) == s
  {
  }

  /**
   * After a delete the menu shows the refreshed listing, a document stays open
   * when one was, and a document other than the open one leaves it open.
   */
  lemma DeleteOutcome(s: Session, served: bool, writeFails: bool, id: string, freshId: string, now: nat)
    requires WellFormed(s)
    ensures var r := DeletedFrom(s, served, writeFails, id, freshId, now);
            && r.documents == Listing(r.backends, served)
            && (s.document.Some? ==> r.document.Some?)
            && r.pending == s.pending && r.isLoading == s.isLoading
    ensures s.document.None? || s.document.value.id != id ==>
              DeletedFrom(s, served, writeFails, id, freshId, now).document == s.document
  {
  }

  /**
   * When the deletion of the open document reaches a backend, the document
   * opened in its place is a different one (the replacement's fresh id being
   * new), and the deleted id can no longer be looked up.
   */
  lemma DeleteMovesOn(s: Session, served: bool, writeFails: bool, id: string, freshId: string, now: nat)
    requires WellFormed(s) && s.document.Some? && s.document.value.id == id
    requires served || !writeFails
    requires freshId != id
    ensures var r := DeletedFrom(s, served, writeFails, id, freshId, now);
            r.document.Some? && r.document.value.id != id && Lookup(r.backends, served, id) == None
  {
    var gone := Deleted(s.backends, served, id, writeFails);
    DeleteThenLookup(s.backends, served, id, writeFails, id);
    var docs := Listing(gone, served);
    if docs != [] {
      NotListedWhenMissing(gone, served, id, docs[0]);
    } else {
      SaveKeepsOthers(gone, served, ReplacementDocument(freshId, now), writeFails, id);
    }
  }

  /**
   * Deleting the open document opens the first document of the refreshed
   * listing and remembers its id; on IndexedDB that is a most recently updated
   * one. With nothing left, a new empty `Untitled` document is opened and
   * remembered, and once its save reaches a backend it is the one document
   * listed.
   */
  lemma DeleteSuccessor(s: Session, served: bool, writeFails: bool, id: string, freshId: string, now: nat)
    requires WellFormed(s) && s.document.Some? && s.document.value.id == id
    ensures var r := DeletedFrom(s, served, writeFails, id, freshId, now);
            var docs := Listing(Deleted(s.backends, served, id, writeFails), served);
            docs != [] ==> r.document == Some(docs[0]) && r.lastDocId == Some(docs[0].id) && r.documents == docs
    ensures var r := DeletedFrom(s, served, writeFails, id, freshId, now);
            var docs := Listing(Deleted(s.backends, served, id, writeFails), served);
            var n := ReplacementDocument(freshId, now);
            docs == [] ==>
              && r.document == Some(n) && r.lastDocId == Some(freshId)
              && ((served || !writeFails) ==> r.documents == [n])
    ensures var gone := Deleted(s.backends, served, id, writeFails);
            var docs := Listing(gone, served);
            served && docs != [] ==> forall k :: k in gone.primary ==> gone.primary[k].updatedAt <= docs[0].updatedAt
  {
    var gone := Deleted(s.backends, served, id, writeFails);
    var docs := Listing(gone, served);
    if docs == [] && (served || !writeFails) {
      SaveIntoEmpty(gone, served, ReplacementDocument(freshId, now), writeFails);
    }
    if served && docs != [] {
      RecencyOrder(gone.primary);
      RecencyHead(gone.primary);
    }
  }

  /**
   * Creating a document, or importing a file, replaces the waiting debounced
   * write: an edit of the open document made just before is never saved, and
   * once the timer fires storage still holds that document as it was before
   * the edit.
   */
  lemma DisplayDropsPendingEdit(s: Session, content: string, now: nat, freshId: string, t: nat,
                                text: string, filename: string, served: bool, writeFails: bool)
    requires WellFormed(s) && s.document.Some? && freshId != s.document.value.id
    ensures var id, edited := s.document.value.id, ContentUpdated(s, content, now);
            Lookup(Fired(Created(edited, freshId, t), served, writeFails).backends, served, id)
              == Lookup(s.backends, served, id)
    ensures var id, edited := s.document.value.id, ContentUpdated(s, content, now);
            Lookup(Fired(FileLoaded(edited, text, filename, freshId, t), served, writeFails).backends, served, id)
              == Lookup(s.backends, served, id)
  {
    var id := s.document.value.id;
    SaveKeepsOthers(s.backends, served, Document(freshId, UntitledTitle, "", t), writeFails, id);
    SaveKeepsOthers(s.backends, served, Document(freshId, StripMarkdownExtension(filename), text, t), writeFails, id);
  }

  /** A listed document does not carry an id that a lookup misses. */
  lemma NotListedWhenMissing(b: Backends, served: bool, id: string, d: Document)
    requires KeyedById(b.primary) && Lookup(b, served, id).None? && d in Listing(b, served)
    ensures d.id != id
  {
    if served {
      RecencyOrder(b.primary);
    } else {
      var docs := FromLocalStorage(b.local);
      var i :| 0 <= i < |docs| && docs[i] == d;
      assert Find(docs, id).None?;
    }
  }

  /**
   * The debounced write is not cancelled by a delete: a document deleted while
   * its edit waits for the timer is written back when the timer fires.
   */
  lemma PendingWriteOutlivesDelete(s: Session, served: bool, writeFails: bool, freshId: string, now: nat)
    requires WellFormed(s) && s.pending.Some?
    requires served || !writeFails
    ensures var d := s.pending.value;
            var r := Fired(DeletedFrom(s, served, writeFails, d.id, freshId, now), served, writeFails);
            Lookup(r.backends, served, d.id) == Some(d)
  {
    var r := DeletedFrom(s, served, writeFails, s.pending.value.id, freshId, now);
    SaveThenLookup(r.backends, served, s.pending.value, writeFails);
  }

  // ---------------------------------------------------------------------------
  // The hook's state
  // ---------------------------------------------------------------------------

  class Store {
    /** The storage module, with the lazily opened connection and the two backends. */
    const db: DocumentDb
    var document: Option<Document>
    var documents: seq<Document>
    var isLoading: bool
    /** The document the armed debounce timer will save (`debounceRef`). */
    var pending: Option<Document>
    /** `localStorage['mdreader-last-document-id']`. */
    var lastDocId: Option<string>

    ghost predicate Valid()
      reads this, db
    {
      db.Valid()
    }

    function Snapshot(): Session
      reads this, db
    {
      Session(db.backends, document, documents, isLoading, pending, lastDocId)
    }

    /** The hook's initial state: no document, an empty menu, loading. */
    constructor (db: DocumentDb, lastDocId: Option<string>)
      requires db.Valid()
      ensures Valid() && this.db == db
      ensures Snapshot() == Session(db.backends, None, [], true, None, lastDocId)
    {
      this.db := db;
      document := None;
      documents := [];
      isLoading := true;
      pending := None;
      this.lastDocId := lastDocId;
    }

    method RefreshDocuments(f: Faults)
      requires Valid()
      modifies this`documents, db`handle
      ensures Valid()
      ensures db.handle == old(db.HandleAfterCall(f))
      ensures Snapshot() == Refreshed(old(Snapshot()), old(db.ServedByPrimary(f)))
    {
      documents := db.GetAllDocuments(f);
    }

    /** The effect run on mount. */
    method Load(f: Faults, freshId: string, now: nat)
      requires Valid()
      modifies this, db
      ensures Valid()
      ensures db.handle == old(db.HandleAfterCall(f))
      ensures Snapshot() == Started(old(Snapshot()), old(db.ServedByPrimary(f)), f.localWriteFails, freshId, now)
    {
      OpenStartupDocument(f, freshId, now);
      RefreshDocuments(f);
      isLoading := false;
    }

    /** The first part of the effect on mount: choose, or create, the document to open. */
    method OpenStartupDocument(f: Faults, freshId: string, now: nat)
      requires Valid()
      modifies this, db
      ensures Valid()
      ensures db.handle == old(db.HandleAfterCall(f))
      ensures Snapshot() == StartupOpened(old(Snapshot()), old(db.ServedByPrimary(f)), f.localWriteFails, freshId, now)
    {
      var doc := ChooseStartupDocument(f);
      if doc.Some? {
        document := doc;
      } else {
        var newDoc := Document(freshId, UntitledTitle, WelcomeContent, now);
        db.SaveDocument(newDoc, f);
        lastDocId := Some(newDoc.id);
        document := Some(newDoc);
      }
    }

    /** The stored document the effect on mount opens, if any. */
    method ChooseStartupDocument(f: Faults) returns (doc: Option<Document>)
      requires Valid()
      modifies db`handle
      ensures Valid() && db.backends == old(db.backends)
      ensures db.handle == old(db.HandleAfterCall(f))
      ensures doc == StartupChoice(db.backends, old(db.ServedByPrimary(f)), lastDocId)
    {
      ghost var served := db.ServedByPrimary(f);
      doc := None;
      if lastDocId.Some? && lastDocId.value != "" {
        doc := db.GetDocument(lastDocId.value, f);
        assert db.ServedByPrimary(f) == served;
      }
      if doc.None? {
        doc := db.GetLastDocument(f);
      }
    }

    method DebouncedSave(doc: Document)
      modifies this`pending
      ensures pending == Some(doc)
    {
      pending := Some(doc);
    }

    /** The debounce timer elapses. */
    method Fire(f: Faults)
      requires Valid()
      modifies this, db
      ensures Valid()
      ensures old(pending).Some? ==> db.handle == old(db.HandleAfterCall(f))
      ensures old(pending).None? ==> db.handle == old(db.handle)
      ensures Snapshot() == Fired(old(Snapshot()), old(db.ServedByPrimary(f)), f.localWriteFails)
    {
      if pending.Some? {
        var doc := pending.value;
        db.SaveDocument(doc, f);
        lastDocId := Some(doc.id);
        pending := None;
      }
    }

    method CreateNewDocument(freshId: string, now: nat)
      modifies this
      ensures Snapshot() == Created(old(Snapshot()), freshId, now)
    {
      var newDoc := Document(freshId, UntitledTitle, "", now);
      document := Some(newDoc);
      DebouncedSave(newDoc);
    }

    method UpdateContent(content: string, now: nat)
      modifies this
      ensures Snapshot() == ContentUpdated(old(Snapshot()), content, now)
    {
      if document.Some? {
        var updated := ContentEdited(document.value, content, now);
        DebouncedSave(updated);
        document := Some(updated);
      }
    }

    method UpdateTitle(title: string, now: nat)
      modifies this
      ensures Snapshot() == TitleUpdated(old(Snapshot()), title, now)
    {
      if document.Some? {
        var updated := TitleEdited(document.value, title, now);
        DebouncedSave(updated);
        document := Some(updated);
      }
    }

    method LoadFromFile(content: string, filename: string, freshId: string, now: nat)
      modifies this
      ensures Snapshot() == FileLoaded(old(Snapshot()), content, filename, freshId, now)
    {
      var newDoc := Document(freshId, StripMarkdownExtension(filename), content, now);
      document := Some(newDoc);
      DebouncedSave(newDoc);
    }

    method LoadDocument(id: string, f: Faults)
      requires Valid()
      modifies this, db`handle
      ensures Valid()
      ensures db.handle == old(db.HandleAfterCall(f))
      ensures Snapshot() == DocumentLoaded(old(Snapshot()), old(db.ServedByPrimary(f)), id)
    {
      var doc := db.GetDocument(id, f);
      if doc.Some? {
        document := doc;
        lastDocId := Some(doc.value.id);
      }
    }

    method DeleteDocument(id: string, f: Faults, freshId: string, now: nat)
      requires Valid()
      modifies this, db
      ensures Valid()
      ensures db.handle == old(db.HandleAfterCall(f))
      ensures Snapshot() == DeletedFrom(old(Snapshot()), old(db.ServedByPrimary(f)), f.localWriteFails, id, freshId, now)
    {
      db.DeleteDocument(id, f);
      RefreshDocuments(f);
      if document.Some? && document.value.id == id {
        OpenSuccessor(f, freshId, now);
      }
    }

    /** The part of `deleteDocument` that runs when the open document was the one deleted. */
    method OpenSuccessor(f: Faults, freshId: string, now: nat)
      requires Valid()
      modifies this, db
      ensures Valid()
      ensures db.handle == old(db.HandleAfterCall(f))
      ensures Snapshot() == Succeeded(old(Snapshot()), old(db.ServedByPrimary(f)), f.localWriteFails, freshId, now)
    {
      var docs := db.GetAllDocuments(f);
      if |docs| > 0 {
        document := Some(docs[0]);
        lastDocId := Some(docs[0].id);
      } else {
        var newDoc := Document(freshId, UntitledTitle, "", now);
        db.SaveDocument(newDoc, f);
        lastDocId := Some(newDoc.id);
        document := Some(newDoc);
        RefreshDocuments(f);
      }
    }
  }
}
