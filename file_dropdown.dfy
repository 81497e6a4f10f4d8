/**
 * The file menu (src/components/FileDropdown.tsx): its search filter, the
 * label of its trigger button, and the menu state (open or closed, the search
 * text, the document being renamed and the title typed for it). Each handler
 * is a method of `FileDropdown` that may ask the parent for one callback.
 */
module FileDropdownMenu {
  import opened Wrappers
  import opened Text
  import opened Storage

  // ---------------------------------------------------------------------------
  // The search filter and the trigger label
  // ---------------------------------------------------------------------------

  /** `doc.title.toLowerCase().includes(searchQuery.toLowerCase())`. */
  predicate MatchesQuery(doc: Document, query: string) {
    Contains(ToLower(doc.title), ToLower(query))
  }

  /** The test `filteredDocuments` applies to each document. */
  function Matcher(query: string): Document -> bool {
    d => MatchesQuery(d, query)
  }

  /** `docs.filter(keep)`. */
  function Filter(docs: seq<Document>, keep: Document -> bool): (r: seq<Document>)
    ensures |r| <= |docs|
  {
    if docs == [] then []
    else if keep(docs[0]) then [docs[0]] + Filter(docs[1..], keep)
    else Filter(docs[1..], keep)
  }

  /** Filtering works entry by entry, so a concatenation is filtered part by part. */
  lemma {:induction false} FilterSplits(a: seq<Document>, b: seq<Document>, keep: Document -> bool)
    ensures Filter(a + b, keep) == Filter(a, keep) + Filter(b, keep)
  {
    if a != [] {
      FilterSplits(a[1..], b, keep);
      var w, v := Filter(a[1..], keep), Filter(b, keep);
      assert (a + b)[0] == a[0] && (a + b)[1..] == a[1..] + b;
      if keep(a[0]) {
        assert [a[0]] + (w + v) == ([a[0]] + w) + v;
      }
    } else {
      assert a + b == b;
    }
  }

  /** `filteredDocuments`: the documents whose title matches the query, in list order. */
  function FilteredDocuments(docs: seq<Document>, query: string): (r: seq<Document>)
    ensures |r| <= |docs|
  {
    Filter(docs, Matcher(query))
  }

  /** A document is listed exactly when it is in the list and its title matches. */
  lemma {:induction false} FilterMembership(docs: seq<Document>, query: string, d: Document)
    ensures d in FilteredDocuments(docs, query) <==> d in docs && MatchesQuery(d, query)
  {
    if docs != [] {
      FilterMembership(docs[1..], query, d);
      assert d in docs <==> d == docs[0] || d in docs[1..];
    }
  }

  /** The filter keeps the list order: filtering a concatenation filters each part. */
  lemma FilterConcat(a: seq<Document>, b: seq<Document>, query: string)
    ensures FilteredDocuments(a + b, query) == FilteredDocuments(a, query) + FilteredDocuments(b, query)
  {
    FilterSplits(a, b, Matcher(query));
  }

  /** An empty search lists every document. */
  lemma {:induction false} EmptyQueryKeepsAll(docs: seq<Document>)
    ensures FilteredDocuments(docs, "") == docs
  {
    if docs != [] {
      ContainsEmpty(ToLower(docs[0].title));
      EmptyQueryKeepsAll(docs[1..]);
    }
  }

  /** Lower-casing twice is lower-casing once. */
  lemma LowerIdempotent(s: string)
    ensures ToLower(ToLower(s)) == ToLower(s)
  {
    LowerUnchanged(ToLower(s));
  }

  /** The letter case of the query does not matter. */
  lemma {:induction false} QueryCaseIgnored(docs: seq<Document>, query: string)
    ensures FilteredDocuments(docs, ToLower(query)) == FilteredDocuments(docs, query)
  {
    LowerIdempotent(query);
    if docs != [] {
      QueryCaseIgnored(docs[1..], query);
    }
  }

  /** `documents.find((d) => d.id === currentDocId)`: nothing is found while there is no current id. */
  function CurrentDoc(docs: seq<Document>, currentDocId: Option<string>): (r: Option<Document>)
    ensures currentDocId.None? ==> r.None?
    ensures currentDocId.Some? ==> r == Find(docs, currentDocId.value)
  {
    match currentDocId
    case None => None
    case Some(id) => Find(docs, id)
  }

  const NoFileLabel := "Select file"

  /** `currentDoc?.title ?? 'Select file'`. */
  function TriggerLabel(docs: seq<Document>, currentDocId: Option<string>): string
  {
    match CurrentDoc(docs, currentDocId)
    case None => NoFileLabel
    case Some(d) => d.title
  }

  /**
   * The trigger shows the title of the listed current document, even an empty
   * one (`??` replaces only a missing document), and `Select file` otherwise.
   */
  lemma TriggerLabelSpec(docs: seq<Document>, currentDocId: Option<string>)
    ensures (exists i | 0 <= i < |docs| :: currentDocId == Some(docs[i].id)) ==>
              exists i | 0 <= i < |docs| :: docs[i].id == currentDocId.value && TriggerLabel(docs, currentDocId) == docs[i].title
    ensures (forall i | 0 <= i < |docs| :: currentDocId != Some(docs[i].id)) ==>
              TriggerLabel(docs, currentDocId) == NoFileLabel
  {
  }

  // ---------------------------------------------------------------------------
  // The menu state and its transitions
  // ---------------------------------------------------------------------------

  /** A callback into the parent component, or none. */
  datatype Callback = NoCall | OnSelect(id: string) | OnDelete(id: string) | OnRename(id: string, newTitle: string)

  datatype Menu = Menu(isOpen: bool, searchQuery: string, editingId: Option<string>, editingTitle: string)

  const Initial := Menu(false, "", None, "")

  /** `editingId` is truthy: present and not the empty string. */
  predicate Editing(editingId: Option<string>) {
    editingId.Some? && editingId.value != ""
  }

  /** The trigger button flips the menu open or closed; nothing else changes. */
  function Toggled(m: Menu): Menu {
    m.(isOpen := !m.isOpen)
  }

  /** `handleSelect`: close the menu and clear the search. */
  function Selected(m: Menu): Menu {
    m.(isOpen := false, searchQuery := "")
  }

  /** A click outside the menu, or on its backdrop: close, clear the search, stop renaming. */
  function Dismissed(m: Menu): Menu {
    m.(isOpen := false, searchQuery := "", editingId := None)
  }

  /** `handleEditStart(doc)`. */
  function EditStarted(m: Menu, doc: Document): Menu {
    m.(editingId := Some(doc.id), editingTitle := doc.title)
  }

  /** `handleEditCancel`, and `handleEditSave` once past its callback. */
  function EditEnded(m: Menu): Menu {
    m.(editingId := None, editingTitle := "")
  }

  /** The callback `handleEditSave` makes: a rename to the trimmed title, unless it is blank. */
  function SaveCall(m: Menu): (c: Callback)
    ensures c.NoCall? <==> !Editing(m.editingId) || AllWhitespace(m.editingTitle)
    ensures c.OnRename? ==> c.id == m.editingId.value && c.newTitle == Trim(m.editingTitle)
    ensures !c.OnSelect? && !c.OnDelete?
  {
    if Editing(m.editingId) && Trim(m.editingTitle) != [] then OnRename(m.editingId.value, Trim(m.editingTitle))
    else NoCall
  }

  /** A rename never asks for a blank title, nor for one with whitespace at either end. */
  lemma RenameTitleIsTrimmed(m: Menu)
    requires SaveCall(m).OnRename?
    ensures var t := SaveCall(m).newTitle;
            t != [] && !IsWhitespace(t[0]) && !IsWhitespace(t[|t| - 1])
  {
  }

  /** Starting to rename a document and saving at once renames it to its own trimmed title. */
  lemma SaveRightAfterStart(m: Menu, doc: Document)
    requires doc.id != "" && !AllWhitespace(doc.title)
    ensures SaveCall(EditStarted(m, doc)) == OnRename(doc.id, Trim(doc.title))
  {
  }

  /** After a cancel, or after a save, a further save asks for nothing. */
  lemma NothingToSaveAfterEnd(m: Menu)
    ensures SaveCall(EditEnded(m)) == NoCall
    ensures EditEnded(EditEnded(m)) == EditEnded(m)
  {
  }

  /** A dismissal stops renaming but keeps the typed title; starting a new rename replaces it. */
  lemma DismissKeepsTypedTitle(m: Menu, doc: Document)
    ensures Dismissed(m).editingTitle == m.editingTitle && SaveCall(Dismissed(m)) == NoCall
    ensures EditStarted(Dismissed(m), doc).editingTitle == doc.title
  {
  }

  /** Two clicks on the trigger restore the menu, the search text included. */
  lemma ToggleTwice(m: Menu)
    ensures Toggled(Toggled(m)) == m
  {
  }

  /** Closing by the trigger keeps the search text; closing by a selection or a dismissal clears it. */
  lemma WhichClosingsClearSearch(m: Menu)
    requires m.isOpen
    ensures !Toggled(m).isOpen && Toggled(m).searchQuery == m.searchQuery
    ensures !Selected(m).isOpen && Selected(m).searchQuery == ""
    ensures !Dismissed(m).isOpen && Dismissed(m).searchQuery == ""
  {
  }

  // ---------------------------------------------------------------------------
  // The component
  // ---------------------------------------------------------------------------

  class FileDropdown {
    var isOpen: bool
    var searchQuery: string
    var editingId: Option<string>
    var editingTitle: string

    function State(): Menu
      reads this
    {
      Menu(isOpen, searchQuery, editingId, editingTitle)
    }

    /** The initial state: closed, no search, no rename. */
    constructor ()
      ensures State() == Initial
    {
      isOpen := false;
      searchQuery := "";
      editingId := None;
      editingTitle := "";
    }

    method ToggleOpen()
      modifies this
      ensures State() == Toggled(old(State()))
    {
      isOpen := !isOpen;
    }

    method SetSearchQuery(query: string)
      modifies this
      ensures State() == old(State()).(searchQuery := query)
    {
      searchQuery := query;
    }

    method SetEditingTitle(title: string)
      modifies this
      ensures State() == old(State()).(editingTitle := title)
    {
      editingTitle := title;
    }

    method HandleSelect(id: string) returns (call: Callback)
      modifies this
      ensures call == OnSelect(id)
      ensures State() == Selected(old(State()))
    {
      call := OnSelect(id);
      isOpen := false;
      searchQuery := "";
    }

    /** A click on a listed document selects it, unless a rename is in progress. */
    method ItemClick(id: string) returns (call: Callback)
      modifies this
      ensures Editing(old(editingId)) ==> call == NoCall && State() == old(State())
      ensures !Editing(old(editingId)) ==> call == OnSelect(id) && State() == Selected(old(State()))
    {
      call := NoCall;
      if !(editingId.Some? && editingId.value != "") {
        call := HandleSelect(id);
      }
    }

    /** `handleDelete`: `confirmed` is the answer to the confirmation dialog. */
    method HandleDelete(id: string, confirmed: bool) returns (call: Callback)
      ensures call == (if confirmed then OnDelete(id) else NoCall)
    {
      call := if confirmed then OnDelete(id) else NoCall;
    }

    method HandleEditStart(doc: Document)
      modifies this
      ensures State() == EditStarted(old(State()), doc)
    {
      editingId := Some(doc.id);
      editingTitle := doc.title;
    }

    method HandleEditSave() returns (call: Callback)
      modifies this
      ensures call == SaveCall(old(State()))
      ensures State() == EditEnded(old(State()))
    {
      call := NoCall;
      if editingId.Some? && editingId.value != "" {
        var trimmed := Trim(editingTitle);
        if trimmed != [] {
          call := OnRename(editingId.value, trimmed);
        }
      }
      editingId := None;
      editingTitle := "";
    }

    method HandleEditCancel()
      modifies this
      ensures State() == EditEnded(old(State()))
    {
      editingId := None;
      editingTitle := "";
    }

    /** Only the Escape key cancels the rename. */
    method HandleEditKeyDown(key: string)
      modifies this
      ensures State() == if key == "Escape" then EditEnded(old(State())) else old(State())
    {
      if key == "Escape" {
        HandleEditCancel();
      }
    }

    /** A mouse-down or touch-start anywhere in the page; `inside` says whether it hit the menu. */
    method HandleClickOutside(inside: bool)
      modifies this
      ensures State() == if inside then old(State()) else Dismissed(old(State()))
    {
      if !inside {
        isOpen := false;
        searchQuery := "";
        editingId := None;
      }
    }

    method BackdropClick()
      modifies this
      ensures State() == Dismissed(old(State()))
    {
      isOpen := false;
      searchQuery := "";
      editingId := None;
    }
  }
}
