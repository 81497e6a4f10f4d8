# MD Reader core in Dafny

A Dafny model of the logic of MD Reader, a browser Markdown editor that keeps
its documents in IndexedDB with a localStorage fallback. The model covers:

- **Storage** (`storage.dfy`, module `Storage`): the document record, the
  IndexedDB object store as a map keyed by id with its `by-updatedAt` index,
  the fallback list in localStorage, the lazily opened connection, and the
  try/catch fallthrough from one backend to the other. The `DocumentDb` class
  holds the connection state and both backends. Its methods are proved
  against the functions `Listing`, `Lookup`, `Saved`, `Deleted` and
  `LastDocument`.
- **The document store hook** (`document_store.dfy`, module `DocumentStore`):
  the open document, the menu's document list, the loading flag, the one
  debounced write waiting for its timer (`pending`), and the remembered last
  document id. The `Store` class has one method per operation of the hook:
  load on mount, create, update content, update title, load from file, load
  by id, delete, refresh, and the firing of the debounce timer. Each method is
  proved to leave the `Session` snapshot that a function of the old snapshot
  describes. The lemmas state what those functions guarantee.
- **Titles** (`titles.dfy`, module `Titles`): `generateTitleFromContent` as a
  chain of string functions, and the extension stripping of `loadFromFile`.
- **Settings** (`settings.dfy`, module `AppSettings`): the initial theme, view
  mode, scroll lock and mobile detection, plus the theme toggle of the shell.
- **File menu** (`file_dropdown.dfy`, module `FileDropdownMenu`): the
  case-insensitive filter, the trigger label, and the menu's four state
  fields. The `FileDropdown` class has one method per handler, returning the
  callback the handler makes.
- **Download name** (`file_operations.dfy`, module `FileOperations`) and
  **heading anchors** (`slug.dfy`, module `HeadingSlug`).
- `text.dfy` (module `Text`) holds the string primitives. These are
  JavaScript whitespace (`\s`, `trim`), ASCII lower-casing, prefix, suffix and
  substring tests, and decimal rendering.
- `wrappers.dfy` defines `Option`.

Inputs the program takes from the browser are parameters:

- the clock: `now`
- `generateId()`: `freshId`
- `confirm()`: `confirmed`
- the user agent, window width and touch support
- the colour-scheme query
- whether IndexedDB exists: `idbAvailable`
- the failures a storage call meets: `Faults`

A stored setting is `Some(text)`, and a missing key is `None`.

Where the end-to-end tests and the code disagree, the model follows the code:

- A new document is titled `Untitled`
  (src/state/useDocumentStore.ts:120), not the dated pattern expected at
  e2e/file-operations.spec.ts:148.
- On the localStorage path, `getLastDocument` returns the first stored entry,
  not the most recent one.

## Model

| member | source | states |
|---|---|---|
| Storage.FromLocalStorage | src/storage/indexedDb.ts:45-52 | A missing key and unparsable text both read as the empty list; a stored list is returned as stored. |
| Storage.ToLocalStorage | src/storage/indexedDb.ts:54-60 | After the write, the slot reads back the written list; when `setItem` throws, the slot reads as it did before. |
| Storage.FindIndex | src/storage/indexedDb.ts:100 | The result is the first index holding the id, or -1 exactly when no entry has it. |
| Storage.Find | src/storage/indexedDb.ts:81-86 | Nothing is found exactly when no entry has the id; otherwise the result is the first entry with that id. |
| Storage.Upserted | src/storage/indexedDb.ts:99-106 | No postcondition of its own; properties in UpsertedShape, UpsertThenFind and UpsertKeepsOthers. |
| Storage.UpsertedShape | src/storage/indexedDb.ts:99-106 | The upsert replaces the entry at the index `findIndex` reports, leaving the length and every other entry unchanged; with no such entry it appends `doc` at the end. |
| Storage.UpsertThenFind | src/storage/indexedDb.ts:99-106 | After the upsert, `find` by the saved id yields the saved document. |
| Storage.UpsertKeepsOthers | src/storage/indexedDb.ts:99-106 | The upsert does not change what `find` yields for any other id. |
| Storage.Without | src/storage/indexedDb.ts:119-121 | The filtered list is never longer than the list. |
| Storage.WithoutMembership | src/storage/indexedDb.ts:120 | An entry is in the filtered list exactly when it is in the list and its id differs from the deleted one. |
| Storage.WithoutConcat | src/storage/indexedDb.ts:120 | The filter works entry by entry, so the remaining entries keep their original order. |
| Storage.WithoutAbsent | src/storage/indexedDb.ts:120 | A list without the id comes back unchanged. |
| Storage.WithoutThenFind | src/storage/indexedDb.ts:119-121 | After the filter, the id is not found, and every other id is found as before. |
| Storage.LeastKey | src/storage/indexedDb.ts:29-30 | The chosen key is the one whose document comes first in the index: no other stored document precedes it by `updatedAt`, then id. |
| Storage.IndexOrder | src/storage/indexedDb.ts:66 | No postcondition of its own; properties in IndexOrderEnumerates and IndexOrderSorted. |
| Storage.IndexOrderEnumerates | src/storage/indexedDb.ts:66 | `getAllFromIndex` lists every stored document exactly once and nothing else. |
| Storage.IndexOrderSorted | src/storage/indexedDb.ts:29-30 | The index lists documents by ascending `updatedAt`, with ties broken by ascending id. |
| Storage.Reversed | src/storage/indexedDb.ts:67 | `reverse()` keeps the length and puts the entry at position `i` at position `n-1-i`. |
| Storage.RecencyOrder | src/storage/indexedDb.ts:66-67 | The reversed index still lists every stored document once, each one not older than the ones after it. |
| Storage.RecencyHead | src/storage/indexedDb.ts:124-127 | For a non-empty store, the head of the reversed index is a stored document that no stored document is newer than. |
| Storage.LastDocument | src/storage/indexedDb.ts:124-127 | Nothing is returned exactly when the listing is empty. From IndexedDB the result is a most recently updated document. From the fallback it is the first stored entry. |
| Storage.Listing | src/storage/indexedDb.ts:62-73 | No postcondition of its own: what `getAllDocuments` returns from the backend that serves it. Properties in RecencyOrder, LookupListed and SaveIntoEmpty. |
| Storage.Lookup | src/storage/indexedDb.ts:75-87 | No postcondition of its own: what `getDocument` returns. Properties in SaveThenLookup, SaveKeepsOthers, DeleteThenLookup and LookupListed. |
| Storage.Saved | src/storage/indexedDb.ts:89-107 | Saving on either path keeps the object store keyed by id. |
| Storage.Deleted | src/storage/indexedDb.ts:109-122 | Deleting on either path keeps the object store keyed by id. |
| Storage.SaveThenLookup | src/storage/indexedDb.ts:75-107 | Round trip: on the backend that served the save, `getDocument(doc.id)` returns `doc`, unless the localStorage write failed. |
| Storage.SaveKeepsOthers | src/storage/indexedDb.ts:89-107 | A save changes what `getDocument` returns for no other id. |
| Storage.DeleteThenLookup | src/storage/indexedDb.ts:75-122 | After a delete that reaches its backend, `getDocument(id)` returns nothing, and other ids are unaffected. |
| Storage.LookupListed | src/storage/indexedDb.ts:62-87 | What `getDocument` finds carries the requested id and is also in what `getAllDocuments` lists from the same backend. |
| Storage.SaveIntoEmpty | src/storage/indexedDb.ts:62-107 | Saving into a backend that lists nothing leaves exactly that one document listed. |
| Storage.AfterOpen | src/storage/indexedDb.ts:24-34 | `dbPromise ??= openDB(...)` opens at most once: an existing handle, resolved or rejected, is kept; a first open resolves exactly when it does not fail. |
| Storage.DocumentDb.constructor | src/storage/indexedDb.ts:24 | The module starts with no connection requested and the given backends. |
| Storage.DocumentDb.GetDb | src/storage/indexedDb.ts:26-34 | Moves the handle as `AfterOpen` says, and reports whether it is open. |
| Storage.DocumentDb.GetFromLocalStorage | src/storage/indexedDb.ts:45-52 | Returns `FromLocalStorage` of the slot and changes nothing. |
| Storage.DocumentDb.SaveToLocalStorage | src/storage/indexedDb.ts:54-60 | Replaces the slot as `ToLocalStorage` says and leaves the object store alone. |
| Storage.DocumentDb.GetAllDocuments | src/storage/indexedDb.ts:62-73 | Returns the reversed index when IndexedDB exists, opens and answers, and the fallback list otherwise; only the connection handle changes. |
| Storage.DocumentDb.GetDocument | src/storage/indexedDb.ts:75-87 | Returns the stored value under the id, or the first fallback entry with it, by the same branch rule; only the handle changes. |
| Storage.DocumentDb.SaveDocument | src/storage/indexedDb.ts:89-107 | Puts the document into the object store, or upserts it into the fallback list after a failure; the new state is `Saved` of the old. |
| Storage.DocumentDb.DeleteDocument | src/storage/indexedDb.ts:109-122 | Deletes from the object store, or filters the fallback list; the new state is `Deleted` of the old. |
| Storage.DocumentDb.GetLastDocument | src/storage/indexedDb.ts:124-127 | Returns `LastDocument` of the backend that serves the call. |
| Text.Trim | src/state/useDocumentStore.ts:35 | The trimmed text neither starts nor ends with whitespace, and it is empty exactly when the text is all whitespace. |
| Text.TrimIsSlice | src/state/useDocumentStore.ts:35 | The trimmed text is the slice of the text between its leading and its trailing whitespace, and everything cut off on either side is whitespace. |
| Text.TrimUnchanged | src/state/useDocumentStore.ts:35 | Text that neither starts nor ends with whitespace is its own trim. |
| Text.NatToString | src/state/useDocumentStore.ts:41 | The decimal rendering of the timestamp is non-empty and made of digits, with no leading zero unless it is `0` itself. |
| Text.NatToStringValue | src/state/useDocumentStore.ts:41 | Read back as decimal digits, the rendering denotes the timestamp. |
| Titles.StripHeadersFrom | src/state/useDocumentStore.ts:32 | No postcondition of its own; its properties are in StripHeadersNoHash, HeaderMarkerRemoved, LineKept and TerminatorRestartsLine. |
| Titles.StripHeaders | src/state/useDocumentStore.ts:32 | No postcondition of its own: the rule applied from a line start, as the `m` flag makes `^` match at the start of the content. Properties in StripHeadersNoHash, HeaderMarkerRemoved, LineKept, TerminatorRestartsLine and HashInsideLineKept. |
| Titles.StripHeadersNoHash | src/state/useDocumentStore.ts:32 | Text without `#` passes the header rule unchanged. |
| Titles.HeaderMarkerRemoved | src/state/useDocumentStore.ts:32 | At a line start, a `#` run and all the whitespace after it are removed; the scan continues at a line start exactly when that whitespace ended with a line terminator. |
| Titles.LineKept | src/state/useDocumentStore.ts:32 | `^` matches only at a line start: a line that does not start with `#` where the scan is at a line start is kept whole, any `#` inside it included, and the scan goes on mid-line. |
| Titles.TerminatorRestartsLine | src/state/useDocumentStore.ts:32 | With the `m` flag, a line terminator is kept and the text after it is at a line start. |
| Titles.HashInsideLineKept | src/state/useDocumentStore.ts:32 | `C# notes` passes the header rule unchanged. |
| Titles.RemoveFormatting | src/state/useDocumentStore.ts:33 | No formatting character remains. |
| Titles.RemoveFormattingMembership | src/state/useDocumentStore.ts:33 | A character is in the result exactly when it is in the text and is not a formatting character (`*`, `_`, the backtick, `~`, `[`, `]`, `(` or `)`). |
| Titles.RemoveFormattingConcat | src/state/useDocumentStore.ts:33 | The rule works character by character: on two joined pieces it gives the two results joined, so the order of what is kept is the text's order. |
| Titles.RemoveFormattingPlain | src/state/useDocumentStore.ts:33 | Text without formatting characters is unchanged. |
| Titles.CollapseNewlines | src/state/useDocumentStore.ts:34 | No newline remains, and text free of formatting characters stays free of them. |
| Titles.CollapseMembership | src/state/useDocumentStore.ts:34 | Every character of the result is a character of the text or a space. |
| Titles.CollapseNoNewline | src/state/useDocumentStore.ts:34 | Text without a newline is unchanged. |
| Titles.NewlineRunBecomesSpace | src/state/useDocumentStore.ts:34 | After newline-free text, a whole run of newlines becomes exactly one space and the rest is rewritten on its own. |
| Titles.CleanContent | src/state/useDocumentStore.ts:31-35 | The cleaned content holds no formatting character and no newline, and it is empty or starts and ends with a character other than whitespace. |
| Titles.CleanContentKeepsPlainLine | src/state/useDocumentStore.ts:31-35 | A single trimmed line without `#` and without formatting characters is its own cleaned content. |
| Titles.CleanContentKeepsLineWithInnerHash | src/state/useDocumentStore.ts:31-35 | A trimmed single line without formatting characters whose `#` are all after its start is its own cleaned content. |
| Titles.Words | src/state/useDocumentStore.ts:37 | Every word after the split and filter is non-empty and free of whitespace. |
| Titles.WordsOfBlank | src/state/useDocumentStore.ts:37 | Text made only of whitespace, the empty text included, has no words. |
| Titles.WordsOfGapThenWord | src/state/useDocumentStore.ts:37 | Whitespace, then a maximal run of non-whitespace, then the rest: the run is the first word and the rest gives the other words. Together with WordsOfBlank this fixes the words of every text as its maximal non-whitespace runs, in order. |
| Titles.WordsOfJoin | src/state/useDocumentStore.ts:37-38 | Round trip: splitting words joined by single spaces gives the words back. |
| Titles.JoinLength | src/state/useDocumentStore.ts:38-40 | Joined words are empty exactly when there are no words. |
| Titles.TitleWordsArePrefix | src/state/useDocumentStore.ts:37-38 | At most five words are taken, they are the first words of the cleaned content, and all of them are taken when there are fewer than five. |
| Titles.TitleWithoutWords | src/state/useDocumentStore.ts:40-42 | With no word left, the title is `Untitled-` followed by the timestamp. |
| Titles.TitleLength | src/state/useDocumentStore.ts:40-45 | With words left, the title is between 1 and 50 characters long. |
| Titles.ShortTitleIsFirstWords | src/state/useDocumentStore.ts:37-45 | A title of at most 50 characters splits back into exactly the first five words. |
| Titles.LongTitleIsCut | src/state/useDocumentStore.ts:45 | Longer text becomes exactly 50 characters: its first 47 characters followed by `...`. |
| Titles.TitleIsClean | src/state/useDocumentStore.ts:29-46 | A generated title is never empty and holds no formatting character and no newline. |
| Titles.GenerateTitle | src/state/useDocumentStore.ts:29-46 | No postcondition of its own; properties in TitleWithoutWords, TitleLength, ShortTitleIsFirstWords, LongTitleIsCut and TitleIsClean. |
| Titles.StripMarkdownExtension | src/state/useDocumentStore.ts:162 | No postcondition of its own; properties in StripMarkdownExtensionSpec and the four concrete lemmas after it. |
| Titles.StripMarkdownExtensionSpec | src/state/useDocumentStore.ts:162 | The import title is a prefix of the file name. What is removed is exactly one `.md` or `.markdown` in any letter case, or nothing, and it is nothing exactly when the name has neither ending. |
| Titles.StripUpperCaseExtension | src/state/useDocumentStore.ts:162 | `notes.MD` gives `notes`. |
| Titles.StripOneExtension | src/state/useDocumentStore.ts:162 | `a.md.md` gives `a.md`: only one extension goes. |
| Titles.StripLongExtension | src/state/useDocumentStore.ts:162 | Any name followed by `.markdown` gives back the name, so `test.markdown` gives `test`. |
| Titles.StripKeepsOtherNames | src/state/useDocumentStore.ts:162 | `readme.txt` is kept verbatim. |
| DocumentStore.ContentEdited | src/state/useDocumentStore.ts:132-142 | An edit keeps the id and sets content and time. It takes the generated title exactly when the title is `Untitled` and the trimmed content is non-empty, and otherwise keeps the title. |
| DocumentStore.TitleEdited | src/state/useDocumentStore.ts:149-154 | A rename changes only the title and the time. |
| DocumentStore.ContentEditIdempotent | src/state/useDocumentStore.ts:133-141 | Repeating the same content edit at the same time changes nothing further. |
| DocumentStore.TitleKeptByContentEdits | src/state/useDocumentStore.ts:135-138 | A title other than `Untitled` is never overwritten by a content edit. |
| DocumentStore.BlankContentKeepsTitle | src/state/useDocumentStore.ts:136 | Blank content never renames the document. |
| DocumentStore.AutomaticTitleIsClean | src/state/useDocumentStore.ts:136-137 | An automatic title is non-empty and free of formatting characters and newlines. |
| DocumentStore.ManualTitleSticks | src/state/useDocumentStore.ts:135-154 | A title set by `updateTitle` survives every later content edit, unless it is `Untitled`. |
| DocumentStore.StartupChoice | src/state/useDocumentStore.ts:64-74 | No postcondition of its own; properties in StartupReopensRemembered, StartupFallsBackToMostRecent and StartupCreatesOnlyWhenEmpty. |
| DocumentStore.StartupOpened | src/state/useDocumentStore.ts:64-89 | The snapshot stays well formed: the object store remains keyed by id. Further properties in StartupOutcome. |
| DocumentStore.Started | src/state/useDocumentStore.ts:60-100 | The snapshot stays well formed. Further properties in StartupOutcome. |
| DocumentStore.Scheduled | src/state/useDocumentStore.ts:103-115 | No postcondition of its own; properties in LastScheduledWins and QuickEditsWriteOnce. |
| DocumentStore.Displayed | src/state/useDocumentStore.ts:124-125 | No postcondition of its own: the document is opened and its save scheduled. Properties in EditPersists and ImportedFileIsSaved. |
| DocumentStore.Created | src/state/useDocumentStore.ts:117-128 | No postcondition of its own; properties in DisplayDropsPendingEdit. |
| DocumentStore.FileLoaded | src/state/useDocumentStore.ts:159-175 | No postcondition of its own; properties in ImportedFileIsSaved and DisplayDropsPendingEdit. |
| DocumentStore.ContentUpdated | src/state/useDocumentStore.ts:130-145 | No postcondition of its own; properties in EditPersists, QuickEditsWriteOnce, EditsNeedADocument and ManualTitleSticks. |
| DocumentStore.TitleUpdated | src/state/useDocumentStore.ts:147-157 | No postcondition of its own; properties in EditsNeedADocument and ManualTitleSticks. |
| DocumentStore.DocumentLoaded | src/state/useDocumentStore.ts:177-183 | No postcondition of its own; properties in SavedDocumentLoads and LoadMissingKeepsSession. |
| DocumentStore.DeletedFrom | src/state/useDocumentStore.ts:185-208 | The snapshot stays well formed. Further properties in DeleteOutcome, DeleteMovesOn, DeleteSuccessor and PendingWriteOutlivesDelete. |
| DocumentStore.Succeeded | src/state/useDocumentStore.ts:189-206 | The snapshot stays well formed. Further properties in DeleteSuccessor. |
| DocumentStore.Refreshed | src/state/useDocumentStore.ts:54-57 | The menu shows what `getAllDocuments` returns, and nothing else in the session changes. |
| DocumentStore.Fired | src/state/useDocumentStore.ts:107-114 | Once the timer fires, no write is waiting. |
| DocumentStore.StartupReopensRemembered | src/state/useDocumentStore.ts:64-70 | A non-empty remembered id that storage still has is the document the load on mount opens. |
| DocumentStore.StartupFallsBackToMostRecent | src/state/useDocumentStore.ts:72-74 | With no usable remembered id, the load opens what `getLastDocument` returns. |
| DocumentStore.StartupCreatesOnlyWhenEmpty | src/state/useDocumentStore.ts:72-89 | A welcome document is created exactly when storage lists nothing, and a document opened from storage is one of those listed. |
| DocumentStore.StartupOutcome | src/state/useDocumentStore.ts:60-100 | After the load on mount, a document is open, loading is over and the menu shows the listing. An empty storage gets the welcome document saved, listed alone and remembered. A non-empty storage is left untouched, and its opened document is listed. |
| DocumentStore.LastScheduledWins | src/state/useDocumentStore.ts:103-115 | A second scheduled save replaces the first, so the timer writes only the last document. |
| DocumentStore.EditPersists | src/state/useDocumentStore.ts:103-145 | After an edit and the timer, the edited document is open, stored and remembered as the last document. |
| DocumentStore.QuickEditsWriteOnce | src/state/useDocumentStore.ts:103-145 | Two edits in one debounce window make a single write carrying the result of both. |
| DocumentStore.EditsNeedADocument | src/state/useDocumentStore.ts:130-157 | Content and title edits with no open document leave the whole session unchanged. |
| DocumentStore.ImportedFileIsSaved | src/state/useDocumentStore.ts:159-175 | An imported file opens at once, titled with its file name minus the extension and with its content unchanged; after the timer it is stored and remembered. |
| DocumentStore.SavedDocumentLoads | src/state/useDocumentStore.ts:177-183 | A document written by the timer is the one `loadDocument` opens and remembers. |
| DocumentStore.LoadMissingKeepsSession | src/state/useDocumentStore.ts:177-183 | Loading an id that storage does not have changes nothing. |
| DocumentStore.DeleteOutcome | src/state/useDocumentStore.ts:185-208 | After a delete, the menu shows the refreshed listing and an open document stays open. Deleting a document other than the open one leaves the open one unchanged. |
| DocumentStore.DeleteMovesOn | src/state/useDocumentStore.ts:189-206 | When the open document is deleted, a different document is opened in its place, and the deleted id can no longer be looked up. |
| DocumentStore.DeleteSuccessor | src/state/useDocumentStore.ts:189-206 | When the open document is deleted and documents remain, the head of the new listing is opened and remembered, and the menu shows that listing; from IndexedDB that head is a most recently updated remaining document. When none remain, a new empty `Untitled` document under the fresh id is opened and remembered, and it is listed alone unless its localStorage write failed. |
| DocumentStore.DisplayDropsPendingEdit | src/state/useDocumentStore.ts:103-170 | Creating or importing a document within the debounce window of an edit replaces the waiting write: once the timer fires, storage still holds for the edited id what it held before the edit. |
| DocumentStore.PendingWriteOutlivesDelete | src/state/useDocumentStore.ts:185-208 | A delete does not cancel the waiting write: the deleted document comes back when the timer fires. |
| DocumentStore.Store.constructor | src/state/useDocumentStore.ts:49-52 | The hook starts with no document, an empty list, loading on, and no write waiting. |
| DocumentStore.Store.RefreshDocuments | src/state/useDocumentStore.ts:54-57 | The new snapshot is `Refreshed` of the old one. |
| DocumentStore.Store.Load | src/state/useDocumentStore.ts:60-100 | The new snapshot is `Started` of the old one. |
| DocumentStore.Store.OpenStartupDocument | src/state/useDocumentStore.ts:64-89 | Opens the chosen stored document, or saves, remembers and opens the welcome document. |
| DocumentStore.Store.ChooseStartupDocument | src/state/useDocumentStore.ts:64-74 | Returns the remembered document when found, else `getLastDocument`; the backends are unchanged. |
| DocumentStore.Store.DebouncedSave | src/state/useDocumentStore.ts:103-115 | The waiting write is replaced by the new document. |
| DocumentStore.Store.Fire | src/state/useDocumentStore.ts:107-114 | Saves the waiting document, remembers its id and empties the slot; with nothing waiting, nothing changes. |
| DocumentStore.Store.CreateNewDocument | src/state/useDocumentStore.ts:117-128 | Opens an empty `Untitled` document and schedules its save. |
| DocumentStore.Store.UpdateContent | src/state/useDocumentStore.ts:130-145 | The new snapshot is `ContentUpdated` of the old one. |
| DocumentStore.Store.UpdateTitle | src/state/useDocumentStore.ts:147-157 | The new snapshot is `TitleUpdated` of the old one. |
| DocumentStore.Store.LoadFromFile | src/state/useDocumentStore.ts:159-175 | The new snapshot is `FileLoaded` of the old one. |
| DocumentStore.Store.LoadDocument | src/state/useDocumentStore.ts:177-183 | The new snapshot is `DocumentLoaded` of the old one. |
| DocumentStore.Store.DeleteDocument | src/state/useDocumentStore.ts:185-208 | The new snapshot is `DeletedFrom` of the old one. |
| DocumentStore.Store.OpenSuccessor | src/state/useDocumentStore.ts:189-206 | Opens the first listed document, or saves, opens and lists a new empty one. |
| AppSettings.IPhoneIsMobile | src/utils/AppUtils.ts:9-12 | An `iPhone` user agent is mobile whatever the window is. |
| AppSettings.LooksMobile | src/utils/AppUtils.ts:10 | No postcondition of its own: one of the ten markers occurs in the lower-cased user agent. Properties in IPhoneIsMobile and MarkerAnywhere. |
| AppSettings.IsMobileDevice | src/utils/AppUtils.ts:9-12 | No postcondition of its own; properties in IPhoneIsMobile, MarkerAnywhere and WidthBoundInclusive. |
| AppSettings.MarkerAnywhere | src/utils/AppUtils.ts:10 | Any of the ten markers, in any letter case and anywhere inside the user agent, makes the device mobile whatever the window. |
| AppSettings.WidthBoundInclusive | src/utils/AppUtils.ts:11 | For a user agent without a marker the width test is `<= 768`: a touch window 768 wide is mobile, one 769 wide is not, and without touch no width is. |
| AppSettings.InitialTheme | src/App.tsx:11-19 | The theme is dark exactly when `dark` is stored, or when `light` is not stored and the system prefers dark. |
| AppSettings.InitialViewMode | src/utils/AppUtils.ts:24-30 | A stored `editor`, `preview` or `both` is returned. Anything else gives preview on mobile and both elsewhere. |
| AppSettings.InitialScrollLock | src/utils/AppUtils.ts:32-36 | The lock is off exactly when the stored text is `false`. |
| AppSettings.ThemeRoundTrip | src/App.tsx:11-19 | A stored theme comes back whatever the system prefers. |
| AppSettings.ViewModeRoundTrip | src/utils/AppUtils.ts:24-30 | A stored view mode comes back on any device. |
| AppSettings.ScrollLockRoundTrip | src/utils/AppUtils.ts:32-36 | `String(b)` read back gives `b`. |
| AppSettings.ScrollLockOnlyExactFalse | src/utils/AppUtils.ts:32-36 | `False`, `0`, the empty text and a missing key all keep the lock on. |
| AppSettings.UnknownThemeIgnored | src/App.tsx:13 | Unknown text such as `Dark` counts as no stored theme. |
| AppSettings.Toggled | src/App.tsx:32-34 | The toggle always changes the theme. |
| AppSettings.ToggleInvolution | src/App.tsx:32-34 | Toggling twice restores the theme. |
| AppSettings.ToggledThemePersists | src/App.tsx:29-34 | The toggled theme, once stored, is the theme of the next start. |
| FileDropdownMenu.MatchesQuery | src/components/FileDropdown.tsx:61 | No postcondition of its own; properties in FilterMembership, EmptyQueryKeepsAll and QueryCaseIgnored. |
| FileDropdownMenu.FilteredDocuments | src/components/FileDropdown.tsx:60-62 | The filter never lengthens the list. |
| FileDropdownMenu.FilterMembership | src/components/FileDropdown.tsx:60-62 | A document is listed exactly when it is in the list and its lower-cased title contains the lower-cased query. |
| FileDropdownMenu.FilterConcat | src/components/FileDropdown.tsx:60-62 | Filtering works piece by piece, so the original order is kept. |
| FileDropdownMenu.EmptyQueryKeepsAll | src/components/FileDropdown.tsx:60-62 | An empty query keeps every document. |
| FileDropdownMenu.QueryCaseIgnored | src/components/FileDropdown.tsx:61 | The query's letter case does not matter. |
| FileDropdownMenu.CurrentDoc | src/components/FileDropdown.tsx:114 | With no current id nothing is found; otherwise the first document with that id is found. |
| FileDropdownMenu.TriggerLabel | src/components/FileDropdown.tsx:138 | No postcondition of its own; properties in TriggerLabelSpec. |
| FileDropdownMenu.TriggerLabelSpec | src/components/FileDropdown.tsx:138 | The trigger shows the title of a listed current document, even an empty one, and `Select file` when none is listed. |
| FileDropdownMenu.Toggled | src/components/FileDropdown.tsx:120 | No postcondition of its own; properties in ToggleTwice and WhichClosingsClearSearch. |
| FileDropdownMenu.Selected | src/components/FileDropdown.tsx:64-68 | No postcondition of its own; properties in WhichClosingsClearSearch. |
| FileDropdownMenu.Dismissed | src/components/FileDropdown.tsx:29-34 | No postcondition of its own; properties in DismissKeepsTypedTitle and WhichClosingsClearSearch. |
| FileDropdownMenu.EditStarted | src/components/FileDropdown.tsx:77-81 | No postcondition of its own; properties in SaveRightAfterStart and DismissKeepsTypedTitle. |
| FileDropdownMenu.EditEnded | src/components/FileDropdown.tsx:88-95 | No postcondition of its own; properties in NothingToSaveAfterEnd. |
| FileDropdownMenu.SaveCall | src/components/FileDropdown.tsx:85-87 | No callback is made exactly when no rename is in progress or the typed title is blank. Otherwise the callback is `onRename` with the editing id and the trimmed title, and never a select or delete. |
| FileDropdownMenu.RenameTitleIsTrimmed | src/components/FileDropdown.tsx:85-86 | A rename never asks for a blank title, nor for one with whitespace at either end. |
| FileDropdownMenu.SaveRightAfterStart | src/components/FileDropdown.tsx:77-90 | Starting a rename and saving at once renames the document to its own trimmed title. |
| FileDropdownMenu.NothingToSaveAfterEnd | src/components/FileDropdown.tsx:83-95 | After a cancel or a save, a further save makes no call, and ending twice is ending once. |
| FileDropdownMenu.DismissKeepsTypedTitle | src/components/FileDropdown.tsx:29-34 | A click outside stops the rename but keeps the typed title; the next rename start replaces it. |
| FileDropdownMenu.ToggleTwice | src/components/FileDropdown.tsx:120 | Two trigger clicks restore the menu, the search text included. |
| FileDropdownMenu.WhichClosingsClearSearch | src/components/FileDropdown.tsx:120 | Closing with the trigger keeps the search text; closing by a selection or a dismissal clears it. |
| FileDropdownMenu.FileDropdown.constructor | src/components/FileDropdown.tsx:19-22 | The menu starts closed, with no search and no rename. |
| FileDropdownMenu.FileDropdown.ToggleOpen | src/components/FileDropdown.tsx:120 | Flips `isOpen` and nothing else. |
| FileDropdownMenu.FileDropdown.SetSearchQuery | src/components/FileDropdown.tsx:184 | Replaces the search text and nothing else. |
| FileDropdownMenu.FileDropdown.SetEditingTitle | src/components/FileDropdown.tsx:205 | Replaces the typed title and nothing else. |
| FileDropdownMenu.FileDropdown.HandleSelect | src/components/FileDropdown.tsx:64-68 | Calls `onSelect(id)`, closes the menu and clears the search. |
| FileDropdownMenu.FileDropdown.ItemClick | src/components/FileDropdown.tsx:196 | While a rename is in progress a click does nothing; otherwise it selects. |
| FileDropdownMenu.FileDropdown.HandleDelete | src/components/FileDropdown.tsx:70-75 | Calls `onDelete(id)` exactly when the confirmation is accepted. |
| FileDropdownMenu.FileDropdown.HandleEditStart | src/components/FileDropdown.tsx:77-81 | Starts renaming the document, with its title typed in. |
| FileDropdownMenu.FileDropdown.HandleEditSave | src/components/FileDropdown.tsx:83-90 | Makes the call `SaveCall` describes, then always clears the editing id and title. |
| FileDropdownMenu.FileDropdown.HandleEditCancel | src/components/FileDropdown.tsx:92-95 | Clears the editing id and title without any call. |
| FileDropdownMenu.FileDropdown.HandleEditKeyDown | src/components/FileDropdown.tsx:97-101 | Escape cancels the rename; every other key changes nothing. |
| FileDropdownMenu.FileDropdown.HandleClickOutside | src/components/FileDropdown.tsx:29-34 | A press outside closes the menu, clears the search and stops the rename; a press inside changes nothing. |
| FileDropdownMenu.FileDropdown.BackdropClick | src/components/FileDropdown.tsx:160-161 | Closes the menu, clears the search and stops the rename. |
| FileOperations.DownloadName | src/utils/fileOperations.ts:53-55 | The name always ends with `.md` and starts with the suggested name. A name already ending with `.md` is kept; otherwise exactly `.md` is appended, and no argument means `document`. |
| FileOperations.DownloadNameIdempotent | src/utils/fileOperations.ts:55 | Applying the rule twice equals applying it once. |
| FileOperations.DefaultDownloadName | src/utils/fileOperations.ts:53-55 | With no name the file is `document.md`. |
| FileOperations.UpperCaseExtensionIsExtended | src/utils/fileOperations.ts:55 | The test is case-sensitive: `notes.MD` becomes `notes.MD.md`. |
| FileOperations.ExportThenImportTitle | src/utils/fileOperations.ts:55 | Round trip with `loadFromFile`'s title rule: a title not ending with `.md`, exported and imported again, comes back unchanged. |
| HeadingSlug.KeepWordSpaceDash | src/preview/MarkdownPreview.tsx:37 | No postcondition of its own; properties in KeptMembership, KeepConcat, KeptChars and KeepUnchanged. |
| HeadingSlug.DashWhitespace | src/preview/MarkdownPreview.tsx:38 | No postcondition of its own; properties in DashedNoWhitespace, DashedSlugChars, DashNoWhitespace and WhitespaceRunBecomesOneDash. |
| HeadingSlug.Slug | src/preview/MarkdownPreview.tsx:34-38 | No postcondition of its own; properties in SlugChars, SlugIdempotent and TwoWordHeading. |
| HeadingSlug.KeptMembership | src/preview/MarkdownPreview.tsx:37 | A character survives the filter exactly when it occurs in the text and is a word character, whitespace or `-`. |
| HeadingSlug.KeepConcat | src/preview/MarkdownPreview.tsx:37 | The filter works character by character: on two joined pieces it gives the two results joined, so the survivors keep their order and number. |
| HeadingSlug.KeptChars | src/preview/MarkdownPreview.tsx:36-37 | After lower-casing, the filter leaves only `a-z`, `0-9`, `_`, `-` and whitespace. |
| HeadingSlug.KeepUnchanged | src/preview/MarkdownPreview.tsx:37 | Text made only of anchor characters and whitespace passes the filter unchanged. |
| HeadingSlug.DashedNoWhitespace | src/preview/MarkdownPreview.tsx:38 | The whitespace rule leaves no whitespace. |
| HeadingSlug.DashedSlugChars | src/preview/MarkdownPreview.tsx:38 | Anchor characters and whitespace become anchor characters only. |
| HeadingSlug.DashNoWhitespace | src/preview/MarkdownPreview.tsx:38 | Text without whitespace is unchanged by the whitespace rule. |
| HeadingSlug.WhitespaceRunBecomesOneDash | src/preview/MarkdownPreview.tsx:38 | A whole run of whitespace becomes exactly one `-`. |
| HeadingSlug.SlugChars | src/preview/MarkdownPreview.tsx:34-38 | An anchor holds only `a-z`, `0-9`, `_` and `-`, and so no whitespace. |
| HeadingSlug.SlugIdempotent | src/preview/MarkdownPreview.tsx:34-38 | An anchor is its own anchor. |
| HeadingSlug.TwoWordHeading | src/preview/MarkdownPreview.tsx:34-38 | Two runs of word characters separated by whitespace become the two runs lower-cased and joined by one `-`, as `Hello World` becomes `hello-world`. |

## Left out

- Text.Trim: its own contract states the ends and emptiness; that the result is the slice between the leading and trailing whitespace is stated by TrimIsSlice.
- Titles.RemoveFormatting: its own contract states that no formatting character remains; which characters survive, and in which order, is stated by RemoveFormattingMembership, RemoveFormattingConcat and RemoveFormattingPlain.
- Titles.CollapseNewlines: its own contract states that no newline remains; the rewriting of each newline run to one space is stated by NewlineRunBecomesSpace, CollapseNoNewline and CollapseMembership.
- Titles.CleanContent: its own contract states the shape of the result; CleanContentKeepsPlainLine states that already clean text is kept.
- Titles.Words: its own contract states that words are non-empty and free of whitespace; which words a text has is stated by WordsOfBlank and WordsOfGapThenWord.
- Letter case is modelled as ASCII only. `toLowerCase()` and the `/i` flag also map other letters, which matters in three places. The Kelvin sign lower-cases to `k`, so the source keeps it in an anchor while the model drops it. Non-ASCII titles are matched differently in the file filter. The `/i` tests of the user agent and the file extension use ASCII patterns, so they match the same texts in the model.
- Strings are sequences of code points, while JavaScript lengths count UTF-16 units. The 47- and 50-character title cut can therefore differ for characters outside the basic plane.
- Storage.IndexOrderSorted: ids are compared by code point (`StrLess`), while IndexedDB compares strings by UTF-16 code unit. The two orders differ only between characters outside the basic plane and characters from U+E000 to U+FFFF; the ids `generateId()` makes (src/storage/indexedDb.ts:129-131) contain neither.
- `JSON.parse` and `JSON.stringify` are not modelled. A stored list is a `FallbackSlot` value: missing, unparsable text, or a list that parses back exactly. Parsed text that is not a document array is not modelled.
- The `idb` library's internals are not modelled. Its key-path check, its transactions and the ordering of its index are assumed: equal `updatedAt` values are ordered by the primary key.
- The two timers are not modelled: the 500 ms debounce and the refresh 600 ms after creating or importing a document. Time becomes two explicit steps, `Fire` and `RefreshDocuments`, which the caller takes. React's batching of state updates and the interleaving of the asynchronous operations are concurrency and are left out.
- Each store operation uses one `Faults` value for all its storage calls. Calls made by one operation therefore do not meet different failures.
- DocumentStore.ContentEdited: uses one `now` for both `updatedAt` and the timestamp of an `Untitled-` title. The source calls `Date.now()` for each.
- `localStorage.getItem` and `setItem` failures for the last-document key, and the `try`/`catch` around the load on mount, are not modelled. The load on mount is assumed to run to the end, so `isLoading` always becomes false.
- `generateId()` and `Date.now()` (src/storage/indexedDb.ts:129-131) are parameters. The model does not claim that fresh ids are unique or that timestamps increase; DeleteMovesOn asks for a fresh id different from the deleted one.
- `openMarkdownFile` and the Blob, object-URL and anchor steps of `saveMarkdownFile` are DOM input and output; only the name rule is modelled.
- `formatDate` is left out because it is locale-dependent. Also left out are the focus effects of the menu, every rendering component, markdown-it, highlight.js, DOMPurify, markdown-it-anchor's permalinks and anchor uniqueness, Monaco, and the scroll synchronisation, which has no code in the modelled sources.
- AppSettings.InitialTheme: models the `getInitialTheme` of src/App.tsx:11-19, the one the app calls (src/App.tsx:22), where `matchMedia?.` makes a missing `matchMedia` count as no dark preference (`prefersDark` false). The copy in src/utils/AppUtils.ts:14-22 calls `window.matchMedia(...)` without `?.` at line 18, so with no stored theme and no `matchMedia` it throws; that throw is not modelled.
- The code that stores the view mode and the scroll lock is not part of this model. The stored forms are assumed to be the names `ViewModeName` gives and `String(b)`.
- FileDropdownMenu.FileDropdown.HandleClickOutside: when the menu is not mounted (`dropdownRef.current` is null), nothing happens; the model takes `inside` as given.
- Storage.Without: its own contract states only the length bound. Membership and order are stated by WithoutMembership and WithoutConcat.
- FileDropdownMenu.FilteredDocuments: its own contract states only the length bound. Membership and order are stated by FilterMembership and FilterConcat.
- The functions in the table marked "no postcondition of its own" are the definitions the lemmas named in their rows are about; `StartupOpened`, `Started`, `DeletedFrom` and `Succeeded` state only that the object store stays keyed by id.
- A concrete `Slug("Hello World") == "hello-world"` is not stated. The verifier unfolds the literal too deeply. TwoWordHeading states the general rule of which it is an instance.
- The stale write: a document can be recreated after deletion when its edit is still waiting for the debounce timer. This is the source's behaviour and is stated by PendingWriteOutlivesDelete, not corrected.
- The dropped edit: `createNewDocument` and `loadFromFile` schedule the new document's save through `debouncedSave`, which clears the timer of an edit still waiting, so that edit is never written. This is the source's behaviour and is stated by DisplayDropsPendingEdit, not corrected.
