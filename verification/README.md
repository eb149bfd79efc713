# News admin panel: state transitions in Dafny

This project models the logic under a small React admin panel for news
articles. The panel shows a form to create or edit an article, and below it a
list of article cards with Edit and Delete buttons. The markup and the
browser plumbing are not modelled. What is modelled are the pure state
transitions behind them:

- `AdminNewsPage` (`admin_news_page.dfy`) is the page controller. It owns
  the article collection and the `loading`, `error` and `editingNews` state.
  It has one atomic transition per handler: load the built-in sample, add
  (prepend), edit (patch by id), delete (filter by id, gated on a
  confirmation boolean), start or cancel an edit, and the submit dispatcher.
  The dispatcher routes on whether the id is truthy.
- `NewsForm` (`news_form.dfy`) is the form's state machine. It covers
  seeding from the edited article, per-field input, the file picker and its
  data-URL previews, removing an image, trim-based validation, choosing the
  payload, resetting after a create, cancel, and the busy flag.
  `GatherPreviews` models the `Promise.all` join of the per-file reads. The
  reads may finish in any order, and the result is still in selection order.
- `NewsCard` (`news_card.dfy`) covers the 100-character description summary
  with `...`, the first image or the placeholder, and what the two buttons
  pass upwards.
- `NewsList` (`news_list.dfy`) picks one of three render states: loader,
  empty notice, or a counted grid of one card per article, in collection
  order.
- `JsString` (`js_string.dfy`) models ECMAScript's `String.prototype.trim`,
  which the validation uses.
- `NewsTypes` (`news_types.dfy`) holds the shared records.
- `AdminFlow` (`admin_flow.dfy`) wires the page, the form and the list
  together the way the page renders them. Each user action is one step. After
  a step that changes the edit target, the form's seeding effect runs. This
  module proves an invariant over every reachable state: every image in the
  collection, the edit target, the draft and the previews is a string URL.
  It also proves the end-to-end create, edit, delete and cancel scenarios.

JavaScript's loose typing is made explicit. An entry of an `images` array is
`ImageRef`: either a string `Url` or a browser `File` (`Upload`). The form
sends previews (strings) when editing and raw files when creating. The page's
add handler turns each file into an object URL. Article ids are JavaScript
numbers (`int`). The dispatcher's `if (newsId)` is `Truthy`: the id must be
present and not `0`.

The clock (`Date.now()`, `toISOString()`), `window.confirm`,
`URL.createObjectURL` and the FileReader are parameters: `Clock`,
`confirmed: bool`, `objectUrl: File -> string` and `read: File -> string`.

Some consequences of the code are worth stating:

- No remote call is made. The axios calls in `AdminNewsPage.jsx` are
  commented out. Every handler applies its change locally, and loading
  always installs the two-item sample (`AdminNewsPage.jsx:34-54`).
- Seeding the form with no article does nothing, and the draft is not reset
  (`NewsForm.jsx:15`). So after a successful edit the form keeps the edited
  draft and is back in create mode (`AdminFlow.EditFlow`). Files picked
  during the edit are kept too. An immediate "Add" sends those files, or no
  images at all if none were picked during the edit.
- `removeImage` filters the files and the previews independently, by
  position (`NewsForm.jsx:50-55`). Seeding from an article empties the files
  and sets the previews to the article's images. If the article has images,
  the two lists then differ in length, and they are not kept in step.
- Submitting while busy is not refused by `handleSubmit` itself. Only the
  disabled submit button prevents it. Handlers are atomic here, so the busy
  flag is always down between steps.
- Because `0` is falsy, editing an article whose id is `0` adds a new article
  instead, and edit mode stays on (`AdminFlow.ZeroIdEditAdds`). No executed
  path creates such an id: the sample uses 1 and 2, and new articles use
  `Date.now()`.
- `fetchNews` runs once, from the mount effect (`AdminNewsPage.jsx:30-32`).
  The `Mount` event of `AdminFlow` may fire at any point of a run. That
  over-approximates the page, so the invariant proved over runs also covers
  the real runs.

## Model

| member | source | states |
|---|---|---|
| AdminNewsPage.SampleNews | src/pages/AdminNewsPage.jsx:13-28 | The built-in sample has exactly two articles, ids 1 and 2, with the fixed image URLs (two, then one). Each article carries its own ISO time reading (the source calls `new Date()` once per article, so the two may differ), and every image is a string. |
| AdminNewsPage.FetchNews | src/pages/AdminNewsPage.jsx:34-54 | Loading leaves the collection equal to the sample, `loading` false and the error cleared. The edit target is untouched. |
| AdminNewsPage.FetchDiscardsChanges | src/pages/AdminNewsPage.jsx:34-54 | Nothing is stored remotely, so a load after an add, a delete or an earlier load gives the same state as the load alone. After an edit, the only lasting effect is that edit mode has ended. |
| AdminNewsPage.ResolveImages | src/pages/AdminNewsPage.jsx:84-87 | The images keep their length and order. String entries are kept as they are, and each file becomes its object URL. Afterwards every entry is a string. |
| AdminNewsPage.ResolveIdempotent | src/pages/AdminNewsPage.jsx:84-87 | Resolving an already resolved list changes nothing. A list of strings passes through unchanged. |
| AdminNewsPage.NewArticle | src/pages/AdminNewsPage.jsx:80-89 | The new article takes its id and `createdAt` from the clock, and its title and description from the submitted data. Its images are the resolved submitted images. |
| AdminNewsPage.AddNews | src/pages/AdminNewsPage.jsx:56-98 | Adding prepends exactly one article: the length grows by one, and the tail is the old collection. The error is cleared. Loading and the edit target are untouched. |
| AdminNewsPage.AddAllPrepends | src/pages/AdminNewsPage.jsx:91 | After a run of creates, the collection is the new articles newest first, followed by the old collection unchanged. |
| AdminNewsPage.Patch | src/pages/AdminNewsPage.jsx:124-128 | A matching item takes the new title, description and images, and keeps its id and `createdAt`. A non-matching item is returned unchanged. |
| AdminNewsPage.EditItems | src/pages/AdminNewsPage.jsx:124-128 | Editing keeps the length, the order, every id and every `createdAt`. Items with another id are unchanged. Items with the id carry the new title, description and images. |
| AdminNewsPage.EditNews | src/pages/AdminNewsPage.jsx:100-137 | The edit handler patches the collection, clears the error and ends edit mode. |
| AdminNewsPage.EditIdempotent | src/pages/AdminNewsPage.jsx:124-128 | Applying the same edit twice is the same as applying it once. |
| AdminNewsPage.EditAbsentId | src/pages/AdminNewsPage.jsx:124-128 | Editing an id that no article carries leaves the collection as it was. |
| AdminNewsPage.Without | src/pages/AdminNewsPage.jsx:154 | The filter removes exactly the articles with the id: the removed count is the number of matches. No kept article has the id, and every article with another id is kept. Nothing new appears. An absent id leaves the collection unchanged. |
| AdminNewsPage.WithoutConcat | src/pages/AdminNewsPage.jsx:154 | Filtering a concatenation equals concatenating the filtered parts, so the kept articles stay in their relative order. |
| AdminNewsPage.WithoutIdempotent | src/pages/AdminNewsPage.jsx:154 | Deleting the same id a second time changes nothing. |
| AdminNewsPage.DeleteAfterEdit | src/pages/AdminNewsPage.jsx:124-154 | Deleting an id after editing it gives the same collection as deleting it without the edit. |
| AdminNewsPage.DeleteNews | src/pages/AdminNewsPage.jsx:139-160 | A declined confirmation changes nothing at all. A confirmed delete filters the collection by the id and clears the error. |
| AdminNewsPage.StartEdit | src/pages/AdminNewsPage.jsx:162-166 | Starting an edit sets the edit target to the article and leaves the collection, loading and error as they were. |
| AdminNewsPage.CancelEdit | src/pages/AdminNewsPage.jsx:168-170 | Cancelling clears the edit target and leaves everything else as it was. |
| AdminNewsPage.HandleSubmit | src/pages/AdminNewsPage.jsx:172-178 | A truthy id (present and non-zero) routes to edit with that id. Anything else routes to add. |
| JsString.TrimStart | src/components/NewsForm.jsx:60 | The result is a suffix of the input. Everything dropped is white space, and the result does not start with white space. |
| JsString.TrimEnd | src/components/NewsForm.jsx:60 | The result is a prefix of the input. Everything dropped is white space, and the result does not end with white space. |
| JsString.Trim | src/components/NewsForm.jsx:60 | `trim()` returns a contiguous slice of the input that neither starts nor ends with white space, and everything it drops at either end is white space. It is never longer than the input, and it leaves a string with non-white ends unchanged. |
| JsString.BlankIffAllWhiteSpace | src/components/NewsForm.jsx:60 | `Blank` is the `!s.trim()` test. It holds for a field exactly when every character of the field is ECMAScript white space or a line terminator, and then the field fails validation. This covers both directions, the empty string included. |
| JsString.TrimIdempotent | src/components/NewsForm.jsx:60 | Trimming a trimmed string changes nothing. |
| NewsForm.Seed | src/components/NewsForm.jsx:14-24 | Seeding with an article copies its title, description and images into the draft, sets the previews to its images and empties the files. With no article, the form is unchanged. The busy flag is kept. |
| NewsForm.ChangeInput | src/components/NewsForm.jsx:26-32 | An input change sets only the named field. The other field, the draft images, the files, the previews and the busy flag are unchanged. |
| NewsForm.ChangeInputUndo | src/components/NewsForm.jsx:26-32 | Typing the old value back restores the whole form, and the changed field reads back the typed value. |
| NewsForm.ReadAll | src/components/NewsForm.jsx:38-47 | There is one data-URL preview per file, in selection order, and every preview is a string. |
| NewsForm.GatherPreviews | src/components/NewsForm.jsx:38-47 | The reads may finish in any order (any permutation of positions), and each result goes into its file's slot. The joined list still equals the in-order previews. |
| NewsForm.ChangeImages | src/components/NewsForm.jsx:34-48 | The selection replaces the files, and the previews are replaced by the per-file reads in selection order. The draft and the busy flag are unchanged. |
| NewsForm.DropIndex | src/components/NewsForm.jsx:51-52 | The position filter removes exactly the element at the index, when the index is in range. An out-of-range index, negative ones included, leaves the list unchanged. |
| NewsForm.DropIndexInsertBack | src/components/NewsForm.jsx:50-55 | Putting the removed element back at its position rebuilds the original list. |
| NewsForm.RemoveImage | src/components/NewsForm.jsx:50-55 | Files and previews each lose their element at the index, independently. A list too short for the index is unchanged. Elements before the index keep their position, and elements after it move down by one. The draft and the busy flag are unchanged. |
| NewsForm.PayloadImages | src/components/NewsForm.jsx:68-71 | The submitted images are the previews when editing and the picked files when creating. |
| NewsForm.BeginSubmit | src/components/NewsForm.jsx:57-73 | The submit is rejected exactly when the title or the description is blank after trimming. A rejected submit makes no call and changes nothing. Otherwise the form turns busy and calls `onSubmit` with the draft's title and description, the chosen images, and the edited article's id (absent when creating). |
| NewsForm.FinishSubmit | src/components/NewsForm.jsx:75-89 | The busy flag ends false in every case. A successful create empties the draft, files and previews. An edit, or a thrown error, leaves them untouched. |
| NewsForm.Cancel | src/components/NewsForm.jsx:92-99 | Cancel empties the draft, files and previews. |
| NewsCard.Summary | src/components/NewsCard.jsx:20-23 | The summary is 103 characters long when the description is longer than 100, and otherwise the description's own length. It starts with the description's first (at most) 100 characters. A short description is shown unchanged. A long one ends in `...`. |
| NewsCard.SummaryBounded | src/components/NewsCard.jsx:20-21 | A summary is at most 103 characters, and it starts with a prefix of the description. |
| NewsCard.SummaryIdempotent | src/components/NewsCard.jsx:20-23 | Summarising a summary changes nothing. |
| NewsCard.SummaryOnlySeesPrefix | src/components/NewsCard.jsx:20-21 | Two long descriptions that share their first 100 characters get the same summary. |
| NewsCard.PrimaryImage | src/components/NewsCard.jsx:12 | The card image is the first image when there is one, and the placeholder URL otherwise. It is always one of the article's images or the placeholder. |
| NewsCard.ShownImage | src/components/NewsCard.jsx:4-14 | When the image fails to load, the placeholder is shown. Otherwise the primary image is shown. |
| NewsCard.Render | src/components/NewsCard.jsx:11-23 | The card is keyed and titled by the article. Its image is the primary image and its text is the summary. |
| NewsCard.Click | src/components/NewsCard.jsx:26-35 | Edit passes the whole article upwards, and Delete passes only its id. |
| NewsList.Cards | src/components/NewsList.jsx:27-34 | There is exactly one card per article, in collection order. |
| NewsList.Render | src/components/NewsList.jsx:5-38 | Loading wins whatever the collection holds. Otherwise a missing or empty collection gives the empty notice. The grid appears exactly when not loading and the collection is non-empty, and it shows a count equal to the collection length and one card per article, in order. |
| NewsList.GridKeysAreIds | src/components/NewsList.jsx:27-34 | The grid's keys are the article ids, in collection order. |
| AdminFlow.Sync | src/components/NewsForm.jsx:14-24 | The seeding effect runs only when the edit target has changed. A new target seeds the draft and the previews from the article and empties the files. A target that went away leaves the form alone. The page and the busy flag are never touched. |
| AdminFlow.SubmitStep | src/components/NewsForm.jsx:57-90 | The form's submit composed with the page's dispatcher (`AdminNewsPage.jsx:172-178`). A blank title or description leaves the whole app unchanged. Otherwise the form ends idle. The full outcome is stated by `AdminFlow.ValidSubmit`, `AdminFlow.CreateFlow`, `AdminFlow.EditFlow` and `AdminFlow.ZeroIdEditAdds`. |
| AdminFlow.Step | src/pages/AdminNewsPage.jsx:221-232 | Each user action keeps an idle form idle, and the form-only actions do not touch the page. |
| AdminFlow.InitialInv | src/pages/AdminNewsPage.jsx:7-10 | The state before mount satisfies the invariant. |
| AdminFlow.StepPreservesInv | src/pages/AdminNewsPage.jsx:221-232 | Every user action keeps the invariant: the form is idle, and every image in the collection, the edit target, the draft and the previews is a string. |
| AdminFlow.HandleSubmitKeepsUrls | src/pages/AdminNewsPage.jsx:80-128 | The page stores only strings when an edit carries only strings: add resolves files to URLs, and edit stores what it is given. |
| AdminFlow.RunPreservesInv | src/pages/AdminNewsPage.jsx:221-232 | Every state reachable by a run of actions from a good state satisfies the invariant. |
| AdminFlow.ReachableCardsShowUrls | src/components/NewsCard.jsx:12 | In every reachable state, every card on screen has a string image source, never a raw `File`. |
| AdminFlow.BlankSubmitChangesNothing | src/components/NewsForm.jsx:60-63 | A submit with a blank title or description leaves the whole app (page and form) unchanged. |
| AdminFlow.ValidSubmit | src/components/NewsForm.jsx:65-89 | A valid submit calls the page's handler with the payload and the edited id, then finishes the form as a success. |
| AdminFlow.CreateFlow | src/pages/AdminNewsPage.jsx:80-91 | A valid create adds exactly one article at the front, with the draft's title and description and the clock's id. Its images are the object URLs of the picked files, in order. The rest of the collection is unchanged, and the form is empty and idle. |
| AdminFlow.EditFlow | src/pages/AdminNewsPage.jsx:124-130 | A valid edit of a non-zero id patches the collection with the draft and the previews, and ends edit mode. The form keeps its draft. |
| AdminFlow.ZeroIdEditAdds | src/pages/AdminNewsPage.jsx:173-177 | Editing an article whose id is 0 prepends a new article holding the previews instead. Edit mode stays on. |
| AdminFlow.UntouchedEditIsNoOp | src/components/NewsForm.jsx:14-24 | If ids are unique, seeding from an article and submitting the edit without changes writes the collection back as it was. |
| AdminFlow.WriteBackIsNoOp | src/pages/AdminNewsPage.jsx:124-128 | If ids are unique, patching an article with its own title, description and images leaves the collection equal. |
| AdminFlow.EditClickSeeds | src/components/NewsCard.jsx:28 | A card's Edit makes that article the edit target. The form is seeded from it unless it already was the target. |
| AdminFlow.DeleteClick | src/pages/AdminNewsPage.jsx:139-154 | A declined delete from a card changes nothing. A confirmed one shrinks the collection and removes every article with the card's id. Every other article is kept, and the form is untouched. |
| AdminFlow.CancelFlow | src/components/NewsForm.jsx:92-99 | Cancel empties the form and ends edit mode, and the collection is unchanged. |
| AdminFlow.MountShowsSample | src/components/NewsList.jsx:25-34 | After mount, the list shows a grid of two cards, keyed 1 and 2, and the first shows the sample's first image. |

## Left out

- JSX markup, CSS, `window.scrollTo`, `alert` and `console.error` are presentation or I/O only. The model keeps only the state they accompany.
- The `setTimeout` delays and React's scheduling are left out. Each handler is one atomic transition. Typing while a submit is in flight, and other interleavings, are not modelled.
- FileReader data-URL encoding and `URL.createObjectURL` are browser services. They are opaque functions from file to string. A failing read is not modelled: the code has no handler for one.
- `Date.now()` and `new Date().toISOString()` are the `Clock` parameter of a submit. The two `new Date()` reads of the sample are the two strings carried by `Mount`. Id uniqueness is not enforced by the code, so it is assumed only where a lemma says so (`AdminFlow.UntouchedEditIsNoOp`).
- The commented-out axios calls and their multipart payload are left out: none of them runs.
- The `Loader` component and the DOM file-input reset through `document.querySelector` are not part of this model.
- The page's `catch` branches are left out. Nothing in the executed code of `fetchNews`, `handleEditNews` or `handleDeleteNews` throws. In `handleAddNews` only `URL.createObjectURL` could throw, and that is not modelled, so the page handlers always succeed. The form's own failure path is modelled through `FinishSubmit`'s `succeeded` flag.
- NewsCard.Summary: counts Dafny characters (Unicode scalar values), not JavaScript's UTF-16 code units. So a description with characters outside the Basic Multilingual Plane is cut at a different place, and `substring` could split a surrogate pair, which the model cannot express.
- An article whose `images` field is missing is not represented. No transition produces one, so `images: seq<ImageRef>` is always present, and the `|| []` and `news.images &&` guards reduce to the empty-list case.
- The seeding effect in `AdminFlow` runs when the edit target changes by value. React compares the dependency by object identity. The two differ only when two distinct but equal article objects are targeted one after the other.
- `handleInputChange` writes whichever field the input's `name` names. Only the two named inputs, title and description, are modelled (`Field`).
