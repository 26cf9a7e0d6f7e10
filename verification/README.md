# Prompt Architect questionnaire, modelled in Dafny

The page is a single-screen prompt builder. An assistant asks seven catalog questions one after
another (objective, context, audience, tone, constraints, format and an optional "extra details"
question). The user answers in a text box, can go back and edit any answer, can add suggestion
chips to the text box, and can pick rendering preferences: focus tags, an output language and a
review mode. A pure renderer turns the answers and preferences into the engineered prompt shown
in the preview pane, and a copy button reports in the transcript whether the clipboard write
worked.

The model has five modules:

- `Text` models the JavaScript primitives the page relies on: `String.prototype.trim`, using
  exactly the ECMAScript WhiteSpace and LineTerminator code points, plus `includes`,
  `endsWith` and `Array.prototype.join`.
- `Catalog` models the question catalog and the review-mode list, `findIndex` by id, and the
  review-mode select handler, which falls back to the first mode.
- `Prompt` models the renderer `buildPrompt`:
  - the labelled sections, in fixed key order, for truthy answers only, each trimmed;
  - the five-sentence instruction block;
  - the `filter(Boolean).join("\n\n") + "\n"` layout.
- `Conversation` holds the session state the page keeps in React hooks, and one pure
  transition `State -> State` per event handler:
  - submit, with its edit branch and its normal branch;
  - edit, suggestion chip, focus toggle, reset and copy;
  - the derived values: the list of pending questions and the preview.
- `ConversationLemmas` holds properties that relate several handler calls, or a handler and a
  derived value. `SubmitAll` replays a sequence of typed-and-submitted inputs.

JavaScript truthiness is explicit:
- An answer counts only when its key is present and its string is non-empty (`Answered`).
- An edit target counts only when it is set and non-empty (`EditTarget`). `""` is falsy, so
  editing the id `""` leaves the next submission on the normal path.

`Valid` is what every reachable state keeps:
- the question index points into the catalog;
- every stored answer is non-empty and already trimmed.

Submit, edit and reset all preserve it.

Behaviour this model keeps exactly as the code has it:

- The index never reaches the catalog length.
  - At the last question a submission sets the completion flag and leaves the index where it
    is.
  - A later submission re-answers `additional`, and appends another closing message each
    time (`SubmitAfterLastReanswersIt`).
  - The page shows its "all essential answers collected" and "all set" banners (lines
    543-546 and 731-733) as soon as the pending list is empty, that is after the six required
    answers. The completion flag is set only by a submission at the last, optional question.
    Six answers clear the pending list but leave the flag unset, and the seventh sets it
    (`SixAnswersClearPendingButNotComplete`, `SeventhAnswerCompletes`).
- An unknown review-mode id behaves differently in two places.
  - The renderer gives it the critical template.
  - The select handler replaces it by the first, structured, mode.
  - `UnknownReviewId` states the difference.
- Reset uses a different greeting from the opening state, and keeps the rendering preferences.

## Model

| member | source | states |
|---|---|---|
| `Catalog.CatalogShape` | app/src/app/page.tsx:24-110 | the catalog has seven questions with pairwise distinct ids, and only the last one is optional |
| `Catalog.IdsDistinct` | app/src/app/page.tsx:24-110 | two catalog positions carry the same id exactly when they are the same position |
| `Catalog.FindIndex` | app/src/app/page.tsx:344 | the lookup yields -1 exactly when no question has the id; otherwise it yields a position whose question has that id |
| `Catalog.FindIndexOfCatalogId` | app/src/app/page.tsx:344 | looking up the id of catalog entry i finds i, so the lookup inverts the catalog's id column |
| `Catalog.SelectReviewMode` | app/src/app/page.tsx:629-633 | the selected mode is always a listed one; a listed id selects the mode with that id, and an unlisted id selects the first mode |
| `Catalog.SelectReviewModeRoundTrip` | app/src/app/page.tsx:631-633 | selecting a listed mode by its own id gives back that mode |
| `Text.TrimSpec` | app/src/app/page.tsx:274 | trim leaves the infix between a whitespace-only prefix and a whitespace-only suffix; the result is empty exactly when the input is all whitespace |
| `Text.TrimOfTrimmed` | app/src/app/page.tsx:274 | trimming a string that is already trimmed changes nothing |
| `Text.IncludesAt` | app/src/app/page.tsx:365 | the recursive `includes` agrees with the positional definition of a substring occurrence |
| `Prompt.SectionKeysFollowCatalog` | app/src/app/page.tsx:156-176 | the seven keys the renderer reads are the catalog's ids, in catalog order |
| `Prompt.AnsweredFrom` | app/src/app/page.tsx:156-176 | the rendered keys ascend and are exactly the keys from the start position on that hold a truthy answer |
| `Prompt.SectionsFrom` | app/src/app/page.tsx:154-176 | one section per truthy key, aligned with the ascending list of those keys |
| `Prompt.SectionsInCatalogOrder` | app/src/app/page.tsx:154-176 | given any ascending list of the truthy keys, the sections correspond one to one, in that order; each is the key's heading, a colon and a line break, then the trimmed answer |
| `Prompt.SectionsNonEmpty` | app/src/app/page.tsx:154-176 | no section is empty, so the section filter never drops one |
| `Prompt.NonEmptyBlocks` | app/src/app/page.tsx:209 | a block is kept exactly when it is in the input and is not empty, and nothing is added |
| `Prompt.NonEmptyBlocksConcat` | app/src/app/page.tsx:209 | the filter works block by block: filtering two lists joined end to end gives the two filtered lists one after the other, so order is kept |
| `Prompt.BuildPrompt` | app/src/app/page.tsx:203-211 | every prompt starts with the preamble and a blank line, and ends with the final sentence's period and exactly one newline |
| `Prompt.BuildPromptLayout` | app/src/app/page.tsx:203-210 | the filtered join is preamble, blank line, instruction block when there are no sections; with sections, the joined sections and another blank line sit between them |
| `Prompt.PromptText` | app/src/app/page.tsx:148-211 | the full prompt text in both cases (with and without sections), ending in a single trailing newline |
| `Prompt.EmptyAnswersPrompt` | app/src/app/page.tsx:203-211 | with no answers the empty section block is dropped: the prompt is the preamble and the instruction block |
| `Prompt.InstructionBlock` | app/src/app/page.tsx:195-207 | the instruction block is the five sentences (focus, language, review, clarifying questions, checklist) in that order, separated by single spaces |
| `Prompt.LanguageLineChoice` | app/src/app/page.tsx:183-186 | the shorthand Portuguese sentence is produced for Portuguese and for no other language |
| `Prompt.ReviewLineChoice` | app/src/app/page.tsx:188-193 | the structured template is chosen exactly for "structured", the mentor template exactly for "mentor", and the critical template for every other id |
| `Prompt.SingleFocusStructuredInstructions` | app/src/app/page.tsx:178-201 | one focus tag, the default language and the structured mode give the expected instruction block |
| `Prompt.UnknownReviewId` | app/src/app/page.tsx:188-193 | an id outside the review-mode list renders with the critical template, while the select handler turns the same id into the structured mode |
| `Prompt.BuildPromptReadsOnlySectionKeys` | app/src/app/page.tsx:154-176 | two answer maps that agree on the seven section keys render to the same prompt |
| `Prompt.OtherKeysIgnored` | app/src/app/page.tsx:154-176 | storing a value under a key outside the seven leaves the prompt unchanged |
| `Conversation.PendingFrom` | app/src/app/page.tsx:258-262 | the pending positions ascend and are exactly the required questions without a truthy answer |
| `Conversation.PendingQuestions` | app/src/app/page.tsx:258-262 | the list follows catalog order, one entry per pending index, and a question is pending exactly when it is in the catalog, is required and has no truthy answer |
| `Conversation.RewriteAnswers` | app/src/app/page.tsx:285-291 | the transcript keeps its length, roles and tags; user entries tagged with the target get the new text and every other entry is untouched |
| `Conversation.SubmitEdit` | app/src/app/page.tsx:279-296 | the edit branch stores the trimmed answer under the target, rewrites only user entries tagged with it, keeps the index and the completion flag, leaves edit mode, clears the box and preserves validity |
| `Conversation.SubmitAnswer` | app/src/app/page.tsx:298-338 | the normal branch appends the tagged user entry and one assistant entry. Before the last question that entry is the next question and the index advances; at the last question it is the closing message and the flag is set. The answer is stored and the index stays in range |
| `Conversation.Submit` | app/src/app/page.tsx:272-339 | a blank input changes nothing; a truthy edit target takes the edit branch, otherwise the normal branch; preferences are untouched and validity is preserved |
| `Conversation.Edit` | app/src/app/page.tsx:341-359 | edit mode is entered with the given value and the answers are untouched. For a catalog id the index moves there and a prompt for it exists afterwards, with at most one entry appended, exactly when none existed. An unknown id leaves index and transcript alone |
| `Conversation.AppendSuggestion` | app/src/app/page.tsx:361-369 | the box always ends up containing the chip. An empty box takes the chip as it is, and a box that already contains it is kept. Otherwise the chip follows the trimmed text, after a single space unless the text ends in a comma |
| `Conversation.Without` | app/src/app/page.tsx:267 | the value is gone, every other item keeps its membership, and a list without duplicates stays so |
| `Conversation.WithoutConcat` | app/src/app/page.tsx:267 | filtering distributes over concatenation, so the remaining tags keep their order |
| `Conversation.Toggle` | app/src/app/page.tsx:264-270 | membership of the toggled tag flips, other tags keep their membership, duplicates are never introduced |
| `Conversation.ToggleFocus` | app/src/app/page.tsx:264-270 | the focus toggle flips the tag's membership, keeps every other tag's membership and their order, and changes nothing else in the state |
| `Conversation.Suggest` | app/src/app/page.tsx:361-369 | the chip handler applies the chip update above to the box, leaves a box containing the chip, and changes nothing else |
| `Conversation.Reset` | app/src/app/page.tsx:371-396 | reset empties the answers, box, edit target and flag, returns to the first question with the restart greeting and the first prompt, and keeps the preferences |
| `Conversation.CopyPrompt` | app/src/app/page.tsx:398-421 | copying appends exactly one untagged assistant entry, success or failure text by outcome, and changes nothing else |
| `Conversation.SelectReview` | app/src/app/page.tsx:629-633 | the review select stores the mode the lookup picks for the id, which is always a listed one, and changes nothing else |
| `ConversationLemmas.InitialState` | app/src/app/page.tsx:215-245 | the page opens valid, asking the first question, outside edit mode |
| `ConversationLemmas.NothingAnsweredAllPending` | app/src/app/page.tsx:258-262 | with no answers the six required questions are pending, in catalog order |
| `ConversationLemmas.PendingMember` | app/src/app/page.tsx:258-262 | a position is pending exactly when it is a required catalog question with no truthy answer |
| `ConversationLemmas.AllRequiredAnsweredNonePending` | app/src/app/page.tsx:258-262 | once the six required questions hold truthy answers nothing is pending |
| `ConversationLemmas.StoringLeavesPending` | app/src/app/page.tsx:258-262 | storing a non-empty answer for question i takes exactly i off the pending list |
| `ConversationLemmas.AnswerLeavesPending` | app/src/app/page.tsx:333-334 | a normal submission removes exactly the current question from the pending list |
| `ConversationLemmas.BlankSubmitIsIgnored` | app/src/app/page.tsx:274-277 | a submission whose input trims to nothing leaves the whole state unchanged |
| `ConversationLemmas.WalkForward` | app/src/app/page.tsx:310-338 | non-blank answers short of the last question advance the index one step each, keep every earlier question answered, and leave the flag alone |
| `ConversationLemmas.SixAnswersClearPendingButNotComplete` | app/src/app/page.tsx:310-338 | from the opening state six non-blank answers empty the pending list, but the flag stays unset and the optional question is current |
| `ConversationLemmas.SeventhAnswerCompletes` | app/src/app/page.tsx:323-331 | a seventh non-blank answer sets the completion flag, and the index stays on the last question |
| `ConversationLemmas.SubmitAfterLastReanswersIt` | app/src/app/page.tsx:310-338 | at the last question a further submission overwrites `additional`, appends another closing message and stays put |
| `ConversationLemmas.EditThenSubmit` | app/src/app/page.tsx:279-296 | edit then submit stores the trimmed text under that question, keeps the transcript length, the flag and validity, and takes that question off the pending list |
| `ConversationLemmas.EditAndResubmitKeepsAnswers` | app/src/app/page.tsx:341-359 | editing a question with its stored answer and submitting it unchanged restores the answers exactly |
| `ConversationLemmas.EditTwiceIsEditOnce` | app/src/app/page.tsx:341-359 | editing the same question twice is editing it once, so its prompt is appended at most once |
| `ConversationLemmas.EmptyEditTargetIsNormalFlow` | app/src/app/page.tsx:279 | an edit target of "" is falsy, so the next submission takes the normal branch |
| `ConversationLemmas.ResetIsIdempotent` | app/src/app/page.tsx:371-396 | reset reaches the same state from any state with the same preferences, applying it twice is applying it once, and it re-opens the six required questions |
| `ConversationLemmas.ResetVersusInitial` | app/src/app/page.tsx:371-396 | reset equals the opening state except for the greeting, which differs, and the kept preferences |
| `ConversationLemmas.ResetPreview` | app/src/app/page.tsx:249-252 | after a reset the preview is the preamble and the instruction block only |
| `ConversationLemmas.SuggestionIdempotent` | app/src/app/page.tsx:361-369 | clicking the same chip twice is clicking it once |
| `ConversationLemmas.ToggleTwice` | app/src/app/page.tsx:264-270 | toggling an unselected tag twice restores the list exactly; toggling a selected tag twice moves it to the end |
| `ConversationLemmas.CopyKeepsPreview` | app/src/app/page.tsx:398-421 | copying reports in the transcript but does not change the preview |
| `ConversationLemmas.InputSideHandlersKeepPreview` | app/src/app/page.tsx:249-252 | editing, typing and suggestion chips never change the preview |

## Left out

- Rendering: the JSX layout, styling, the progress display and the auto-scroll effect (lines 254-256) are view code with no state logic.
- Message ids: `generateId` draws from `Math.random`, so transcript entries carry no id here.
- Display-only catalog fields: the helper texts, placeholders and suggestion chip lists of each question, and the focus-tag and language option lists, are not carried.
- The language select (line 608) and the text box's change handler (line 524) only store the chosen value; they are the record updates `s.(language := …)` and `Conversation.SetInput`, with no property of their own.
- React scheduling: each handler is one atomic transition. The model has no batching of several `set…` calls.
- Stale closure: `handleEdit` tests for an existing prompt on the render-time `messages` but appends to the queued `prev`. The model reads both from the same state, which is what happens when no other update is pending.
- Clipboard: `copyPrompt` awaits `navigator.clipboard.writeText`. The model takes the outcome as a boolean parameter and does not model the pending promise.
- `event.preventDefault()` in the submit handler is browser plumbing with no effect on the state.
- Text encoding: strings here are sequences of Unicode scalar values, while JavaScript strings are UTF-16 code units. The two agree on well-formed text. Lengths and indices differ only for characters outside the Basic Multilingual Plane, and a lone surrogate cannot be represented here.
