# Survey backend: a verified model

This project models the core of a survey backend and proves what it promises. The program lets an
owner edit a draft, publish it as a numbered frozen snapshot, close and reopen it, and collect
answer sheets; each sheet is validated against one snapshot, flattened to typed rows, and stored
with the number of the snapshot that explains it. Four pieces are modelled.

**The store and its handlers.** `Database` holds the four tables as a value and says what each
statement does. `Machine` turns every handler into separate store calls (read, check, write) with
in-flight operations that keep what they have read; a transaction is an optimistic read followed by
one atomic commit guarded by the unique keys, and any operation may be abandoned between two calls.
`Safety` proves one inductive invariant over tables and in-flight operations; `Theorems` draws the
guarantees for every run; `Serial` proves the stronger life of a survey when handlers never overlap;
`Interleaving` says exactly when an overlapping run looks serial; `Deviations` takes the two things
only overlapping runs do (a second version, a response for a closed survey), exhibits them, and says
exactly when they happen.
`Requests` says, column by column, what each request does when served alone, when a sheet is stored,
and who may edit, alone and over runs. `Documents`, `Dao` and `Services` are the code itself: schema documents, a mutable `Store` with its
two transactions and their rollback, and the two service managers, each handler proved equal to its
uninterrupted machine run.

**The answer pipeline.** `Logic` (visibility rules), `Handlers` (validation of the twelve question
types), `Rows` (flattening) and `Pipeline` (a whole sheet) follow the loops of the program. Go's
random map iteration is an arbitrary choice of the next key. `Lossless` proves that what validation
accepts can be rebuilt from its rows up to a canonical form, and that the canonical form loses
nothing; `Exactness` proves that the condition on the question's props is the weakest possible.
`Conditions` says what operators, combinators and actions mean for the ids that are hidden,
`Acceptance` what each type accepts and complains about, and `RowShapes` which rows it leaves, all in
terms of the raw answers and props.

**The rate limiter.** `RateLimit` (in `Limiter.dfy`) is the lazily refilled token bucket, with a
bound over every window of every history and the irrelevance of denied calls; `RateLimitExact`
proves the converse of the bound, which says exactly which calls are granted.

**Search, paging and the check code.** `Search` proves the LIKE escaping against a matcher for
`%`, `_` and the escape character (section 8.5 of ISO/IEC 9075-2), `Listing` the paging arithmetic
including its 64-bit product, `IdCard` the error detection of the identity-card check character
(GB 11643-1999, ISO 7064 MOD 11-2).

`dafny verify dfyconfig.toml` checks the whole project.

## Reading guide

The theorems to read first: `Theorems.VersionIsolation` with `Theorems.StoredSheetRebuilds`,
`Theorems.VersionsAndLifecycle`, `Theorems.PublisherCommitsIffCurrent`, `Theorems.ResponseAdmitted`
with `Theorems.ResponseAnchored`, `Deviations.AtMostOneExactly`, `Deviations.SavedWhileLiveExactly`,
`Interleaving.RunSerialExactly`, `Serial.AtMostOneVersion`, `Exactness.LosslessExactly`,
`Requests.SubmissionStoredExactly`, `Requests.ChangedByOwner`, `Pipeline.PassesExactly`,
`Pipeline.NonInterference`, `RateLimitExact.GrantedExactly`, `RateLimit.DeniedCallsInert`,
`Search.LiteralSearch`, `Listing.PagesPartition`, `IdCard.TranspositionDetected`.

Six properties one might expect do not hold as first stated. Each is kept as the code has it, with
a concrete witness and the exact condition:

- "At most one version per survey" fails in two ways: an edit that read a draft lands after the
  publish (`Deviations.StaleEditMakesSecondVersion`), or a publisher inserts a draft it read before
  an edit and another publish (`Deviations.StalePublisherMakesSecondVersion`). A run keeps it iff no
  publisher that has read an existing version, and found it different from its draft, goes on to
  insert (`Deviations.AtMostOneExactly`). The stronger serial shape, one version at most and that one
  equal to the current draft, is kept iff every draft write and every commit is timely
  (`Interleaving.RunSerialExactly`); so without an untimely event there is no second version
  (`Deviations.SecondVersionNeedsStaleRead`).
- "A response is stored only for a live survey" fails because the status check and the save are
  separate calls (`Deviations.ResponseAfterClose`). A response is saved on a live survey iff no close
  took effect, without a later reopening or publish, between the start of its submission, which read
  the survey live, and the save (`Deviations.SavedWhileLiveExactly`).
- Rows lose an answer when the empty string can be picked or two columns share a score; they
  determine the answer iff the props rule that out (`Exactness.LosslessExactly`). Row, blank and
  option ids need not be distinct for this. Within a sheet each question is rebuilt on its own
  merits: its props must be recoverable and its id its own (`Pipeline.QuestionLossless`). The
  condition on the id is one of this decoder, which sorts rows by question id and takes the rows of
  two questions for one answer (`Pipeline.SharedIdDecodesTwice`).
- Swapping two different characters of an identity number goes unnoticed iff they stand ten places
  apart and no final X is moved (`IdCard.TranspositionDetected`, with the example
  `IdCard.UnnoticedSwap`).
- The limiter's capacity bounds a burst iff it is at least 1, since a fresh key is always granted
  (`RateLimit.CapacityBoundsExactly`).
- The page offset is the clamped product iff the product fits in 64 bits or has one of the residues
  named in `Listing.OffsetExactly`; otherwise a far page may show the first one or be refused
  (`Listing.WrappedPageIsFirst`).

Where comments and code disagree the code is followed: the comments beside `SetAnswerAccess` and
`SetDisplayMode` (internal/dao/queries/surveys.sql:62-72) speak of drafts only, but nothing checks
the status.

## Model

| member | source | states |
|---|---|---|
| `Theorems.VersionIsolation` | internal/service/submission/submission.go:91-148 | after any run, and after any continuation of it, every stored response is still there; the snapshot it names exists for its survey, is the one it was saved under, accepts the raw answers, and yields exactly the stored rows in order |
| `Theorems.StoredSheetRebuilds` | internal/dao/dao.go:54-89 | the answer table alone, read with the snapshot, gives back every visible answer of every stored response whose question has its own id and recoverable props, whatever the other questions are |
| `Theorems.ExplainsMeans` | internal/service/submission/submission.go:126-144 | the invariant kept by the machine means that the decoded rows of a response are the normalisation of its raw answers, each row naming the response's survey and version and holding exactly one value |
| `Theorems.VersionsAndLifecycle` | internal/dao/queries/surveys.sql:56-99 | in every reachable state the versions of a survey are exactly 1..n, the published version is n, draft means never published, each snapshot carries its own number, and the published schema is found iff the survey is live |
| `Theorems.NothingGoesBack` | internal/dao/dao.go:98-148 | over any continuation snapshots and responses with their rows never change, published versions only grow, and no survey returns to draft |
| `Theorems.PublisherCommitsIffCurrent` | internal/dao/dao.go:105-147 | an in-flight publisher about to insert commits version max+1 iff the maximum it read is still the current one, and otherwise leaves the store untouched |
| `Theorems.SecondPublisherLoses` | db/migrations/001_init.sql:68-77 | of two publishers that read the same maximum the later one changes nothing |
| `Theorems.UnchangedExactly` | internal/dao/dao.go:112-135 | in any reachable state a publish reports "unchanged" iff the latest snapshot is the draft stamped with the latest version; otherwise it makes the next version, and it cannot fail |
| `Theorems.InFlightAdmitted` | internal/service/submission/submission.go:81-114 | an in-flight submission was started by its own request, under an id that was free, has been the same operation ever since, and carries the survey row as it was at that start: live, with an access mode that matches the request |
| `Theorems.InFlightLoaded` | internal/service/submission/submission.go:115-123 | one that holds a snapshot took it in a single call out of the store as it was then, by the requested version or else the published one |
| `Theorems.ResponseAdmitted` | internal/service/submission/submission.go:81-149 | every stored response was written by one submission operation of exactly those answers, from its start through its load to its save without interruption; at that start the survey was live and its access mode matched the caller, and the snapshot loaded accepts the answers under the stored version |
| `Theorems.ResponseAnchored` | internal/service/submission/submission.go:152-171 | version anchoring over whole runs: a sheet submitted for a version is stored under that version, any other under the version published, on a live survey, when its snapshot was loaded |
| `Safety.StepGood` | internal/service/survey/survey.go:277-373 | one event of any handler keeps the invariant over tables and in-flight operations, and only adds to the store |
| `Safety.RunGood` | internal/service/survey/survey.go:277-373 | so does every run from a state that satisfies the invariant |
| `Safety.ReachableGood` | internal/dao/dao.go:98-148 | every reachable state satisfies it |
| `Safety.AdvanceGood` | internal/service/submission/submission.go:115-148 | a store call of an operation whose stale reads are only assumed to fit keeps the tables right, adds only, and leaves the operation fitting |
| `Safety.OpStays` | internal/service/survey/survey.go:346-373 | what an in-flight operation has read stays usable however the store grows under it |
| `Safety.CommitIffCurrent` | internal/dao/dao.go:136-147 | the insert of maxV+1 succeeds iff maxV is the current maximum; what it writes and what it leaves |
| `Safety.PublishGood` | internal/dao/queries/surveys.sql:56-60 | a committed publish keeps versions gapless and the published version last, and leaves older snapshots and every response explained |
| `Safety.SavedGood` | internal/dao/dao.go:54-89 | a saved submission is explained by the snapshot it names and leaves every other response's rows as they were |
| `Safety.SaveGood` | internal/service/submission/submission.go:121-148 | the last step of a submission keeps the invariant whatever happened since its reads |
| `Safety.BeginGood` | internal/service/survey/survey.go:82-97 | the first read and guard of any request leave an operation whose reads fit the store |
| `Serial.ServePublish` | internal/dao/dao.go:98-148 | the three store calls of the publish transaction, run together, amount to one case distinction: unchanged, refused, or exactly one new stamped snapshot published and the survey live |
| `Serial.PublishServed` | internal/service/survey/survey.go:299-309 | with atomic handlers the first publish freezes the draft as version 1; every later one returns (1, unchanged) and changes nothing, not even a closed status |
| `Serial.AtMostOneVersion` | internal/service/survey/survey.go:277-309 | over any sequence of atomic handlers a survey has at most one version, equal to its draft stamped 1, and a published draft never changes again |
| `Serial.ActOk` | internal/service/survey/survey.go:277-373 | each atomic handler keeps that and freezes what is published |
| `Interleaving.UninterruptedIsServe` | internal/service/survey/survey.go:277-373 | the atomic handlers are the interleaved ones with no other event in between |
| `Interleaving.StepSerialExactly` | internal/service/survey/survey.go:284-294 | one event leads out of the serial states iff it is an edit with other content landing on a published survey, or a commit that publishes a second time or something other than the current draft |
| `Interleaving.RunSerialExactly` | internal/service/survey/survey.go:277-309 | an interleaved run keeps the serial shape throughout iff every event is timely in that sense |
| `Deviations.StaleEditMakesSecondVersion` | internal/service/survey/survey.go:284-294 | for a draft and any edit that decodes and differs in content there is a run that ends with versions 1 and 2: an edit that read the draft lands after the publish |
| `Deviations.RepublishChanged` | internal/dao/dao.go:126-147 | once the stored draft differs from the only snapshot, publishing makes version 2 |
| `Deviations.AtMostOneExactly` | internal/dao/dao.go:112-147 | in an interleaved run no survey ever has a second version iff no publisher that read an existing version, and found other content there, goes on to insert |
| `Deviations.StepOneExactly` | internal/dao/dao.go:112-147 | the same of one event from any state the invariant holds in |
| `Deviations.SecondVersionNeedsStaleRead` | internal/service/survey/survey.go:277-309 | a run whose events are all timely never makes a second version |
| `Deviations.StalePublisherMakesSecondVersion` | internal/service/survey/survey.go:299-309 | for a draft and any edit that decodes and differs in content there is a run in which a publisher that read the old draft publishes it over the new one, with every edit landing on a draft |
| `Deviations.LiveExactly` | internal/dao/queries/surveys.sql:56-77 | a survey live at some point of a run is live at its end iff no close took effect since without a later reopening or publish; otherwise it is closed |
| `Deviations.SavedWhileLiveExactly` | internal/service/submission/submission.go:91-146 | for every stored response, traced to its submission's own start and save: at the save the survey was live iff it was not closed since that start |
| `Deviations.ResponseAfterClose` | internal/service/submission/submission.go:91-146 | there is a run in which a response is stored for a survey that is closed at that moment |
| `Requests.OnlyOwnersServed` | internal/service/survey/survey.go:82-97 | every request but a submission is refused as not found or forbidden, with nothing changed, unless it comes from the owner or an administrator; those are never refused so |
| `Requests.InsertedRow` | internal/dao/queries/surveys.sql:1-5 | a created survey is an unpublished draft with the given columns; a taken id changes nothing |
| `Requests.UpdateServed` | internal/service/survey/survey.go:277-295 | an edit is refused off draft or when it does not decode; otherwise it replaces the draft, and title and type as decoded from it, and no other column |
| `Requests.StatusServed` | internal/service/survey/survey.go:346-373 | closing takes a live survey, reopening a closed one that was published; either changes the status alone |
| `Requests.ModesServed` | internal/service/survey/survey.go:314-343 | the two modes can be set in any status, each changing its column alone |
| `Requests.PublishServedExactly` | internal/service/survey/survey.go:299-309 | in any reachable store a publish reports the current number iff its snapshot is the draft under that number; otherwise it adds the next snapshot, sets the published version and puts the survey live, whatever its status was |
| `Requests.SubmissionStoredExactly` | internal/service/submission/submission.go:81-149 | a sheet is stored iff the survey is live, the caller's login is what its access mode asks for, the snapshot it names exists and decodes, every visible required question is answered and every visible answer acceptable, and the response id is free; otherwise nothing changes |
| `Requests.AdmittedServed` | internal/service/submission/submission.go:115-148 | what becomes of an admitted sheet in every case, and the four tables when it is stored |
| `Requests.TurnedAway` | internal/service/submission/submission.go:91-114 | who is turned away and how: not found unless live, unauthorized without a login that is needed, bad request with one that is not |
| `Requests.StoredColumns` | internal/dao/dao.go:66-84 | each stored answer row's columns in terms of the row: number and text apart, an empty sub id stored as none |
| `Requests.StoredSheetIsGood` | internal/service/submission/submission.go:126-144 | by the snapshot it names, every stored response answers every visible required question and nothing unacceptably |
| `Requests.InFlightAuthorized` | internal/service/survey/survey.go:82-97 | every in-flight edit, publish, close, reopen or mode change was started by a request for just that from the owner or an administrator |
| `Requests.ChangedByOwner` | internal/service/survey/survey.go:82-97 | in any run, whatever changes a survey's row goes back to a request by its owner or an administrator |
| `Documents.SchemaEqualIgnoringVersion` | internal/dao/dao.go:155-166 | the deletion-and-compare decides agreement on every field but `version` |
| `Documents.StampVersion` | internal/dao/dao.go:169-176 | the result carries the given version and agrees with the input on every other field, which determines it |
| `Documents.SameContentEquivalence` | internal/dao/dao.go:155-166 | equality modulo version is reflexive, symmetric and transitive |
| `Documents.SameContentIffStampsEqual` | internal/dao/dao.go:155-176 | two documents have the same content iff stamping both with one number makes them equal |
| `Documents.StampOverwrites` | internal/dao/dao.go:129-135 | a later stamp erases an earlier one, and stamping never changes content |
| `Documents.UnchangedIffStamped` | internal/dao/dao.go:112-125 | a draft is unchanged against a stamped snapshot iff stamping it alike gives that snapshot |
| `Database.RowRoundTrip` | internal/dao/dao.go:66-84 | an answer row has exactly one of its two value columns set and decodes to the row it came from |
| `Database.SavedRowsDecode` | db/migrations/001_init.sql:95-106 | the rows of a new response, read back from the whole table, are those written, in order, and other responses' rows are not disturbed |
| `Database.RowsDecode` | internal/dao/dao.go:66-87 | the whole encoded row sequence decodes to itself |
| `Dao.Store.Publish` | internal/dao/dao.go:98-148 | the whole new store in every case, with a fault after any number of writes: unchanged, refused or failed leaves everything as it was; success adds one stamped snapshot and sets the published version |
| `Dao.Store.SaveSubmission` | internal/dao/dao.go:54-89 | the response and all its rows in order, or nothing at all, wherever in the loop the database fails |
| `Dao.Store.MaxVersionOf` | internal/dao/queries/surveys.sql:96-99 | the largest version of a survey, 0 if it has none, however rows are enumerated |
| `Dao.Store.GetVersion` | internal/dao/queries/surveys.sql:89-94 | the snapshot of that version of that survey, or none |
| `Dao.Store.GetPublished` | internal/dao/queries/surveys.sql:83-87 | the snapshot of the published version, only while the survey is live |
| `Dao.Store.CreateSurvey` | internal/dao/queries/surveys.sql:1-5 | a fresh id becomes an unpublished draft; a taken id is refused and changes nothing |
| `Dao.Store.UpdateDraft` | internal/dao/queries/surveys.sql:51-54 | draft, title and type replaced together, nothing else changed, no effect on a missing row |
| `Dao.Store.SetStatus` | internal/dao/queries/surveys.sql:74-77 | the status alone changes |
| `Dao.Store.SetAnswerAccess` | internal/dao/queries/surveys.sql:62-66 | the access mode alone changes, in any status |
| `Dao.Store.SetDisplayMode` | internal/dao/queries/surveys.sql:68-72 | the display mode alone changes, in any status |
| `Services.SurveyManager.Owned` | internal/service/survey/survey.go:82-97 | not found iff missing, forbidden iff it is there and the actor is neither owner nor administrator |
| `Services.SurveyManager.Update` | internal/service/survey/survey.go:277-295 | outcome and new store are those of the update request run alone on the machine |
| `Services.SurveyManager.Publish` | internal/service/survey/survey.go:299-309 | outcome and new store are those of the publish request run alone, its three store calls taken together |
| `Services.SurveyManager.SetAnswerAccess` | internal/service/survey/survey.go:314-326 | outcome and new store are those of the request run alone; no draft guard |
| `Services.SurveyManager.SetDisplayMode` | internal/service/survey/survey.go:331-343 | outcome and new store are those of the request run alone; no draft guard |
| `Services.SurveyManager.Close` | internal/service/survey/survey.go:346-358 | outcome and new store are those of the close request run alone |
| `Services.SurveyManager.Reopen` | internal/service/survey/survey.go:361-373 | outcome and new store are those of the reopen request run alone |
| `Services.SubmissionManager.LoadSchema` | internal/service/submission/submission.go:152-171 | a positive version is looked up in the history, anything else in the published schema |
| `Services.SubmissionManager.RerunAndSave` | internal/service/submission/submission.go:119-148 | rejected iff there are errors, which are those of the sheet against the loaded snapshot; otherwise saved under the version the snapshot carries |
| `Services.SubmissionManager.Submit` | internal/service/submission/submission.go:81-149 | outcome and new store are those of the submission run alone, and a rejection lists the errors against the anchored snapshot |
| `Logic.EvalCondition` | internal/domain/logic.go:95-133 | the meaning of each comparison, unknown operators and missing answers included |
| `Logic.EvalConditions` | internal/domain/logic.go:136-155 | the short-circuit loops decide a non-empty for-all (AND) or exists (anything else); no conditions never fire |
| `Logic.Evaluate` | internal/domain/logic.go:160-178 | the set built by insertions and deletions is that of the ids some fired hide rule targets and no fired show rule does |
| `Logic.HiddenIdsMeaning` | internal/domain/logic.go:160-178 | membership in that set, for any id, iff that condition holds |
| `Logic.RuleOrderIrrelevant` | internal/domain/logic.go:160-178 | rule lists with the same members, in any order and multiplicity, hide the same ids |
| `Logic.EvaluateReadsOnlyConditions` | internal/domain/logic.go:95-178 | only answers named by some condition matter, hidden questions' answers included |
| `Conditions.NumbersCompare` | internal/domain/logic.go:122-129 | on numbers, greater, less, equal and not equal hide exactly when the answer stands so to the value |
| `Conditions.OnlyNumbersOrder` | internal/domain/logic.go:122-129 | what is not two numbers is neither greater nor less |
| `Conditions.EqualityIsStrict` | internal/domain/logic.go:64-78 | equal only as scalars of one type; not equal is the complement, so it holds of a missing answer |
| `Conditions.AnsweredOrEmpty` | internal/domain/logic.go:19-27 | empty means missing, null or the empty string; answered is the complement |
| `Conditions.IncludesFinds` | internal/domain/logic.go:108-121 | an array includes a scalar iff an element is it, or is an object whose `value` is |
| `Conditions.UnknownNeverHolds` | internal/domain/logic.go:130-132 | an unknown operator never holds |
| `Conditions.ObjectComparesByValue` | internal/domain/logic.go:34-48 | an object answer compares, under every operator, as its bare `value` would |
| `Conditions.ObjectsAreOpaque` | internal/domain/logic.go:34-60 | any other object, or object cell, only counts as answered and unequal: values are taken out once |
| `Conditions.SubIdReadsCell` | internal/domain/logic.go:34-41 | a condition with a sub id is one on that cell as if it were an answer of its own; no cell is a missing answer |
| `Conditions.ConditionsCombine` | internal/domain/logic.go:136-155 | a rule fires iff its conditions are not empty and each would fire alone (AND), or one of them would (anything else) |
| `Conditions.HideAdds` | internal/domain/logic.go:160-178 | a further hide rule that fires hides its target alone, unless a fired rule shows it |
| `Conditions.ShowReveals` | internal/domain/logic.go:160-178 | a further show rule that fires reveals its target whatever hides it; reserved actions do nothing |
| `Handlers.SingleChoiceValidate` | internal/domain/qtype/choice.go:52-74 | the complaint is decided by the first option of that value, unreadable answers included |
| `Handlers.SinglePassesIffAccepts` | internal/domain/qtype/choice.go:52-74 | an answer passes iff it names an option whose fill-in rule its text meets |
| `Handlers.MultiChoiceValidate` | internal/domain/qtype/choice.go:133-173 | the first bad pick is the one reported; then repetition, then the count bounds |
| `Base.SetSizeDecidesDistinct` | internal/domain/qtype/choice.go:149-164 | comparing the number of different values with the length is an exact repetition test |
| `Handlers.SelectMatrixValidate` | internal/domain/qtype/matrix.go:40-74 | for single-select and scale matrices, whatever order the answer map is walked in, the result is one of the complaints the cells deserve, none iff no cell does and the required rows are filled |
| `Handlers.RowPicksValidate` | internal/domain/qtype/matrix.go:134-150 | the verdict on one row's picks: strings of listed columns, no repetition, count in bounds |
| `Handlers.MatrixMultiValidate` | internal/domain/qtype/matrix.go:106-165 | the same over any map order for multi-select matrices; the minimum test repeated in the required loop never decides anything |
| `Handlers.MatrixFillValidate` | internal/domain/qtype/matrix.go:280-317 | the same for text matrices, lengths in UTF-16 units |
| `Handlers.MatrixSliderValidate` | internal/domain/qtype/matrix.go:350-391 | the same for sliders, with the default range |
| `Handlers.MultiFillValidate` | internal/domain/qtype/multifill.go:25-60 | the same for blanks, each with its own text rules; the last of repeated ids counts |
| `Handlers.GridPassesIffAccepts` | internal/domain/qtype/matrix.go:54-73 | whichever complaint an enumeration leads to, passing is one declarative predicate of the answer map |
| `Handlers.CellFineIffOk` | internal/domain/qtype/matrix.go:120-150 | a cell raises no complaint iff it is skipped or satisfies its kind's rule |
| `Handlers.DropdownValidate` | internal/domain/qtype/dropdown.go:18-36 | exactly the empty string and listed values pass |
| `Handlers.Validate` | internal/domain/registry.go:9-37 | every registered kind's verdict through one dispatch |
| `Handlers.PassesIffAccepts` | internal/domain/validate.go:31-38 | for every kind, no complaint iff the declarative acceptance predicate holds |
| `Acceptance.Utf16Units` | internal/domain/qtype/text.go:15-18 | lengths add up, and a character outside the basic plane counts twice |
| `Acceptance.TextAcceptedExactly` | internal/domain/qtype/textformat.go:115-127 | a string of inclusive minimum and maximum length and the right format |
| `Acceptance.TextComplaint` | internal/domain/qtype/textformat.go:115-127 | type first, then too long, too short, format |
| `Acceptance.DropdownAcceptedExactly` | internal/domain/qtype/dropdown.go:18-36 | the empty string or a listed value |
| `Acceptance.ScaleAcceptedExactly` | internal/domain/qtype/scale.go:18-45 | whole numbers in the inclusive range, 1 to 5 by default, and nothing else |
| `Acceptance.UnregisteredPasses` | internal/domain/validate.go:31-34 | a type without a handler is never found fault with |
| `Acceptance.SingleAcceptedExactly` | internal/domain/qtype/choice.go:36-74 | the answer names a value, bare or in an object, whose first option's fill-in rule its text meets |
| `Acceptance.SingleComplaint` | internal/domain/qtype/choice.go:52-74 | which of the three complaints, by what the answer names |
| `Acceptance.WhiteSpace` | internal/domain/qtype/choice.go:68-71 | blanks, tabs and line ends are white space; letters, digits and signs are not |
| `Acceptance.MultiAcceptedExactly` | internal/domain/qtype/choice.go:117-173 | an array of good picks, no value named twice, within inclusive bounds, not empty if required |
| `Acceptance.MultiComplaint` | internal/domain/qtype/choice.go:133-173 | the order of the complaints about the whole array |
| `Acceptance.PickComplaint` | internal/domain/qtype/choice.go:150-160 | one bad pick: unknown, or its text missing by the last option of its value |
| `Acceptance.FirstBadPickTold` | internal/domain/qtype/choice.go:150-160 | the first bad pick is the one complained about |
| `Acceptance.MatrixSingleAcceptedExactly` | internal/domain/qtype/matrix.go:40-74 | every text cell is a listed column of a listed row; every row picked if required |
| `Acceptance.MatrixScaleAcceptedExactly` | internal/domain/qtype/matrix.go:207-240 | the same with scored columns |
| `Acceptance.MatrixMultiAcceptedExactly` | internal/domain/qtype/matrix.go:106-165 | every non-empty cell is an array of different listed columns within inclusive bounds; none empty if required |
| `Acceptance.MatrixFillAcceptedExactly` | internal/domain/qtype/matrix.go:280-317 | every filled cell is a text of at most the length, of a listed row; all filled if required |
| `Acceptance.MatrixSliderAcceptedExactly` | internal/domain/qtype/matrix.go:350-391 | every cell is a number of a listed row in the inclusive range, 0 to 100 by default; all numbers if required |
| `Acceptance.MultiFillAcceptedExactly` | internal/domain/qtype/multifill.go:25-60 | every filled blank is a text its last blank of that id would accept as a question; all filled if required |
| `Acceptance.ComplaintIsOfACell` | internal/domain/qtype/matrix.go:54-73 | a complaint is one some cell would get alone; a missing item is reported only when no cell is at fault |
| `Acceptance.PickCellTold` | internal/domain/qtype/matrix.go:54-73 | for one picked cell, the row is checked before the column |
| `Acceptance.PicksCellTold` | internal/domain/qtype/matrix.go:120-150 | for one cell of picks, the order of its six checks |
| `Acceptance.FillCellTold` | internal/domain/qtype/matrix.go:290-308 | for one text cell: row, type, length |
| `Acceptance.SliderCellTold` | internal/domain/qtype/matrix.go:368-382 | for one slider: row, type, range |
| `Acceptance.BlankCellTold` | internal/domain/qtype/multifill.go:36-51 | for one blank: its id, then as a text question |
| `Rows.MultiChoiceNormalize` | internal/domain/qtype/choice.go:175-195 | the rows of the picks in order, the fill-in row next to its value |
| `Rows.TextGridNormalize` | internal/domain/qtype/matrix.go:76-90 | rows in props order whatever the map order; also the text matrix and the blanks |
| `Rows.MatrixMultiNormalize` | internal/domain/qtype/matrix.go:167-185 | one row per non-empty string of each array cell, in props order then array order |
| `Rows.MatrixScaleNormalize` | internal/domain/qtype/matrix.go:242-266 | the score of the chosen column, or its text when it has none |
| `Rows.MatrixSliderNormalize` | internal/domain/qtype/matrix.go:393-407 | the numeric cells in props order |
| `Rows.Normalize` | internal/domain/normalize.go:8-26 | every kind's rows through one dispatch |
| `RowShapes.ScalarShape` | internal/domain/qtype/text.go:46-79 | one row without a sub id for a non-empty text or a number, none otherwise, none for an unregistered type |
| `RowShapes.PickShape` | internal/domain/qtype/choice.go:76-87 | a choice leaves its value, then its text under `fill` or under `<value>.fill` |
| `RowShapes.NoPickNoRows` | internal/domain/qtype/choice.go:175-195 | what names no value leaves no row |
| `RowShapes.PicksInOrder` | internal/domain/qtype/choice.go:175-195 | the rows of several choices are those of each, in order |
| `RowShapes.ItemsInOrder` | internal/domain/qtype/matrix.go:76-90 | the rows of a matrix are those of its items in props order |
| `RowShapes.BlanksInOrder` | internal/domain/qtype/multifill.go:62-76 | the same of blanks |
| `RowShapes.TextItemShape` | internal/domain/qtype/matrix.go:319-333 | a text cell leaves its text under the item's id: picks, texts and blanks |
| `RowShapes.ScaleItemShape` | internal/domain/qtype/matrix.go:242-266 | a scale cell leaves the score of the last column of its value, or the value |
| `RowShapes.SliderItemShape` | internal/domain/qtype/matrix.go:393-407 | a number leaves itself under the item's id |
| `RowShapes.PicksItemShape` | internal/domain/qtype/matrix.go:167-185 | each non-empty string of a row's picks leaves a row of its own, in order |
| `RowShapes.NoArrayNoRows` | internal/domain/qtype/matrix.go:167-185 | what is no array leaves none |
| `Lossless.AnswerDecodes` | internal/domain/normalize.go:8-26 | for every recoverable kind, decoding the rows of an accepted answer gives its canonical form |
| `Lossless.CanonicalFaithful` | internal/domain/qtype/choice.go:36-50 | the canonical form is accepted too, is its own canonical form, and leaves the same rows |
| `Lossless.GridDecodes` | internal/domain/qtype/matrix.go:76-407 | the rows of any accepted matrix or fill-in answer determine its cells |
| `Lossless.PicksDecode` | internal/domain/qtype/choice.go:175-195 | value rows and fill-in rows regroup into the picks they came from |
| `Lossless.PicksBounded` | internal/domain/qtype/choice.go:149-173 | picks that are all offered and all different are no more than the different option values |
| `Exactness.LosslessExactly` | internal/domain/normalize.go:8-26 | rows determine the answer, up to canonical form, iff the props are recoverable: the condition is the weakest |
| `Exactness.MultiChoiceCounts` | internal/domain/qtype/choice.go:149-195 | a passing array is no longer than the number of option values, lies within the bounds, and, with non-empty values, leaves one row per pick and one per text |
| `Exactness.MultiChoiceAnswerable` | internal/domain/qtype/choice.go:165-172 | a required question can be answered iff some count up to the number of option values lies within its bounds |
| `Exactness.SingleWitness` | internal/domain/qtype/choice.go:76-87 | when the empty value can be picked two different accepted answers leave the same rows |
| `Exactness.MultiWitness` | internal/domain/qtype/choice.go:175-195 | the same for several picks, for any bounds that admit one |
| `Exactness.MatrixMultiWitness` | internal/domain/qtype/matrix.go:167-185 | the same for a matrix with an empty column value |
| `Exactness.ScaleWitness` | internal/domain/qtype/matrix.go:242-266 | the same for two columns of equal score |
| `Pipeline.ValidateSurvey` | internal/domain/validate.go:15-41 | one error per failing visible question, in order, each a complaint that question may raise; none iff the sheet passes |
| `Pipeline.NoErrorsIffPasses` | internal/domain/validate.go:15-41 | any error list a run may report is empty iff no visible question fails |
| `Pipeline.PassesExactly` | internal/domain/validate.go:15-41 | a sheet passes iff every visible required question is answered and every visible answer is one its question accepts |
| `Pipeline.ErrorsNameFaulty` | internal/domain/validate.go:15-41 | the errors are for exactly the visible questions that are required and missing or wrongly answered, in order; a missing one is reported as missing |
| `Pipeline.NormalizeSurvey` | internal/domain/normalize.go:8-26 | the rows of the visible answered questions in question order |
| `Pipeline.SheetRowsConcat` | internal/domain/normalize.go:8-26 | a sheet's rows are those of its questions one after the other |
| `Pipeline.OneQuestionRows` | internal/domain/normalize.go:10-24 | a question has rows only if visible and answered |
| `Pipeline.NonInterference` | internal/domain/validate.go:15-41 | sheets that agree on every question a condition names and on every visible question are hidden, validated and flattened alike |
| `Pipeline.QuestionLossless` | internal/domain/normalize.go:8-26 | a visible answer that passes is rebuilt from the sheet's rows if its question has its own id and recoverable props, whatever the other questions are and whether or not they pass |
| `Pipeline.SheetLossless` | internal/domain/normalize.go:8-26 | a passing sheet's rows rebuild all such answers, across all kinds |
| `Pipeline.DistinctIdsAreOwn` | internal/domain/schema.go:36-51 | distinct question ids give every question its own |
| `Pipeline.SharedIdDecodesTwice` | internal/domain/normalize.go:10-25 | one pick under an id that two questions share is decoded as two picks |
| `RateLimit.Limiter.Allow` | internal/lib/ratelimit/ratelimit.go:29-49 | the decision and the whole new bucket map, other keys untouched |
| `RateLimit.TokensInRange` | internal/lib/ratelimit/ratelimit.go:33-48 | in every history, for any capacity, tokens stay between min(0, capacity - 1) and the capacity; so between 0 and the capacity when that is at least 1 |
| `RateLimit.WindowBound` | internal/lib/ratelimit/ratelimit.go:29-49 | in any history and any window at most max(1, capacity) + rate · length calls of a key are granted |
| `RateLimit.CapacityBoundsExactly` | internal/lib/ratelimit/ratelimit.go:33-37 | the bound with the capacity itself holds of all histories and windows iff the capacity is at least 1 |
| `RateLimit.RefillsCompose` | internal/lib/ratelimit/ratelimit.go:38-43 | refilling in two steps, capped each time, is refilling once |
| `RateLimit.DeniedCallsInert` | internal/lib/ratelimit/ratelimit.go:29-49 | dropping any denied calls of a key and any calls of other keys leaves every decision for that key as it was |
| `RateLimitExact.GrantedExactly` | internal/lib/ratelimit/ratelimit.go:29-49 | with a capacity of at least 1 and a clock that never runs back, a call is granted iff, for every window that ends with it, the grants so far and one more are at most capacity + rate · length |
| `RateLimitExact.BelowOneGrantsOnce` | internal/lib/ratelimit/ratelimit.go:33-37 | with a capacity below 1 a key is granted its first call and no other |
| `Search.LiteralSearch` | internal/service/survey/survey.go:182-187 | the pattern built from a keyword matches a title iff the folded title contains the folded keyword |
| `Search.SearchFrom` | internal/dao/queries/surveys.sql:15-21 | for a case-sensitive match, the same against plain substrings, whatever characters the keyword holds |
| `Search.LiteralPrefix` | internal/service/survey/survey.go:184-187 | an escaped text followed by any pattern matches exactly that text and then the pattern |
| `Search.EscapeFolds` | internal/dao/queries/surveys.sql:15-21 | escaping commutes with case folding |
| `Search.EscapeInvertible` | internal/service/survey/survey.go:184-187 | no two keywords share a pattern: escaping can be undone |
| `Search.EscapedIsLiteral` | internal/service/survey/survey.go:184-187 | an escaped text matches itself and nothing else |
| `Search.UnderscoresCount` | internal/dao/queries/surveys.sql:15-21 | n underscores match exactly the texts of length n |
| `Search.PercentSkips` | internal/dao/queries/surveys.sql:15-21 | a percent sign matches any run before the rest of the pattern |
| `Search.EscapeIsSequential` | internal/service/survey/survey.go:184-187 | the one-pass escape is the replacement of backslash first, then percent, then underscore |
| `Search.EscapeCharLastExactly` | internal/service/survey/survey.go:184-187 | replacing backslash last gives the same iff the keyword has no percent and no underscore |
| `Listing.PageWindow` | internal/service/survey/survey.go:130-146 | the clamped size lies in 1..100, and the offset is that of the wrapped product |
| `Listing.OffsetExactly` | internal/service/survey/survey.go:137-146 | the offset is the clamped number of rows before the page iff that number fits 64 bits or has one of the named residues modulo 2^64 and 2^32, and negative iff both residues have the sign bit set |
| `Listing.WrappedPageIsFirst` | internal/service/survey/survey.go:141-146 | page numbers beyond that for which the first page is shown, and for which the database is given a negative offset |
| `Listing.List` | internal/service/survey/survey.go:110-171 | the window of the ordered, filtered rows with the total of all of them on every page; a negative offset is the database's error |
| `Listing.OrderCorrect` | internal/dao/queries/surveys.sql:22-23 | the listing is ordered and holds the same rows |
| `Listing.OrderUnique` | internal/dao/queries/surveys.sql:22-23 | with distinct ids only one listing is so ordered |
| `Listing.NewestFirst` | internal/dao/queries/surveys.sql:22-23 | newer rows first, and of rows created together the greater key first |
| `Listing.PageHolds` | internal/service/survey/survey.go:130-149 | page p holds the rows after p - 1 full pages, ten to a page by default and a hundred at most |
| `Listing.PagesPartition` | internal/service/survey/survey.go:130-149 | for any requested size, pages 1 to ⌈total/size⌉ put together are the whole ordered list, each row once |
| `Listing.PagesPastTheEnd` | internal/service/survey/survey.go:137-149 | any later page is empty |
| `Listing.SearchSelectsLiterally` | internal/dao/queries/surveys.sql:16-31 | before ordering and cutting, each row is selected as often as it is there iff owner, status and type are the wanted ones and its folded title contains the folded keyword |
| `IdCard.IsValidIdcard` | internal/domain/qtype/textformat.go:45-56 | the loop with its weight and check tables accepts iff the shape is right and the sum with weights 2^(17-i) over all 18 characters is 1 modulo 11 |
| `IdCard.WeightTable` | internal/domain/qtype/textformat.go:45-56 | each table weight is the power of two it stands for, modulo 11 |
| `IdCard.CheckCharacter` | internal/domain/qtype/textformat.go:45-56 | the check table holds, for each residue, the one character that completes the sum to 1 |
| `IdCard.CheckCharacterUnique` | internal/domain/qtype/textformat.go:45-56 | any 17 digits are completed by exactly one check character, X in either case |
| `IdCard.ValidShape` | internal/domain/qtype/textformat.go:45-48 | a valid number is 17 ASCII digits and one more character |
| `IdCard.SingleErrorDetected` | internal/domain/qtype/textformat.go:45-56 | changing the value of any one character of a valid number makes it invalid |
| `IdCard.TranspositionDetected` | internal/domain/qtype/textformat.go:45-56 | swapping two different characters of a valid number, at any distance, goes unnoticed iff they are ten places apart and no final X is moved |
| `IdCard.UnnoticedSwap` | internal/domain/qtype/textformat.go:45-56 | a valid number whose second and twelfth digits differ and can be swapped unnoticed |

## Left out

- Decoding of schema documents: a parameter (`Survey.Parser`). All that is assumed of it is that
  `version` is read from the field of that name. Documents are JSON objects; JSON text, field
  matching by Go and storage order are not modelled.
- `Theorems.VersionIsolation`: rests on that assumption about `version`. Go's decoder also takes
  other spellings of a field name that fold to it, so a draft with such a second key, stored after
  `version`, would be stamped under one name and read under the other.
- Creating and copying a survey: only the insert they end in. The default document they build is
  not modelled.
- Interleaving at READ COMMITTED: a transaction is modelled as its reads followed by one atomic
  commit guarded by the unique keys; blocking on an uncommitted row is not.
- Database errors are abandoned operations in the machine and a budget of writes in the store.
- Random ids: a new id is a parameter, either fresh or refused by the unique key.
- Version numbers are unbounded; the int32 column is not modelled.
- Numbers are exact reals, in answers, sliders and the limiter; rounding is not modelled.
- Text formats other than the identity card: an arbitrary predicate on the value.
- Error message texts: enumerations of problems and outcomes.
- Surrogate keys, indexes and timestamps: tables are maps keyed by their unique keys.
- `RateLimit.Limiter.Allow`: buckets are values in a map, where the program keeps pointers; the
  mutex is the atomicity of one call, and the clock is a parameter.
- `Search.LiteralSearch`: case folding is any character-wise function that keeps backslash, percent
  and underscore apart from other characters. A pattern ending in a lone escape character, which the
  database refuses and escaping never produces, matches nothing.
- `Listing.List`: trimming of the keyword and the owner list for administrators' display.
- Client address and user agent stored with a response, response counts, the published-schema
  endpoint, roles and sessions, transport, configuration and logging.
