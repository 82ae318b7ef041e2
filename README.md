# codepair-poc: the editor/CRDT bridge and the check service, in Dafny

This project models two parts of the codepair proof of concept.

**The y-sync bridge** (`frontend/src/utils/yorkie/y-sync.ts`) is a CodeMirror view plugin that keeps the editor's text and a Yorkie document's shared `content` text in step. Module `YSync` in `y_sync.dfy` models it as the class `SyncPlugin`:

- The constructor reads the `YSyncConfig` from the facet's inputs. `Combine` is the facet's `combine`, and the last input wins. The constructor then subscribes once to `"$.content"` and keeps the disposer handle.
- `Observe` is the `_observer` callback. It ignores every event but `"remote-change"` and every operation but `"edit"`. Each edit becomes one clamped change, dispatched to the editor in emission order and tagged with the plugin's config.
- `Update` is the local-to-remote path. It returns early when the document did not change. It also returns early when the first transaction is tagged with this plugin's own config (echo suppression). Otherwise it runs one `doc.update`. That update creates the `content` text if it is missing, replays every changed range with `Text.edit`, and moves the presence selection to the caret that each edit reports. The source edits each range at `fromA, toA`, positions in the editor's start document. The model edits at `fromB, fromB + (toA - fromA)`, the range shifted by what the earlier ranges of the same update changed (see Findings).
- `Destroy` calls the disposer.
- `ApplyOperation` is the `forEach` callback that the observer runs for each operation.

Both collaborators are abstract classes. `EditorView` holds a string and a transaction log. `Document` holds the optional content text, the selection, one entry per `doc.update` call and the subscriptions. A CodeMirror change and a Yorkie `Text.edit` are both the splice `Splice`. `indexRangeToPosRange` is an uninterpreted function held by the document. When the observer dispatches a transaction, CodeMirror calls the plugin's own `update` with the result. `Observe` models that call. Echo freedom is therefore proved by having `Observe` call the plugin's own `Update` inside the proof.

The spec functions `RemoteReplay` (observer) and `LocalReplay` (update) describe what the two paths do, and the lemmas state their properties. The main result is `UpdateKeepsSharedTextInSync`, about the corrected replay in shifted coordinates: for a well-formed change set, if the shared text held the editor's start document, it holds the editor's new document afterwards. The selection ends at the caret after the last inserted text. For the replay as the source writes it, at `fromA, toA`, this property is guaranteed for a single changed range (`SingleRangeCoordinatesAgree`). It can break with two ranges (`AsWrittenDesyncs`).

**The check service** (`backend/src/check/check.service.ts`) answers two questions:

- `checkNameConflict`: is the name, or its slug, already used by a user or a workspace?
- `checkYorkie`: is a Yorkie auth-webhook request allowed?

Module `CheckService` in `check_service.dfy` models the database tables as sequences of rows. `findFirst` and `findMany` become first-match and filter functions. The JWT verifier, the document lookup, `slugify` and the clock are inputs. `CheckYorkie` is the imperative method: its `allowed` and `reason` locals are overwritten branch by branch. It is proved equal to the decision function `Decide`.

`Strings` (`strings.dfy`) gives JavaScript's `split`/`join` on one character. It is used for the token split and for CodeMirror's line flattening. `Wrappers` (`wrappers.dfy`) gives `Option` and `Result`.

Two facts about the source shape the model:

- `update` adds no origin annotation to what it sends to the document.
- The observer skips local changes only through its `event.type !== "remote-change"` test (`frontend/src/utils/yorkie/y-sync.ts:50`). It has no echo filter of its own.

## Model

| member | source | states |
|---|---|---|
| `YSync.Combine` | frontend/src/utils/yorkie/y-sync.ts:28-32 | the combined config exists iff some config was supplied, and it is one of the inputs |
| `YSync.CombineLastWins` | frontend/src/utils/yorkie/y-sync.ts:29-31 | the last supplied config wins; earlier providers never matter once a later one exists |
| `YSync.SyncPlugin.constructor` | frontend/src/utils/yorkie/y-sync.ts:45-73 | conf is the facet's combined config and `_doc` its document; exactly one new subscription, to "$.content", under a fresh handle; nothing else in the document changes |
| `YSync.SyncPlugin.Observe` | frontend/src/utils/yorkie/y-sync.ts:49-70 | a non-"remote-change" event leaves the editor untouched; a remote change moves editor text and transaction log exactly as `RemoteReplay` says; the shared document is never changed (the re-entrant update is suppressed) |
| `YSync.ClampedChange` | frontend/src/utils/yorkie/y-sync.ts:56-62 | from and to are the operation's positions clamped at 0 (negative ones become 0, others are kept); the insert is the operation's content |
| `YSync.EditOps` | frontend/src/utils/yorkie/y-sync.ts:54-55 | keeps exactly the operations of type "edit"; order and multiplicity are fixed by `EditOpsAppend` and `EditOpsSingle` |
| `YSync.EditOpsAppend` | frontend/src/utils/yorkie/y-sync.ts:54-55 | filtering a concatenation is concatenating the filtered parts, so the edits keep their order and their number of copies |
| `YSync.EditOpsSingle` | frontend/src/utils/yorkie/y-sync.ts:55 | a single operation is kept iff its type is "edit" |
| `YSync.SyncPlugin.ApplyOperation` | frontend/src/utils/yorkie/y-sync.ts:54-68 | one operation of a remote change: an edit is dispatched as one tagged transaction, and the re-entrant `update` leaves the document alone; the editor moves exactly as `RemoteReplay` says for that operation alone |
| `YSync.RemoteReplay` | frontend/src/utils/yorkie/y-sync.ts:49-70 | defines what the observer does to the editor text for the operations of a remote change: one tagged transaction per edit, in order, stopping at a missing value or a range outside the text; its contract states that it dispatches at most one transaction per operation, each tagged with the plugin's config |
| `YSync.RemoteReplayIgnoresNonEdits` | frontend/src/utils/yorkie/y-sync.ts:54-55 | non-edit operations have no effect: replaying all operations equals replaying only the edits |
| `YSync.RemoteReplayDispatchesEachEdit` | frontend/src/utils/yorkie/y-sync.ts:54-67 | the i-th dispatched transaction is the clamped change of the i-th edit op tagged with conf; one per edit op when no error aborts the run, never more |
| `YSync.RemoteReplayInOrder` | frontend/src/utils/yorkie/y-sync.ts:54-69 | inserts "A" at 0 then "B" at 1 on an empty editor give "AB" as two transactions in that order |
| `YSync.RemoteReplayEchoFree` | frontend/src/utils/yorkie/y-sync.ts:64-80 | every transaction the observer dispatches makes `update` return without touching the document |
| `YSync.Suppressed` | frontend/src/utils/yorkie/y-sync.ts:76-82 | defines the early return of `update`; its contract states that an update that changed nothing is always skipped, and that one without transactions is skipped only when it changed nothing |
| `YSync.SuppressedReadsFirstTransaction` | frontend/src/utils/yorkie/y-sync.ts:76-82 | suppression depends on the first transaction only, whatever follows it |
| `YSync.SyncPlugin.Update` | frontend/src/utils/yorkie/y-sync.ts:75-98 | suppressed updates (nothing changed, or first transaction tagged with conf) change nothing in the document; otherwise content and selection are `LocalReplay` of the changes and exactly one `doc.update` entry holding its edits is added, subscriptions untouched |
| `YSync.LocalReplay` | frontend/src/utils/yorkie/y-sync.ts:84-97 | defines the body of `doc.update` in `update`, in either coordinate choice; its contract states that it issues exactly one edit per changed range, and that the content exists afterwards iff it existed before or some range was replayed |
| `YSync.LocalReplayEditsInOrder` | frontend/src/utils/yorkie/y-sync.ts:84-90 | one `content.edit` per changed range, the i-th edit for the i-th range, with the inserted lines joined by '\n' |
| `YSync.LocalReplayCreatesContentLazily` | frontend/src/utils/yorkie/y-sync.ts:86-88 | an absent content is replaced by a new empty text before the first edit, and exists afterwards iff some range was replayed |
| `YSync.LocalReplayKeepsContent` | frontend/src/utils/yorkie/y-sync.ts:86-88 | once the content exists it is never removed (that it is never recreated is `LocalReplayAppliesEdits`) |
| `YSync.LocalReplayAppliesEdits` | frontend/src/utils/yorkie/y-sync.ts:84-97 | in either coordinate choice, the content afterwards is the recorded edits applied in order to the content before, or to a new empty text when it was absent, so it is never recreated; the selection is the one those edits leave |
| `YSync.ApplyEditsSnoc` | frontend/src/utils/yorkie/y-sync.ts:90-95 | a further edit works on the text the earlier edits produced; the selection becomes its caret's position range when `edit` answers a range and otherwise stays as the earlier edits left it, so it is that of the last edit that answered a range |
| `YSync.EditsOutsideChangeNothing` | frontend/src/utils/yorkie/y-sync.ts:90-91 | edits that all fall outside the text leave both the text and the selection as they were |
| `YSync.DispatchUpdateWellFormed` | frontend/src/utils/yorkie/y-sync.ts:89 | the update CodeMirror reports for a single change is a well-formed change set whose lines join back to the inserted text |
| `YSync.ShiftedReplayReachesNewDoc` | frontend/src/utils/yorkie/y-sync.ts:85-95 | for the corrected replay in shifted coordinates (not the source's `fromA, toA`): replaying the remaining ranges from a half-updated text reaches the editor's new text, and the selection is the caret after the last inserted range |
| `YSync.UpdateKeepsSharedTextInSync` | frontend/src/utils/yorkie/y-sync.ts:84-97 | for the corrected replay in shifted coordinates (not the source's `fromA, toA`): if the shared text held the editor's start document, after the update it holds the new document and the selection is the position range of the caret after the last insert, inside the new text |
| `YSync.SingleRangeCoordinatesAgree` | frontend/src/utils/yorkie/y-sync.ts:85-90 | with one changed range, start-document and shifted coordinates give the same replay |
| `YSync.AsWrittenDesyncs` | frontend/src/utils/yorkie/y-sync.ts:85-90 | with the ranges replayed at fromA/toA, a well-formed two-range change set of "abcd" into "XabcdY" leaves "XabcYd" in the shared text |
| `YSync.SyncPlugin.Destroy` | frontend/src/utils/yorkie/y-sync.ts:100-102 | the "$.content" subscription is removed and nothing else in the document changes; calling it again is harmless |
| `Strings.Split` | backend/src/check/check.service.ts:39 | the split always has at least one field and no field contains the separator |
| `Strings.JoinSplit` | frontend/src/utils/yorkie/y-sync.ts:89 | joining the fields of a split with the separator restores the string |
| `Strings.SplitJoin` | frontend/src/utils/yorkie/y-sync.ts:89 | splitting a join of separator-free parts restores the parts |
| `CheckService.TokenType` | backend/src/check/check.service.ts:39 | the type is the longest prefix of the token without ':' |
| `CheckService.TokenSecret` | backend/src/check/check.service.ts:39 | the secret is defined exactly when the token contains ':', and contains no ':' itself |
| `CheckService.TokenFields` | backend/src/check/check.service.ts:39 | for "type:secret" and "type:secret:more" the type is the first field and the token the second; further fields are dropped |
| `CheckService.TokenWithoutColon` | backend/src/check/check.service.ts:39 | a token without ':' is entirely type, with undefined secret |
| `CheckService.MatchingUsers` | backend/src/check/check.service.ts:19-24 | exactly the users whose nickname equals the name or the slug |
| `CheckService.MatchingWorkspaces` | backend/src/check/check.service.ts:25-29 | exactly the workspaces whose title equals the name or the slug |
| `CheckService.CheckNameConflict` | backend/src/check/check.service.ts:18-33 | conflict iff some user nickname or workspace title equals the raw name or its slug |
| `CheckService.FindSharingToken` | backend/src/check/check.service.ts:70-75 | finds a row iff one matches the token filter, and then the first matching one; an undefined token filter matches every row |
| `CheckService.PassMethodsIgnoreToken` | backend/src/check/check.service.ts:41-47 | ActivateClient/DeactivateClient are allowed with reason "Pass <method>", independent of token and backend |
| `CheckService.DefaultAllowedIffDocumentFound` | backend/src/check/check.service.ts:49-68 | a "default" token fails on a missing or unverifiable JWT or an empty attribute list, and is otherwise allowed iff the document lookup finds a record, with an empty reason |
| `CheckService.StrictShareNeedsMatchingSecret` | backend/src/check/check.service.ts:69-84 | for the corrected decision (`Decide`), not the source as written: a "share" token is allowed iff it carries a secret and the first row with that secret is not expired (an expiry only counts when now is after it); the reason is empty |
| `CheckService.ShareWithoutSecretIsAllowed` | backend/src/check/check.service.ts:69-84 | as written, the bare token "share" is allowed whenever the first sharing-token row of any document is unexpired |
| `CheckService.OtherTypesDenied` | backend/src/check/check.service.ts:86-91 | any other token type is denied with an empty reason |
| `CheckService.ReasonOnlyForPassMethods` | backend/src/check/check.service.ts:37-47 | a non-empty reason only comes from the pass methods, which are always allowed |
| `CheckService.DecideAsWritten` | backend/src/check/check.service.ts:36-92 | defines `checkYorkie` as written; its contract states that errors arise only for "default" tokens, and that an allowed "share" token has some unexpired row matching its filter, which is every row when there is no secret |
| `CheckService.Decide` | backend/src/check/check.service.ts:36-92 | the corrected decision differs from `DecideAsWritten` only for a "share" token without a secret, which it denies; an allowed "share" token always carries a secret |
| `CheckService.CheckYorkie` | backend/src/check/check.service.ts:36-92 | the imperative check with its overwritten locals answers exactly `Decide` |

## Left out

- CodeMirror's `EditorView`, `ViewPlugin`, `Facet` and `Annotation` machinery is not modelled. Only dispatch, the change set that `iterChanges` reports and one annotation value are kept. `ySync` (`ViewPlugin.fromClass`) and `yorkieSyncAnnotation` have no logic of their own.
- YSync.EditorView.Dispatch: a transaction carries one change, because the observer always dispatches a one-element change array. A range outside the document is modelled as CodeMirror's RangeError, which aborts the observer.
- YSync.TextEdit: Yorkie's `Text.edit` is a splice that answers the caret just after the inserted text. The model assumes an edit outside the text changes nothing and answers no range. Yorkie's own failure behaviour is not modelled, and neither are CRDT positions, tombstones or propagation to other peers.
- YSync.DispatchUpdateWellFormed: inserted text is assumed to contain no '\r'. CodeMirror splits an inserted string into lines at "\r\n", "\r" and "\n", so a remote insert holding "\r\n" reaches the editor as "\n". The model splits at '\n' only. For such inserts, the editor text in `Observe` and the lines in `DispatchUpdate` are not what CodeMirror produces, and the editor and shared texts then differ in length.
- `indexRangeToPosRange` is an uninterpreted function of the text and the index range.
- A `char` stands for one UTF-16 code unit, the unit in which CodeMirror and Yorkie count positions. Text outside the Basic Multilingual Plane (surrogate pairs) is not modelled.
- YSync.SyncPlugin.constructor: requires at least one facet input. With none, `combine` returns undefined and the source throws on `this.conf.doc`.
- YSync.SyncPlugin.Update: it records one `doc.update` entry per call, even when no edit took effect. An exception thrown inside `doc.update` (for example a detached document) is not modelled. Ranges are replayed in shifted coordinates (see Findings).
- A missing `value` on an edit operation (the `op.value!` in the source) is modelled as an error that aborts the observer. It is not a crash.
- Config identity is Dafny reference equality on `SyncConfig`. The `client` field is carried but never used.
- check.service.ts: Prisma, `JwtService.verify`, `slugify` and `moment()` are inputs, and async/await is not modelled. The `document.findFirst` relation filter (workspace members `every` equal to `sub`) is abstracted into the `documentVisible` oracle.
- `CheckYorkieDto` and `YorkieMethod` are not part of this model. Methods are strings, and the pass methods are assumed to be the strings "ActivateClient" and "DeactivateClient".
- CheckService.CheckYorkie: denies a "share" token that has no secret (see Findings). The source's behaviour is kept as `DecideAsWritten`.
- backend/src/files/files.service.ts is not modelled. It wraps S3 presigned URLs, markdown rendering, PDF generation and one database lookup, all of them SDK calls.
- backend/src/storage/storage.module.ts is not modelled. It is an S3 client factory over configuration.
- backend-go/internal/storage/s3/s3.go is not modelled. Every method is a "not implemented" stub.
- frontend/src/App.tsx and frontend/src/components/layouts/WorkspaceLayout.tsx are not modelled. They are UI composition and routing.
- frontend/src/utils/yorkie/index.ts is not modelled. It only assembles a plugin list.

## Findings

| source | as written | input that shows it | evidently intended | confidence | as-written member | corrected member |
|---|---|---|---|---|---|---|
| frontend/src/utils/yorkie/y-sync.ts:85-90 | each changed range is replayed as `content.edit(fromA, toA, …)`, in start-document coordinates, on text that the earlier ranges of the same update have already edited | "abcd" → "XabcdY" by inserting "X" at 0 and "Y" at 4 in one transaction (two cursors): the shared text becomes "XabcYd" | shift each range by the length changes before it, e.g. `edit(fromB, fromB + (toA - fromA), …)`, so the shared text equals the editor's new text | high (the ranges `iterChanges` reports are in start-document coordinates); not executed | `YSync.AsWrittenDesyncs` | `YSync.UpdateKeepsSharedTextInSync` |
| backend/src/check/check.service.ts:39,69-84 | with token "share" (no ':'), `token` is undefined, and `findFirst({ where: { token: undefined } })` applies no filter | method PushPull, token "share", the first sharing-token row unexpired: allowed = true without any secret | a "share" token is allowed only if it carries a secret that matches an unexpired row | high for the Prisma semantics of undefined filters; not executed | `CheckService.ShareWithoutSecretIsAllowed` | `CheckService.StrictShareNeedsMatchingSecret` |
