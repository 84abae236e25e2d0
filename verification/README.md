# Interview client: verified model

A Dafny model of the parts of the interview-coaching application whose behaviour spans many calls, and
proofs about it. It covers

- the interview event stream (`InterviewEvents`, `InterviewSocket`, `InterviewReplay`, `InterviewReconnect`,
  `InterviewFields`): a reducer with sequence dedupe, checkpoints, replay requests and a one-shot mock stream, over
  sockets that open and close and timers that reconnect; and the page that accumulates questions, scores and answers
  from it while a resume snapshot races the live events (`InterviewPage`, `InterviewMerge`, `InterviewContents`,
  `InterviewSystem`);
- authenticated requests (`TokenStorage`, `TokenTabs`, `AuthFlow`, `AuthTokens`, `AuthRequests`, `AuthReplies`,
  `ApiClient`): any number of concurrent requests sharing one silent-refresh flight, with 401 replays and 5xx backoff,
  over an in-memory token cache, per-tab session storage and a local-storage mirror shared by all tabs;
- codecs and parsers that undo a printer: pagination cursors through JSON (sections 2 to 7 of RFC 8259), UTF-8
  (section 3 of RFC 3629), base64 and its URL-safe form (sections 4 and 5 of RFC 4648) and percent-encoding (section
  2.1 of RFC 3986) (`JsText`, `JsonText`, `JsonRoundTrip`, `Uri`, `Base64`, `Cursor`), drilldown links (`Drilldown`),
  report sections and comparison tables (`ReportSections`, `ReportTable`), and the structured-output exclusion
  document (`Exclusions`);
- a whole-tree payload search (`PayloadScan`) and a table printer with width arithmetic (`TablePrinter`).

`Options`, `Lists`, `Whitespace`, `Decimal` and `TableText` hold what several modules share.

Code that the source writes as functions that overwrite fields or run loops is a class or a method with the same
branches (`InterviewSocket.InterviewWs`, `InterviewPage.InterviewLive`, `TokenStorage.Storage`, `ApiClient.Api`,
`PayloadScan.Walker`, and the loops in `Cursor`, `ReportTable`, `Exclusions`, `TablePrinter`); each is proved equal
to a function of the old state, and the properties are lemmas about that function over every input, every run and
every interleaving. A run is a list of steps; a step of the request protocol is the stretch of code between two
awaits. What the network, the server, the user and the clock do is a parameter of the step.

`dafny verify dfyconfig.toml` checks everything.

## Where the code and its documentation differ

The model follows the code.

- `src/api/client.ts:5-7` speaks of one silent refresh and a second 401 that ends the session. The loop at
  `src/api/client.ts:204-210` keeps no such count: `AuthRequests.RefreshesWithoutBound` gives, for every k, a run with a
  server that never reissues a token in which one request hears of k granted refreshes and is replayed k times.
  `AuthRequests.ReplayBoundIff` is the exact bound: with at most n grants, m replays a request are the limit in every
  run if and only if n <= m; for one replay that is one grant.
- `src/api/client.ts:148` names backoffs of 200 and 600 ms. The counter is raised first (`src/api/client.ts:236-237`),
  so the backoffs are 600 to 699 and 1800 to 1899 ms; two of them are at most 2598 ms together.
- `src/api/client.ts:211-212` means to keep tokens when a refresh fails for a passing reason. The code at
  `src/api/client.ts:213-217` looks at the request's own 401 instead: `AuthTokens.FailedRefreshKeepsTokensIff` says the
  tokens stay if and only if that 401 carried no definitive code, so `auth.token_expired` and a network error lose them,
  as the run of `AuthTokens.PassingFailureLosesTokens` does.
- `src/hooks/useInterviewWS.ts:314` means to prevent a reconnect after a disconnect, but stores the limit in the timer
  reference. `InterviewReconnect.DisconnectStillReconnectsIff` says for every run exactly when the hook can still
  reconnect on its own; with one socket and one timer, both referenced, that is when the socket's close event is still
  to come and attempts are left (`InterviewReconnect.LoneDisconnectIff`). A hook that only waits on its timer does not;
  connect, open, disconnect leaves one that does (`InterviewReconnect.DisconnectMayReconnect`).
- The merge of the resume snapshot tells questions apart by text where a live event goes by number
  (`src/pages/InterviewLive.tsx:512-521` against `334-337`). `InterviewMerge.QuestionsCommuteIff` is the exact condition
  under which that makes no difference, `InterviewMerge.ClashLosesAQuestion` a question lost when it fails. Restored
  entries without a text clash with nothing, since no event carries an empty question.
- Asking for what follows the largest sequence number seen (`src/hooks/useInterviewWS.ts:345-347`) catches up when
  nothing was skipped; `InterviewReplay.NothingMissedIff` is the condition a caller can check.
- A section's body ends at a blank-indented heading as well, and a heading with no blank after its hashes is found
  but ends nothing (`src/pages/ResearchReportPage.tsx:74-77`); the round trip of `ReportSections` is stated accordingly.
- A row of the exclusion table whose text mentions both `node_id` and `kind` is taken for the header and skipped
  (`backend/scripts/check_structured_exclusions.py:40`); `Exclusions.EntryRoundTrip` has that as a condition,
  and by `Exclusions.TableRoundTrip` one such row is enough for the printed table to read as another map.
- Two different places of a payload may print as the same path (`backend/scripts/assert_analytics_pii_free.py:49`).
  As lists of keys and indices they always differ (`PayloadScan.StepsTellPlacesApart`); printed, they differ in every
  payload over a set of keys that holds the parts of its keys if and only if no key of the set holds a dot or ends like
  an index (`PayloadScan.PrintedPathsDifferIff`).

## Model

| member | source | states |
|---|---|---|
| `Cursor.CursorRoundTrip` | src/lib/cursor.ts:12-25 | decoding an encoded cursor gives the object with ts under "ts" and id under "id", in the order asked for, for any two JavaScript strings |
| `Cursor.EncodedAlphabet` | src/lib/cursor.ts:15-16 | an encoded cursor uses only letters, digits, - and _, and its length is never 1 mod 4 |
| `Cursor.PaddingRestored` | src/lib/cursor.ts:21-22 | the text rebuilt for atob is the base64 text before its padding was stripped, sign for sign |
| `Cursor.PaddedCursorDecodesAlike` | src/lib/cursor.ts:19-25 | any token decodes, or fails to, like the same token with its padding kept |
| `Cursor.CursorsIdentifyPayloads` | src/lib/cursor.ts:12-17 | different payloads never share a cursor |
| `Cursor.JsonWritten` | src/lib/cursor.ts:13-14 | the text that goes into a cursor, property names and all |
| `Cursor.CursorWritten` | src/lib/cursor.ts:13-16 | a cursor is as many symbols as the UTF-8 of that text needs, reads in base 64 as the bytes do in base 256, and has - for + and _ for / |
| `Cursor.DecodedIff` | src/lib/cursor.ts:19-25 | any token decodes to the JSON value whose UTF-8 text its base64 holds, or to the error of the first of the three steps that cannot be taken |
| `Cursor.EncodeBase64IsBtoa` | src/lib/cursor.ts:15-15 | the percent-encoding detour is UTF-8: the middle of encodeCursor is base64 of the UTF-8 bytes |
| `Cursor.DecodeCursor` | src/lib/cursor.ts:19-25 | the padding loop ends and adds exactly the missing signs; the outcome, a value or one of three errors, is the decoding of the repadded text |
| `Uri.UnescapeEncodeIsUtf8` | src/lib/cursor.ts:15-15 | unescape of encodeURIComponent is the UTF-8 encoding of every well-formed string |
| `Uri.DecodeEscapeIsUtf8Inverse` | src/lib/cursor.ts:23-23 | decodeURIComponent of escape gives every well-formed string back from its UTF-8 bytes |
| `Uri.DecodeEscapeIff` | src/lib/cursor.ts:23-23 | decodeURIComponent of escape succeeds on exactly the UTF-8 encodings of well-formed strings, and gives the string |
| `Uri.EncodeWritten` | src/lib/cursor.ts:15-15 | encodeURIComponent leaves 71 characters alone and writes any other code point as the percent triples of its UTF-8 bytes |
| `Uri.EscapeWritten` | src/lib/cursor.ts:23-23 | escape leaves 69 characters alone and writes any other byte as one triple |
| `Uri.PercentWritten` | src/lib/cursor.ts:15-23 | a triple is a percent sign and two capital hexadecimal digits |
| `JsText.Utf8Written` | src/lib/cursor.ts:15-15 | the bytes of a code point are those of the UTF-8 table: as few as it needs, six bits in each but the first |
| `JsText.PairsCount` | src/lib/cursor.ts:15-15 | surrogate pairs in order are the code points from U+10000 on in order |
| `Uri.DecodeEncodeUri` | src/api/admin-logs.ts:55-58 | decodeURIComponent inverts encodeURIComponent on every well-formed string |
| `Uri.EncodeSucceedsIff` | src/api/admin-logs.ts:57-57 | encodeURIComponent throws exactly on strings with a lone surrogate |
| `Base64.AtobBtoa` | src/lib/cursor.ts:15-23 | atob inverts btoa on every byte string, padding included |
| `Base64.BtoaWritten` | src/lib/cursor.ts:15-15 | the text of any bytes: as many symbols as their bits need, reading in base 64 as the bytes in base 256, and signs up to a multiple of four |
| `Base64.SymbolWritten` | src/lib/cursor.ts:15-15 | the place of a symbol in the written-out alphabet is its value |
| `Base64.AtobSkips` | src/lib/cursor.ts:23-23 | atob skips ASCII white space anywhere |
| `JsonRoundTrip.ParseStringify` | src/lib/cursor.ts:13-24 | JSON.parse gives every value back from its text: literals, numbers, strings with any units, lists and objects at any depth |
| `JsonRoundTrip.StringifyWellFormed` | src/lib/cursor.ts:13-15 | the printed JSON never holds a lone surrogate, so encodeCursor never throws |
| `JsonRoundTrip.SpacesSkipped` | src/lib/cursor.ts:24-24 | the four white-space characters around a value make no difference |
| `JsonRoundTrip.LastOneWins` | src/lib/cursor.ts:24-24 | a name that comes twice has the value that comes last |
| `JsonText.QuoteUnitWritten` | src/lib/cursor.ts:13-14 | which characters of a string are printed escaped, and how |
| `JsonText.ShortEscapeRead` | src/lib/cursor.ts:24-24 | every short escape, the slash included, is read as its character |
| `JsonText.HexEscapeWritten` | src/lib/cursor.ts:13-14 | a hexadecimal escape has four digits that read as the unit |
| `Drilldown.DrilldownRoundTrip` | src/api/admin-logs.ts:39-58 | the link can be built, read as a query parameter and parsed back to its type and id exactly when the id is a non-empty well-formed text without line terminators |
| `Drilldown.ParsePrinted` | src/api/admin-logs.ts:41-53 | type:id parses to that type and id exactly when the id is non-empty, one line and well formed |
| `Drilldown.ParseReprints` | src/api/admin-logs.ts:41-53 | whatever parses reprints as itself, and is its own label |
| `Drilldown.SourceHrefCarriesId` | src/api/admin-logs.ts:60-73 | the page link of a parsed source carries its id under the name of its type |
| `Drilldown.ParsedIsWritten` | src/api/admin-logs.ts:39-73 | a value that parses is the word of its type, a colon and the id, and its link is the page of that type asked for the encoded id, word for word |
| `Drilldown.DrilldownIsWritten` | src/api/admin-logs.ts:55-58 | the link to a source is the logs page asked for the encoded word, colon and id |
| `TokenStorage.Storage.SetTokens` | src/api/token-storage.ts:48-65 | memory, session storage and mirror afterwards |
| `TokenStorage.Storage.GetAccessToken` | src/api/token-storage.ts:67-76 | the token found, memory before session before mirror, and what it caches |
| `TokenStorage.Storage.GetRefreshToken` | src/api/token-storage.ts:78-84 | the token found, never from the mirror, and what it caches |
| `TokenStorage.Storage.ClearTokens` | src/api/token-storage.ts:86-100 | nothing is left in memory, session storage or mirror |
| `TokenStorage.Storage.HasTokens` | src/api/token-storage.ts:102-104 | true exactly when an access token is found, with the same caching |
| `TokenTabs.OwnTokensReadBack` | src/api/token-storage.ts:48-84 | in every interleaving of sets, gets, clears and reloads over many tabs, a tab that set a pair since its last clear reads back exactly that pair |
| `TokenTabs.ClearedUntilSomeTabSets` | src/api/token-storage.ts:86-104 | after a clear the tab has no tokens, until some tab sets tokens |
| `TokenTabs.AccessComesFromSomeSet` | src/api/token-storage.ts:67-76 | a tab only ever reads an access token that some tab set |
| `TokenTabs.MirrorReadByOthers` | src/api/token-storage.ts:67-84 | a tab without tokens of its own that has read none reads exactly the access token that any tab set last, unless some tab cleared since, and no refresh token |
| `TokenTabs.ReadSticks` | src/api/token-storage.ts:67-76 | what a tab has read it goes on reading, whatever other tabs set or clear, until it sets, clears or reloads |
| `TokenTabs.OwnTokensCached` | src/api/token-storage.ts:67-84 | a tab's own tokens are held in memory once read |
| `InterviewSocket.InterviewWs.constructor` | src/hooks/useInterviewWS.ts:79-98 | the hook's initial state |
| `InterviewSocket.InterviewWs.ApplyEvent` | src/hooks/useInterviewWS.ts:128-196 | the whole new state and checkpoint reference, for every event; the reducer that the run theorems are about |
| `InterviewSocket.InterviewWs.RunSwitch` | src/hooks/useInterviewWS.ts:167-193 | the switch on the event type, and where it moves the checkpoint reference |
| `InterviewSocket.InterviewWs.ConnectMock` | src/hooks/useInterviewWS.ts:199-245 | the mock branch of connect is one batched fold over the mock events |
| `InterviewSocket.InterviewWs.Connect` | src/hooks/useInterviewWS.ts:247-254 | a new connecting socket is made and referenced, unless the referenced one is open |
| `InterviewSocket.InterviewWs.OnTimer` | src/hooks/useInterviewWS.ts:297-297 | a running timer stops running and does what connect does |
| `InterviewSocket.InterviewWs.OnOpen` | src/hooks/useInterviewWS.ts:256-274 | the socket opens: the state afterwards, the reset counter, and the replay request sent if there is a checkpoint |
| `InterviewSocket.InterviewWs.OnError` | src/hooks/useInterviewWS.ts:301-303 | a failed socket is told to close |
| `InterviewSocket.InterviewWs.OnClose` | src/hooks/useInterviewWS.ts:284-299 | the socket is gone and the reference dropped; while attempts are left a timer of the next delay is set, running and referenced |
| `InterviewSocket.InterviewWs.Disconnect` | src/hooks/useInterviewWS.ts:306-318 | the referenced timer no longer runs, the held socket is closing, both references are dropped, and the state says disconnected |
| `InterviewSocket.InterviewWs.SubmitAnswer` | src/hooks/useInterviewWS.ts:330-338 | the phase, the emptied streamed text, and the message sent on an open socket |
| `InterviewSocket.InterviewWs.Reconnect` | src/hooks/useInterviewWS.ts:340-349 | the replay request: given or latest checkpoint, and the largest number seen |
| `InterviewSocket.InterviewWs.HydrateRuntime` | src/hooks/useInterviewWS.ts:359-361 | the runtime fields that are given are replaced, the others and everything else kept |
| `InterviewSocket.MockConnectRefinesReducer` | src/hooks/useInterviewWS.ts:199-245 | for every list of mock events the batched update equals applying the reducer to each event in turn, checkpoint included |
| `InterviewReplay.DedupeEquivalence` | src/hooks/useInterviewWS.ts:128-139 | every run, in any order and with any repeats, ends in the same hook as the run without later repeats of a sequence number |
| `InterviewReplay.StoredEvents` | src/hooks/useInterviewWS.ts:131-139 | the stored events are exactly those of the repeat-free run, in order, and the seen numbers are theirs |
| `InterviewReplay.SeenNumbersExact` | src/hooks/useInterviewWS.ts:131-139 | in every reachable state the seen numbers are those of the stored sequenced events, in order, without duplicates |
| `InterviewReplay.ExactlyOnce` | src/hooks/useInterviewWS.ts:128-196 | with a log numbered 1 to n and deliveries that repeat or continue it, across opens, closes and overlapping replays, events, numbers, node, question and checkpoints equal the fold of the reducer over a log prefix |
| `InterviewReplay.ReplayRequestIsExact` | src/hooks/useInterviewWS.ts:340-349 | a replay request sent at any point of such a run asks for exactly what follows that prefix |
| `InterviewReplay.ReplayCatchesUp` | src/hooks/useInterviewWS.ts:128-196 | receiving the rest of the log from there, or from any earlier point, ends as if the log had been delivered once |
| `InterviewReplay.NothingMissedIff` | src/hooks/useInterviewWS.ts:345-347 | when the server may skip ahead, everything up to the largest number was seen if and only if that number equals how many were seen |
| `InterviewReplay.StreamedText` | src/hooks/useInterviewWS.ts:173-179 | the streamed text is at every point the concatenation of the non-duplicate deltas since the last question start or submit |
| `InterviewReplay.CheckpointIsLatest` | src/hooks/useInterviewWS.ts:180-184 | the checkpoint reference is at every point the latest checkpoint a non-duplicate completed node named |
| `InterviewReplay.ShownCheckpointIsSent` | src/hooks/useInterviewWS.ts:181-184 | a checkpoint shown in the state is the one a reconnect would send |
| `InterviewFields.LastSetWins` | src/hooks/useInterviewWS.ts:128-196 | a field that each step sets to something told from the step and the sockets before it, or leaves alone, is at every point what the last such step left, repeats not counted; such a last step always exists (LastSetExists) |
| `InterviewFields.PhaseIsLatest` | src/hooks/useInterviewWS.ts:100-165 | so the turn phase is the one that the last step to set a phase put it in |
| `InterviewFields.ErrorIsLatest` | src/hooks/useInterviewWS.ts:189-262 | the error shown is the event of the last error, unless a socket opened since |
| `InterviewFields.TaskIsLatest` | src/hooks/useInterviewWS.ts:140-142 | the task is the one left by the last event naming one or the last hydration |
| `InterviewFields.ExecutionIsLatest` | src/hooks/useInterviewWS.ts:143-145 | so is the execution |
| `InterviewFields.ActionsIsLatest` | src/hooks/useInterviewWS.ts:146-148 | the actions on offer are those listed last, by an event or a hydration |
| `InterviewFields.PointsIsLatest` | src/hooks/useInterviewWS.ts:149-151 | so is the points summary |
| `InterviewFields.NodeIsLatest` | src/hooks/useInterviewWS.ts:156-188 | the node shown is the one started last, the score node after a score event, or completed after an overall score |
| `InterviewFields.QuestionIsLatest` | src/hooks/useInterviewWS.ts:161-172 | the question counter is the one that the last node start or next question gave |
| `InterviewFields.ShownCheckpointIsLatest` | src/hooks/useInterviewWS.ts:180-184 | the checkpoint shown is that of the node completed last, if it names one |
| `InterviewFields.ConnectedIsLatest` | src/hooks/useInterviewWS.ts:256-318 | connected means a socket opened and since then none closed and nobody disconnected |
| `InterviewFields.ReconnectingIsLatest` | src/hooks/useInterviewWS.ts:256-318 | reconnecting means that the last of these was a close with attempts left |
| `InterviewFields.AttemptIsLatest` | src/hooks/useInterviewWS.ts:256-299 | the attempt shown is that of the last such close, or 0 after an open |
| `InterviewFields.TotalStays` | src/hooks/useInterviewWS.ts:79-98 | the number of questions never changes |
| `InterviewFields.AnswersGoOut` | src/hooks/useInterviewWS.ts:320-338 | in every run the answers sent are exactly those submitted while an open socket was held, word for word and in order |
| `InterviewFields.RequestsGoOut` | src/hooks/useInterviewWS.ts:264-349 | in every run the replay requests sent are those asked for while one was held and those at an open with a checkpoint, each naming the checkpoint of that moment |
| `InterviewReconnect.BackoffSinceOpen` | src/hooks/useInterviewWS.ts:60-299 | between two opens the timers set are the first of 1, 2, 4, 8 and 16 seconds, one a socket that closes and five at most, whatever else happens |
| `InterviewReconnect.RunningIff` | src/hooks/useInterviewWS.ts:284-318 | a timer runs exactly from the close that sets it until it fires, once, or a disconnect clears it while the reference holds it |
| `InterviewReconnect.ReferenceIsLatest` | src/hooks/useInterviewWS.ts:284-318 | the timer reference holds the timer set last, unless somebody disconnected since |
| `InterviewReconnect.DisconnectStillReconnectsIff` | src/hooks/useInterviewWS.ts:306-318 | after any run, disconnect leaves a hook that can still reconnect on its own if and only if, before the call, a timer other than the referenced one was running, a socket other than the held one was connecting, or a close event was to come with attempts left |
| `InterviewReconnect.LoneDisconnectIff` | src/hooks/useInterviewWS.ts:306-318 | with at most one live socket and one running timer, both referenced, that is exactly when there is a socket and attempts are left |
| `InterviewReconnect.DisconnectMayReconnect` | src/hooks/useInterviewWS.ts:306-318 | after connect, open and disconnect the hook can still come to a timer that dials |
| `InterviewReconnect.RedialsIff` | src/hooks/useInterviewWS.ts:284-299 | in any state a run without a call of connect can come to a timer that dials if and only if a timer runs, a socket may still open, or one may close with attempts left |
| `InterviewReconnect.RedialMakesASocket` | src/hooks/useInterviewWS.ts:247-254 | such a timer makes a socket: the held one is not open when it fires |
| `InterviewPage.InterviewLive.ProcessEvent` | src/pages/InterviewLive.tsx:308-370 | the question and score lists after any event |
| `InterviewPage.InterviewLive.DrainEvents` | src/pages/InterviewLive.tsx:297-306 | each new event of a grown list is processed once, in order, and the cursor moves to its end |
| `InterviewPage.UniqueByLoop` | src/pages/InterviewLive.tsx:197-205 | the loop with its set keeps exactly the items whose non-empty key no earlier item has, kept or not |
| `InterviewPage.InterviewLive.Restore` | src/pages/InterviewLive.tsx:481-555 | the lists after the resume merge: validated, deduplicated restored entries with the live ones laid over them, and the answers renumbered |
| `InterviewPage.InterviewLive.SubmitAnswer` | src/pages/InterviewLive.tsx:734-744 | a non-blank answer of a session is appended under the next sequence number; any other changes nothing |
| `InterviewContents.ScoreEventAdds` | src/pages/InterviewLive.tsx:308-347 | one event adds the positive score that its summary, or for a score event its own payload, carries, field by field, unless one of its positive number is there; any other event adds none |
| `InterviewContents.ScoresAreTheNewOnes` | src/pages/InterviewLive.tsx:308-347 | after any events the scores are those of before and then, in order, one for each first positive score of a number and for each without a number |
| `InterviewContents.EveryScoreCardShown` | src/pages/InterviewLive.tsx:308-347 | no positive score of any event is lost |
| `InterviewContents.QuestionEventAdds` | src/pages/InterviewLive.tsx:330-370 | one event adds the question it carries, field by field, unless its positive number, or without one its text, is there |
| `InterviewContents.QuestionsAreTheNewOnes` | src/pages/InterviewLive.tsx:330-370 | after any events the questions are those of before and then, in order, each that came with a new number or, unnumbered, with a new text |
| `InterviewContents.RestoredQuestionsAre` | src/pages/InterviewLive.tsx:129-509 | the restored questions are the first entries of each number or text in the snapshot, in order, with every field told from the entry |
| `InterviewContents.RestoredScoresAre` | src/pages/InterviewLive.tsx:129-540 | the restored scores are the first entries of each number and all without one, with every field told from the entry |
| `InterviewContents.RestoredAnswersAre` | src/pages/InterviewLive.tsx:481-555 | the restored answers are the contents of exactly the messages of a user or a human, in order and numbered from 0, and the next number is how many there are |
| `InterviewContents.AnswersAre` | src/pages/InterviewLive.tsx:481-744 | in every reachable page the answers are those of the last snapshot and the non-blank ones given in a session since, numbered in order |
| `InterviewMerge.FirstScoreWins` | src/pages/InterviewLive.tsx:309-322 | the first score of a question stays the only one of that question, whatever events follow |
| `InterviewMerge.SnapshotCommutesWithScores` | src/pages/InterviewLive.tsx:525-546 | for every snapshot and every split of the events around it, the final score list is the same, order and winners included |
| `InterviewMerge.SnapshotCommutesWithQuestions` | src/pages/InterviewLive.tsx:490-523 | the same for the question list, if no live question shares its text with another question of which just one has a number |
| `InterviewMerge.NumberedQuestionsCommute` | src/pages/InterviewLive.tsx:490-523 | in particular it is the same whenever every question carries a positive number |
| `InterviewMerge.QuestionsCommuteIff` | src/pages/InterviewLive.tsx:510-521 | over any vocabulary of questions, without a text or with one, all splits commute if and only if no numbered question in it shares a non-empty text with an unnumbered one |
| `InterviewMerge.MergeDiffersIff` | src/pages/InterviewLive.tsx:512-521 | the merge and the live stream treat a question differently exactly when a new number meets an unnumbered item with its text |
| `InterviewMerge.ClashLosesAQuestion` | src/pages/InterviewLive.tsx:510-521 | every such pair, with a snapshot after it, ends in a different list than with the snapshot first |
| `InterviewMerge.QuestionKeyIdentifies` | src/pages/InterviewLive.tsx:492-496 | two restored entries have equal keys exactly when they have one identity: number, else text, else place |
| `InterviewMerge.UniqueQuestionsDistinct` | src/pages/InterviewLive.tsx:497-509 | restored questions never share a number |
| `InterviewMerge.PageStaysConsistent` | src/pages/InterviewLive.tsx:308-744 | in every reachable page positive numbers are pairwise distinct in questions and in scores, and answer i carries sequence number i with the next one ready |
| `InterviewMerge.ResumeKeepsQuestions` | src/pages/InterviewLive.tsx:510-523 | the restored list is a prefix of the merged one, and every question present before is still there, by number or by text |
| `InterviewSystem.EveryScoreCountedOnce` | src/pages/InterviewLive.tsx:297-322 | end to end: whatever the server repeats or replays and whenever the snapshot comes, a page that has drained its stream shows the restored scores and then, in order, one for each first positive score of a number in the log and for each without a number |
| `InterviewSystem.EveryQuestionShownOnce` | src/pages/InterviewLive.tsx:297-370 | the same for questions: each log question that came with a new number or, unnumbered, a new text, in order, when no numbered one shares a non-empty text with an unnumbered one |
| `InterviewSystem.ScoresFollowDrainedEvents` | src/pages/InterviewLive.tsx:297-306 | at every point of such a run the scores are the restored ones with the drained events folded over them |
| `InterviewSystem.QuestionsFollowDrainedEvents` | src/pages/InterviewLive.tsx:297-306 | at every point of such a run the questions are the restored ones with the drained events folded over them |
| `AuthFlow.NextSound` | src/api/client.ts:63-108 | every step keeps the flight single, a verdict once given final, and every waiter told its flight's verdict |
| `AuthFlow.AtMostOneRefreshOutstanding` | src/api/client.ts:63-108 | in every interleaving of any number of requests, logins and logouts at most one refresh POST is outstanding |
| `AuthFlow.WaitersHearOneVerdict` | src/api/client.ts:67-107 | all requests that waited for one flight were told the same verdict |
| `AuthTokens.ExchangedTokenNeverResent` | src/api/client.ts:63-108 | a refresh token that was exchanged is never sent again, if the server never hands out the same token twice |
| `AuthTokens.TokensLostIff` | src/api/client.ts:79-102 | a step empties a store that holds a refresh token exactly if it is a logout, a refresh reply that ends the session, or the body of a denied 401 with a definitive code; then everything is emptied |
| `AuthTokens.FailedRefreshKeepsTokensIff` | src/api/client.ts:205-217 | when a refresh fails without ending the session, the waiting request keeps the tokens if and only if its own 401 carried no definitive code |
| `AuthTokens.PassingFailureLosesTokens` | src/api/client.ts:205-217 | for every pair of tokens a run that signs in, sends, is told auth.token_expired and then meets a network error ends with no tokens |
| `AuthTokens.DeniedOnlyAfter401` | src/api/client.ts:204-216 | only a request that sent a token and met a 401 ever waits for a refresh or is denied one |
| `AuthTokens.DeniedOnlyAfterFailedRefresh` | src/api/client.ts:204-216 | in every run a denied request met its 401 without any refresh token stored, or was told that the refresh it waited for had failed, and has stood still since |
| `AuthTokens.StoredPairIsHeld` | src/api/client.ts:63-108 | in every run, whatever the server answers, the tab holds exactly the pair stored last, or nothing of its own if a step emptied the store since |
| `AuthTokens.TokensSurviveTransientFailures` | src/api/client.ts:57-102 | in every run the tab holds the pair stored last, or lost it at a logout, a refresh refused for good or answered without tokens, or a denied 401 with a definitive code; 5xx replies, network errors, other codes and expired tokens that are refreshed cost nothing |
| `AuthTokens.ReplayCarriesLatestToken` | src/api/client.ts:205-209 | in every run a replay carries the access token of the pair stored last, whichever request obtained it |
| `AuthTokens.FirstFetchCarriesLatestToken` | src/api/client.ts:176-182 | in every run a request starts with the header it was given, or else with the access token of the pair stored last |
| `AuthTokens.RefreshStartsIff` | src/api/client.ts:63-108 | in every run a 401 to a token that was sent starts a refresh if and only if none is under way and a refresh token is stored, and sends the one stored last |
| `AuthRequests.RequestsAccounted` | src/api/client.ts:184-287 | in every reachable state each request has sent 1 fetch, plus one a successful refresh it heard of, plus one a retry; retries are at most 2, none unless GET, and wait at most 2598 ms together; its outcome is that of its last response, an ended session exactly if that was a 401 to a token it sent |
| `AuthRequests.TouchedRequestAdvances` | src/api/client.ts:187-287 | every step that changes a request brings it nearer its end, or replays it after a successful refresh |
| `AuthRequests.RequestsEnd` | src/api/client.ts:187-287 | a request is changed at most 13 times plus twice a replay, less what it has left to do |
| `AuthRequests.UnfinishedCanMove` | src/api/client.ts:187-287 | in every reachable state an unfinished request has a next step, and every such step changes it or gives the verdict it waits for; with the bound on changes it ends |
| `AuthRequests.ReplaysWithinGrants` | src/api/client.ts:204-210 | in every interleaving a request hears each flight once at most, so it is replayed no more often than the server grants tokens, and sends at most that many fetches and 3 more |
| `AuthRequests.GrantsBoundEveryRequest` | src/api/client.ts:187-287 | the grants of a run bound how often any of its requests changes |
| `AuthRequests.RefreshesWithoutBound` | src/api/client.ts:204-210 | for every k there is a run, with a server that never reissues a token, in which one request hears of k granted refreshes, is replayed k times and is still going |
| `AuthRequests.ReplayBoundIff` | src/api/client.ts:204-210 | every request of every run with at most n grants is replayed at most m times if and only if n <= m, also among servers that never reissue a token |
| `AuthRequests.DoneStaysDone` | src/api/client.ts:184-287 | a request that has surfaced its outcome never changes again |
| `AuthReplies.RepliesDecide` | src/api/client.ts:184-287 | in every reachable state the replies a request received have decided it: it went on only after a server error to a GET or a 401 to its token, counted one retry for each server error, gave up on a server error only after two, and surfaces its last reply as the outcome of that status |
| `ApiClient.Api.TryRefresh` | src/api/client.ts:63-108 | with no flight under way: the tokens afterwards, whether a refresh was sent, and the verdict, for every reply |
| `ApiClient.Api.Deny` | src/api/client.ts:211-233 | tokens are cleared on a definitive code only, and the error surfaced |
| `ApiClient.Api.Refuse` | src/api/client.ts:204-233 | a 401 to a request that sent a token: it is replayed with the token stored by the granted refresh, or over with the outcome, tokens and counts of the lone run |
| `ApiClient.Api.Request` | src/api/client.ts:163-287 | the loop ends when refreshes succeed finitely often; outcome, stored tokens, fetches and time waited are those of a run of the protocol in which every step was the one due, and follow from the server's replies alone |
| `ApiClient.LoneCallBounds` | src/api/client.ts:147-287 | such a call waits at most 2598 ms, not at all unless GET, and sends at most 3 fetches more than tokens are granted |
| `ApiClient.LoneCallHeeds` | src/api/client.ts:184-287 | the server's replies alone decide how often such a call fetches, how long it waits and what it surfaces: every reply but the last is a server error to a GET, two at most, or a 401 to a token |
| `ReportSections.FirstLineIsFirst` | src/pages/ResearchReportPage.tsx:73-76 | the line search misses no matching line and none starts before the one it finds: the leftmost match of a multi-line regular expression |
| `ReportSections.FirstLineFound` | src/pages/ResearchReportPage.tsx:73-76 | what the search finds is the start of a line that matches |
| `ReportSections.LookupInvertsPrinting` | src/pages/ResearchReportPage.tsx:65-80 | in a report printed with ## headings a section is found with its trimmed body if and only if no line of that body is a boundary line, given different titles and no earlier line that reads as the heading |
| `ReportSections.MissingSection` | src/pages/ResearchReportPage.tsx:73-75 | a title that no section has and no body imitates is not found |
| `ReportSections.BoundaryLineIff` | src/pages/ResearchReportPage.tsx:77-77 | a section ends at exactly the lines of blanks, one to three hashes, a blank and anything |
| `ReportSections.HeadingLineIff` | src/pages/ResearchReportPage.tsx:73-73 | a heading is found on exactly the lines of one to three hashes, blanks, the heading and blanks |
| `Whitespace.SpacesWritten` | src/pages/ResearchReportPage.tsx:79-79 | the characters that trim and strip remove, one by one |
| `ReportTable.ParseComparisonSection` | src/pages/ResearchReportPage.tsx:97-124 | the loop with its skips collects exactly the rows of the lines that are rows, in order |
| `ReportTable.RowRoundTrip` | src/pages/ResearchReportPage.tsx:104-121 | a printed row reads back as itself if and only if its cells are trimmed and not blank, the first is not the header word and the second not a rule |
| `ReportTable.TableRoundTrip` | src/pages/ResearchReportPage.tsx:97-124 | a printed table among any lines that are no rows reads back as the same rows and trends if and only if all its rows are so |
| `ReportTable.TrendRoundTrip` | src/pages/ResearchReportPage.tsx:110-114 | the trend printed as an arrow is the trend read |
| `ReportTable.TrendWritten` | src/pages/ResearchReportPage.tsx:110-114 | the trend of any cell: up if it says one of those words in any case, else down, else flat, else unknown |
| `Exclusions.ParseDoc` | backend/scripts/check_structured_exclusions.py:28-56 | the flag-driven loop computes the entries between the first rule after the first header and the first line without a bar, the last of a node winning |
| `Exclusions.EntryRoundTrip` | backend/scripts/check_structured_exclusions.py:48-54 | a printed entry reads back if and only if node and kind are trimmed and not blank and the text does not read as a header |
| `Exclusions.LineWritten` | backend/scripts/check_structured_exclusions.py:38-54 | how any line is read: what makes it the header, a rule, an entry of two texts, or the end of the table |
| `Exclusions.LineThenBreak` | backend/scripts/check_structured_exclusions.py:34-34 | a line ends at any of ten characters, a carriage return and line feed counting as one |
| `Exclusions.ParseInvertsPrinting` | backend/scripts/check_structured_exclusions.py:28-56 | a printed table parses to exactly its map, whatever stands before its header and after the first line without a bar |
| `Exclusions.TableRoundTrip` | backend/scripts/check_structured_exclusions.py:28-56 | the table printed from entries of distinct nodes parses to their map if and only if every entry reads back, whatever characters they hold except line breaks |
| `Exclusions.OwnHeader` | backend/scripts/check_structured_exclusions.py:40-43 | the header and rule of the contract document are recognised as such |
| `Exclusions.CheckRows` | backend/scripts/check_structured_exclusions.py:76-111 | the failures listed are exactly those that hold, of each of the seven kinds, each once, those of the three loops one after the other |
| `Exclusions.Check` | backend/scripts/check_structured_exclusions.py:59-119 | the script passes if and only if there is a document whose nodes are the free-form and deferred ones, none structured, each under a kind that holds it |
| `PayloadScan.PlacesExact` | backend/scripts/assert_analytics_pii_free.py:41-56 | the walk lists a place if and only if it leads to a forbidden key, at any depth |
| `PayloadScan.PlacesAscend` | backend/scripts/assert_analytics_pii_free.py:45-53 | the places are listed in preorder, a key before what is under it |
| `PayloadScan.PlacesDistinct` | backend/scripts/assert_analytics_pii_free.py:45-53 | no place is listed twice |
| `PayloadScan.StepsTellPlacesApart` | backend/scripts/assert_analytics_pii_free.py:45-53 | different places have different lists of keys and indices |
| `PayloadScan.PathsMayPrintAlike` | backend/scripts/assert_analytics_pii_free.py:49-53 | for every key with a dot in it there is a payload with two places that print as the same path |
| `PayloadScan.IndexedPathsMayPrintAlike` | backend/scripts/assert_analytics_pii_free.py:49-53 | and for every key that ends like an index |
| `PayloadScan.PrintedPathsDiffer` | backend/scripts/assert_analytics_pii_free.py:45-53 | when no key of a payload holds a dot or ends like an index, printed paths tell any two of its places apart |
| `PayloadScan.PrintedPathsDifferIff` | backend/scripts/assert_analytics_pii_free.py:45-53 | over any set of keys that holds the parts of its keys, printed paths tell the places of every payload apart if and only if no key is of those two kinds |
| `PayloadScan.PlainKeyIsSafe` | backend/scripts/assert_analytics_pii_free.py:49-53 | keys without dots and brackets are of neither kind |
| `PayloadScan.Walker.Walk` | backend/scripts/assert_analytics_pii_free.py:45-53 | the recursive walk appends to the shared list exactly the printed paths of the places under the node |
| `PayloadScan.PayloadContains` | backend/scripts/assert_analytics_pii_free.py:41-56 | the result is the printed paths of all places, from the root |
| `PayloadScan.Scan` | backend/scripts/assert_analytics_pii_free.py:75-83 | the hits are those of the rows that leak, in the order of the rows, one each, with all its paths |
| `PayloadScan.ScanExit` | backend/scripts/assert_analytics_pii_free.py:101-114 | the exit code is 0 if and only if no fetched row holds a forbidden key at any depth |
| `PayloadScan.PathsReadBack` | backend/scripts/assert_analytics_pii_free.py:45-53 | with plain keys a printed path reads back as the keys and indices that lead to the place |
| `PayloadScan.ForbiddenKeysIff` | backend/scripts/assert_analytics_pii_free.py:103-103 | a key is forbidden exactly if it is not blank and stands between commas, with any blanks around it |
| `Whitespace.PieceIff` | backend/scripts/assert_analytics_pii_free.py:103-103 | split gives exactly what stands between the separators |
| `TablePrinter.FmtBounded` | backend/scripts/dbq.py:79-91 | no formatted cell is wider than 48, and a text that fits is shown whole |
| `TablePrinter.ColumnWidths` | backend/scripts/dbq.py:102-109 | each width is the widest of name and cells, capped at 64 |
| `TablePrinter.PrintGrid` | backend/scripts/dbq.py:111-120 | the printed lines are those of uncut cells: the per-cell cut drops nothing |
| `TablePrinter.PrintTable` | backend/scripts/dbq.py:94-121 | the printed lines for any rows and names, and that its widths are as chosen |
| `TablePrinter.LineLength` | backend/scripts/dbq.py:111-119 | a line of k cells has length sum(widths) + 3k + 1 if and only if each of its texts fits its column, and is longer otherwise |
| `TablePrinter.GridIsAligned` | backend/scripts/dbq.py:94-121 | borders and data lines always have that length; the header has it if and only if no column name is over 64 characters |
| `TablePrinter.ColumnsLineUp` | backend/scripts/dbq.py:111-119 | in a line whose texts fit, column k starts at the same place as in the border and holds its text and spaces between bars, where the border has hyphens between crosses |
| `TablePrinter.LjustWritten` | backend/scripts/dbq.py:112-119 | a padded text is the text and then spaces up to the width |
| `TablePrinter.FmtWritten` | backend/scripts/dbq.py:79-91 | the text of a cell for nothing, for bytes and for anything else |
| `TablePrinter.HexReadsBack` | backend/scripts/dbq.py:86-86 | the hexadecimal digits of bytes are small and read back as the bytes |
| `TablePrinter.CountLineWritten` | backend/scripts/dbq.py:121-121 | the last line, with its plural |

## Left out

- ApiClient.Api.Request: one call with no other request under way, because a loop cannot be interleaved with itself; the interleavings of any number of requests are the AuthFlow machine, which this method is proved to follow.
- ApiClient.Api.TryRefresh: joining a flight that another request started is a step of the AuthFlow machine, not of this method.
- AuthFlow.NextSound: other tabs do not write the mirror during a run of the request protocol; TokenTabs has the tabs. A refresh body that does not parse counts as a network error, and a body read that throws after a 2xx reply is not told apart from a value.
- TokenTabs.OwnTokensReadBack: writes to storage succeed and mock mode is off, as the property assumes; quota and private-mode exceptions are not part of this model.
- AuthTokens.TokensSurviveTransientFailures: the tokens are a tab's own pair, held in session storage; a tab that only reads another tab's mirror has no refresh token to lose. AuthTokens.StoredPairIsHeld covers it as a tab that holds nothing of its own.
- InterviewSocket.InterviewWs.Disconnect: the constant stored in the timer reference is no timer of this hook, so clearing it later clears none; the mock branch only resets two flags and is left out.
- InterviewSocket.InterviewWs.Reconnect: sending on a socket that is not open does nothing; pause and resume messages and the no-op send of mock mode are left out.
- InterviewSocket.InterviewWs.ApplyEvent: payload fields have the types the client expects; an empty text stands for a missing one, and a field of a wrong type is not modelled.
- InterviewPage.InterviewLive.ProcessEvent: question numbers are integers when present, a missing score is 0.0, and the report, failure, plan and phase state of the page are left out.
- InterviewPage.InterviewLive.Restore: what Number makes of a text is a parameter, and an infinite score is not modelled.
- Drilldown.DrilldownRoundTrip: the query reader is strict percent-decoding of the first parameter of that name; URLSearchParams would put replacement characters where bytes are no UTF-8, which never happens in a link that was built.
- JsonRoundTrip.ParseStringify: numbers are kept as their text, and the enumeration order of integer-like names is not modelled.
- Cursor.DecodeCursor: the payload's type is not checked after parsing, as in the source; strings are sequences of UTF-16 code units here, in the URI, base64, JSON and drilldown modules, and plain character sequences elsewhere.
- ReportSections.LookupInvertsPrinting: the heading is matched literally, since no listed heading holds a character that is special in a regular expression; the fallback from the emoji title to the plain one is a second lookup and is left out.
- Exclusions.CheckRows: within one loop the order of the messages, by sorted node or by document order, is not modelled.
- PayloadScan.Scan: the rows are those the query returned, so the limit is the caller's; a payload is the parsed value.
- TablePrinter.PrintTable: every row has as many values as there are names, as a query result does; a value that is not null or bytes is the text str or json.dumps gives it. The CSV and JSON printers are left out.
- React rendering, effects and their scheduling, routing, styling and query caches; a state update is one step.
- The typed API wrappers, the admin pages, the resume editor and the server; the server appears only as the replies and events it sends.
- Timers and the clock: a timer's delay is recorded, and a backoff ends when a step says so.
