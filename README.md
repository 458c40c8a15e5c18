# ChainRef query core, modelled in Dafny

ChainRef ("Link-A-Verse") is an Android app. The user types a question and
picks a theme. The app posts both to a backend. The backend answers with a
chain of verses, each linked to the next by a phrase, with optional
connections to other themes. This project models the part of the app with
behaviour worth stating:

- `data_model.dfy`: the response records `ChainVerse`, `CrossThemeConnection`
  and `GeminiResponse`, and the request record `GeminiRequest`, as datatypes.
  Kotlin default arguments become constructor defaults. Kotlin `Int` becomes
  the newtype `int32`. A nullable `String?` becomes `Option<string>`.
- `view_model.dfy`: `MainViewModel`, the query controller. It is a class with
  the three signals `response`, `isLoading` and `error` as fields.
  `AskQuestion` is the synchronous half of `askQuestion`.
  `Complete(outcome)` is the coroutine's continuation: the success path or one
  of the three catch clauses, then the `finally`. The function `Step` states
  the same effect on a `Signals` value, and `Run` folds it over a history of
  events. The lemmas about `Run` state what a sequence of asks and
  completions leaves behind.
- `decimal.dfy`: Kotlin's `Int.toString()`, which the "Server error" text
  uses for the status code, with a parser proved to invert it.
- `main_screen.dfy`: the screen's decision logic. `SearchForm` holds the
  question, theme and field-error variables and the two handlers that
  reassign them. `Render` gives the four display conditions as functions of
  the signals. `Cards` gives the list of cards, one per verse in chain order.

Under any interleaving of asks and completions, whatever the signals show
was delivered by a completion that arrived after the most recent ask
(`ResponseComesAfterLatestAsk`, `ErrorComesAfterLatestAsk`). An ask therefore never leaves an older
result on show.

The controller has no staleness guard. A completion is not tied to the ask
that launched it, so a late completion still writes its result. Four
consequences are proved:

- the first of two overlapping calls to end clears the loading flag while
  the other call is still pending (`FirstCompletionClearsLoading`);
- a success that ends last overwrites the response, and a failure before
  it leaves its error text on show beside that response
  (`FailureThenSuccessShowsBoth`);
- a failure that ends last does not replace the response: an earlier
  call's response stays on show beside the later error text
  (`SuccessThenFailureKeepsResponse`);
- the screen can then show the error text and the cards together
  (`OverlappingCallsShowErrorAndCards`).

Whatever happened before, an ask followed by one completion leaves exactly
one of response and error present, and the screen then shows exactly one of
error text, empty-state message and cards (`ExactlyOneSignalAfterCompletion`,
`AskThenCompleteShowsOneThing`). When asks and completions alternate
throughout, this holds after every completion, and the spinner alone shows
after every ask (`SequentialRunSignals`, `SequentialRunShowsOneThing`). The
controller does not discard stale completions, and this model follows the
code.

## Model

| member | source | states |
|---|---|---|
| `DataModel.DefaultConnectionsEmpty` | app/src/main/java/com/safety/chainreference/data/model/ChainModels.kt:3-10 | a verse built without `crossThemeConnections` has none and keeps every field it was given |
| `DataModel.DefaultChainEmpty` | app/src/main/java/com/safety/chainreference/data/model/GeminiResponse.kt:5-9 | a response built without `chain` has an empty chain, keeps theme and summary, and is still a present value |
| `DataModel.ChainVerseCopy` | app/src/main/java/com/safety/chainreference/data/model/ChainModels.kt:3-10 | `copy` with a new `nextVerse` changes only that field; two verses are equal iff all six fields are |
| `DataModel.GeminiResponseCopy` | app/src/main/java/com/safety/chainreference/data/model/GeminiResponse.kt:5-9 | `copy` with a new chain keeps that chain element for element, in order, and keeps theme and summary |
| `Decimal.IntToStringRoundTrip` | app/src/main/java/com/safety/chainreference/ui/viewmodel/MainViewModel.kt:48 | the decimal text of the status code parses back to the same integer and contains no space |
| `ViewModel.Step` | app/src/main/java/com/safety/chainreference/ui/viewmodel/MainViewModel.kt:32-53 | loading is set iff the event is an ask; an ask clears response and error; success writes the delivered response and leaves the error alone; a failure writes its catch clause's error text and leaves the response alone |
| `ViewModel.SequentialRunSignals` | app/src/main/java/com/safety/chainreference/ui/viewmodel/MainViewModel.kt:31-55 | with asks and completions alternating: after an ask, loading with no response and no error; after a completion, not loading, the response iff it succeeded, its error text iff it failed |
| `ViewModel.ExactlyOneSignalAfterCompletion` | app/src/main/java/com/safety/chainreference/ui/viewmodel/MainViewModel.kt:31-55 | after any history, an ask followed by one completion leaves loading false and exactly one of response and error: the delivered response on success, the error text on failure |
| `ViewModel.ResponseComesAfterLatestAsk` | app/src/main/java/com/safety/chainreference/ui/viewmodel/MainViewModel.kt:31-55 | under any interleaving, a response on show was delivered by a successful completion with no ask after it |
| `ViewModel.ErrorComesAfterLatestAsk` | app/src/main/java/com/safety/chainreference/ui/viewmodel/MainViewModel.kt:31-55 | under any interleaving, an error text on show is the text of a failed completion with no ask after it |
| `ViewModel.FirstCompletionClearsLoading` | app/src/main/java/com/safety/chainreference/ui/viewmodel/MainViewModel.kt:36-53 | with two calls in flight, the first to end already clears loading (and, on success, shows its response) |
| `ViewModel.FailureThenSuccessShowsBoth` | app/src/main/java/com/safety/chainreference/ui/viewmodel/MainViewModel.kt:43-53 | overlapping calls: a network failure then a success leaves loading false, the response set and the "Network error: " text set |
| `ViewModel.SuccessThenFailureKeepsResponse` | app/src/main/java/com/safety/chainreference/ui/viewmodel/MainViewModel.kt:43-53 | overlapping calls: a success then any failure leaves loading false, the earlier response on show and the failure's error text set |
| `ViewModel.ErrorMessageNamesKind` | app/src/main/java/com/safety/chainreference/ui/viewmodel/MainViewModel.kt:45-50 | every failure's text starts with the prefix of its own catch clause and with no other, whatever the exception's message |
| `ViewModel.ServerErrorRoundTrip` | app/src/main/java/com/safety/chainreference/ui/viewmodel/MainViewModel.kt:47-48 | the "Server error: code message" text determines the status code and the message |
| `ViewModel.MainViewModel.constructor` | app/src/main/java/com/safety/chainreference/ui/viewmodel/MainViewModel.kt:16-23 | a fresh controller has no response, is not loading and has no error |
| `ViewModel.MainViewModel.AskQuestion` | app/src/main/java/com/safety/chainreference/ui/viewmodel/MainViewModel.kt:31-41 | whatever the prior state: loading true, error and response cleared; the request carries the caller's question and theme unchanged |
| `ViewModel.MainViewModel.Complete` | app/src/main/java/com/safety/chainreference/ui/viewmodel/MainViewModel.kt:43-53 | loading false on every path; success writes the response and keeps the error; each failure writes its own error text and keeps the response |
| `MainScreen.SearchForm.constructor` | app/src/main/java/com/safety/chainreference/ui/screens/MainScreen.kt:16-18 | the question starts empty, the theme "Sabbath", no field error |
| `MainScreen.SearchForm.OnValueChange` | app/src/main/java/com/safety/chainreference/ui/screens/MainScreen.kt:33-36 | editing replaces the question and clears the field error; the theme is kept |
| `MainScreen.SearchForm.OnSearchClick` | app/src/main/java/com/safety/chainreference/ui/screens/MainScreen.kt:54-60 | a blank question sets "Please enter a question" and leaves the controller untouched; otherwise the controller is asked with the question and theme, and the field error is kept; a sent question is never empty |
| `MainScreen.Cards` | app/src/main/java/com/safety/chainreference/ui/screens/MainScreen.kt:100-120 | one card per verse, in chain order, showing its reference, text and linking phrase |
| `MainScreen.EmptyMessageExactlyWhenNothingElse` | app/src/main/java/com/safety/chainreference/ui/screens/MainScreen.kt:69-97 | the empty-state message shows iff neither spinner, nor error text, nor any card is visible |
| `MainScreen.ChainListFollowsResponse` | app/src/main/java/com/safety/chainreference/ui/screens/MainScreen.kt:100-102 | the list is composed iff a response is present, and its cards follow the chain's order |
| `MainScreen.NoQueryLooksLikeEmptyResult` | app/src/main/java/com/safety/chainreference/ui/screens/MainScreen.kt:91 | no query yet and a response with an empty chain differ as signals but look the same: the empty-state message alone |
| `MainScreen.SequentialRunShowsOneThing` | app/src/main/java/com/safety/chainreference/ui/screens/MainScreen.kt:69-102 | with asks and completions alternating, exactly one of spinner, error text, empty-state message and cards is visible |
| `MainScreen.AskThenCompleteShowsOneThing` | app/src/main/java/com/safety/chainreference/ui/screens/MainScreen.kt:69-102 | after any history, an ask followed by one completion shows no spinner and exactly one of error text, empty-state message and cards |
| `MainScreen.OverlappingCallsShowErrorAndCards` | app/src/main/java/com/safety/chainreference/ui/screens/MainScreen.kt:81-102 | with overlapping calls, the error text and a non-empty list can be visible together |

## Left out

- A `Throwable` that is not an `Exception` (an `Error`) escapes all three catch clauses of MainViewModel.kt. Its `finally` still clears loading and leaves response and error untouched, and then the coroutine fails with the error. `Outcome` has no case for this path.
- Coroutine scheduling (`viewModelScope.launch`): the asynchronous call is the separate `Complete` method, and a history of events is any interleaving of asks and completions. `Complete` has no precondition, so the model also admits a completion with no ask pending.
- The read-only `StateFlow` views and `collectAsState`: the screen reads the three fields directly.
- Retrofit and OkHttp (base URL, timeouts, logging, the service singleton): the backend call is an opaque source of `Outcome` values.
- Gson decoding: Kotlin default values hold only for Kotlin constructor calls, and at runtime Gson can leave `chain` null. In the model `chain` is never null, so `response?.chain?.let` is "a response is present". How malformed JSON is classified is not modelled.
- `GeminiRequest`: its definition is not part of this model. It is modelled as a record of `question` and `selectedTheme`.
- Exception messages (`localizedMessage`, `message()`) are opaque strings. A null `localizedMessage` prints as "null", as Kotlin string templates do.
- Layout, styling and the display of the field error (MainScreen.kt lines 38 and 42-49), and the Activity wiring in MainActivity.kt.
- The response's `theme` and `summary` are never displayed by the screen, so `Visible` does not include them.
- The theme variable is never reassigned by the screen. `SearchForm` has no operation that changes it.
- `MainScreen.IsWhitespace` follows the JVM's whitespace and space-separator characters for a fixed Unicode version. Kotlin strings are UTF-16 units and Dafny strings are code points. No supplementary character is whitespace, so blankness agrees.
- `int32` values (`order`, the HTTP status code) take part in no arithmetic, so no wrap-around arises.
