/** The query controller (`MainViewModel`): three observable signals,
    reset when a question is asked and written once more when the
    backend call ends. The asynchronous call is split in two: `AskQuestion`
    is the synchronous part, `Complete` is the coroutine's continuation
    (its try/catch/finally). Nothing ties a completion to the ask that
    launched it, exactly as in the code. */
module ViewModel {

  import opened Nullable
  import opened DataModel
  import Decimal

  /** How the backend call ends, in the order the catch clauses test it:
      a value, an `IOException` (its `localizedMessage`), an
      `HttpException` (its `code()` and `message()`), any other exception. */
  datatype Outcome =
    | Success(resp: GeminiResponse)
    | NetworkFail(detail: Option<string>)
    | HttpFail(code: int32, message: string)
    | OtherFail(detail: Option<string>)

  /** What a Kotlin string template prints for a `String?`. */
  function Templated(s: Option<string>): string {
    match s
    case None => "null"
    case Some(t) => t
  }

  const NetworkPrefix := "Network error: "
  const ServerPrefix := "Server error: "
  const UnexpectedPrefix := "Unexpected error: "

  /** The error text a failed call leaves in the `error` signal. */
  function ErrorMessage(o: Outcome): string
    requires !o.Success?
  {
    match o
    case NetworkFail(d) => NetworkPrefix + Templated(d)
    case HttpFail(code, m) => ServerPrefix + Decimal.IntToString(code as int) + " " + m
    case OtherFail(d) => UnexpectedPrefix + Templated(d)
  }

  /** The three signals the screen observes. */
  datatype Signals = Signals(response: Option<GeminiResponse>, isLoading: bool, error: Option<string>)

  /** The signals of a fresh controller. */
  const Initial := Signals(None, false, None)

  /** What can happen to a controller: a question is asked, or one
      outstanding backend call ends. */
  datatype Event = Asked(question: string, selectedTheme: string) | Completed(outcome: Outcome)

  /** The effect of one event on the signals. */
  function Step(s: Signals, e: Event): (r: Signals)
    ensures r.isLoading <==> e.Asked?
    ensures e.Asked? ==> r.response == None && r.error == None
    ensures e.Completed? && e.outcome.Success? ==> r.response == Some(e.outcome.resp) && r.error == s.error
    ensures e.Completed? && !e.outcome.Success? ==>
      r.error == Some(ErrorMessage(e.outcome)) && r.response == s.response
  {
    match e
    case Asked(_, _) => Signals(None, true, None)
    case Completed(o) =>
      if o.Success? then s.(response := Some(o.resp), isLoading := false)
      else s.(error := Some(ErrorMessage(o)), isLoading := false)
  }

  /** The signals after a history of events, starting from a fresh controller. */
  function Run(events: seq<Event>): Signals
    decreases |events|
  {
    if events == [] then Initial else Step(Run(events[..|events| - 1]), events[|events| - 1])
  }

  /** At most one call in flight: asks and completions alternate, starting with an ask. */
  predicate Sequential(events: seq<Event>) {
    forall i :: 0 <= i < |events| ==> (events[i].Asked? <==> i % 2 == 0)
  }

  /** When every ask is followed by its own completion before the next ask,
      an ask leaves the controller loading with nothing shown, and a
      completion leaves it idle with exactly the outcome of that call:
      the response on success, the error text on failure, never both. */
  lemma SequentialRunSignals(events: seq<Event>)
    requires Sequential(events)
    ensures var s := Run(events);
      (events == [] ==> s == Initial) &&
      (|events| % 2 == 1 ==> s.isLoading && s.response == None && s.error == None) &&
      (|events| % 2 == 0 && events != [] ==>
        var o := events[|events| - 1].outcome;
        !s.isLoading &&
        s.response == (if o.Success? then Some(o.resp) else None) &&
        s.error == (if o.Success? then None else Some(ErrorMessage(o))))
  {
  }

  /** Whatever happened before, an ask followed by one completion leaves
      the controller idle with exactly that completion's result: the
      response on success, its error text on failure, never both. */
  lemma ExactlyOneSignalAfterCompletion(history: seq<Event>, question: string, theme: string, o: Outcome)
    ensures var s := Run(history + [Asked(question, theme), Completed(o)]);
      !s.isLoading && (s.response.Some? <==> s.error.None?) &&
      s.response == (if o.Success? then Some(o.resp) else None) &&
      s.error == (if o.Success? then None else Some(ErrorMessage(o)))
  {
  }

  /** With two calls in flight, whichever ends first already clears the
      loading flag, although the other has not ended. */
  lemma FirstCompletionClearsLoading(q1: string, t1: string, q2: string, t2: string, o: Outcome)
    ensures var s := Run([Asked(q1, t1), Asked(q2, t2), Completed(o)]);
      !s.isLoading && (o.Success? ==> s.response == Some(o.resp))
  {
  }

  /** There is no staleness guard: with two calls in flight, a failure
      followed by a success leaves both the error text and the response set. */
  lemma FailureThenSuccessShowsBoth(q1: string, t1: string, q2: string, t2: string, r: GeminiResponse, d: Option<string>)
    ensures var s := Run([Asked(q1, t1), Asked(q2, t2), Completed(NetworkFail(d)), Completed(Success(r))]);
      !s.isLoading && s.response == Some(r) && s.error == Some(NetworkPrefix + Templated(d))
  {
  }

  /** With two calls in flight, a success followed by a failure keeps the
      earlier response on show beside the later error text: the call that
      ends last does not replace the response when it fails. */
  lemma SuccessThenFailureKeepsResponse(q1: string, t1: string, q2: string, t2: string, r: GeminiResponse, o: Outcome)
    requires !o.Success?
    ensures var s := Run([Asked(q1, t1), Asked(q2, t2), Completed(Success(r)), Completed(o)]);
      !s.isLoading && s.response == Some(r) && s.error == Some(ErrorMessage(o))
  {
  }

  /** No ask after position `j` of a history. */
  predicate NoAskAfter(events: seq<Event>, j: nat) {
    forall k :: j < k < |events| ==> !events[k].Asked?
  }

  /** Extending a history by a completion keeps "no ask after `j`". */
  lemma NoAskAfterExtends(events: seq<Event>, j: nat)
    requires events != [] && events[|events| - 1].Completed?
    requires NoAskAfter(events[..|events| - 1], j)
    ensures NoAskAfter(events, j)
  {
    forall k | j < k < |events| ensures !events[k].Asked? {
      if k < |events| - 1 { assert events[k] == events[..|events| - 1][k]; }
    }
  }

  /** Whatever the interleaving of asks and completions, a response on
      show was delivered by a successful completion with no ask after it:
      an ask never leaves an older response visible. */
  lemma {:induction false} ResponseComesAfterLatestAsk(events: seq<Event>)
    ensures Run(events).response.Some? ==>
      exists j :: 0 <= j < |events| && events[j] == Completed(Success(Run(events).response.value)) &&
        NoAskAfter(events, j)
    decreases |events|
  {
    if events != [] {
      var n := |events|;
      var prefix := events[..n - 1];
      var e := events[n - 1];
      assert Run(events) == Step(Run(prefix), e);
      if e.Completed? && Run(events).response.Some? {
        if e.outcome.Success? {
          assert NoAskAfter(events, n - 1);
        } else {
          ResponseComesAfterLatestAsk(prefix);
          var j :| 0 <= j < |prefix| && prefix[j] == Completed(Success(Run(prefix).response.value)) &&
            NoAskAfter(prefix, j);
          assert events[j] == prefix[j];
          NoAskAfterExtends(events, j);
        }
      }
    }
  }

  /** Whatever the interleaving of asks and completions, an error text on
      show was written by a failed completion with no ask after it. */
  lemma {:induction false} ErrorComesAfterLatestAsk(events: seq<Event>)
    ensures Run(events).error.Some? ==>
      exists j :: 0 <= j < |events| && events[j].Completed? && !events[j].outcome.Success? &&
        Run(events).error == Some(ErrorMessage(events[j].outcome)) &&
        NoAskAfter(events, j)
    decreases |events|
  {
    if events != [] {
      var n := |events|;
      var prefix := events[..n - 1];
      var e := events[n - 1];
      assert Run(events) == Step(Run(prefix), e);
      if e.Completed? && Run(events).error.Some? {
        if !e.outcome.Success? {
          assert NoAskAfter(events, n - 1);
        } else {
          ErrorComesAfterLatestAsk(prefix);
          var j :| 0 <= j < |prefix| && prefix[j].Completed? && !prefix[j].outcome.Success? &&
            Run(prefix).error == Some(ErrorMessage(prefix[j].outcome)) &&
            NoAskAfter(prefix, j);
          assert events[j] == prefix[j];
          NoAskAfterExtends(events, j);
        }
      }
    }
  }

  /** The failure kinds, one per catch clause. */
  datatype FailureKind = Network | Server | Unexpected

  function KindOf(o: Outcome): FailureKind
    requires !o.Success?
  {
    match o
    case NetworkFail(_) => Network
    case HttpFail(_, _) => Server
    case OtherFail(_) => Unexpected
  }

  predicate HasPrefix(s: string, p: string) {
    |p| <= |s| && s[..|p|] == p
  }

  /** The failure kind an error text names by its prefix, if any. */
  function MessageKind(text: string): Option<FailureKind> {
    if HasPrefix(text, NetworkPrefix) then Some(Network)
    else if HasPrefix(text, ServerPrefix) then Some(Server)
    else if HasPrefix(text, UnexpectedPrefix) then Some(Unexpected)
    else None
  }

  /** The error text names the kind of failure that produced it, whatever
      the exception's own message says: the three kinds stay distinguishable. */
  lemma ErrorMessageNamesKind(o: Outcome)
    requires !o.Success?
    ensures MessageKind(ErrorMessage(o)) == Some(KindOf(o))
  {
    var m := ErrorMessage(o);
    match o
    case NetworkFail(d) =>
      assert m[..|NetworkPrefix|] == NetworkPrefix;
    case HttpFail(_, _) =>
      assert m[..|ServerPrefix|] == ServerPrefix;
      assert m[0] == 'S';
    case OtherFail(d) =>
      assert m[..|UnexpectedPrefix|] == UnexpectedPrefix;
      assert m[0] == 'U';
  }

  /** The position of the first space in `s`, if there is one. */
  function IndexOfSpace(s: string): (r: Option<nat>)
    ensures r.Some? ==> r.value < |s| && s[r.value] == ' ' && forall j :: 0 <= j < r.value ==> s[j] != ' '
    ensures r.None? ==> forall j :: 0 <= j < |s| ==> s[j] != ' '
    decreases |s|
  {
    if s == [] then None
    else if s[0] == ' ' then Some(0)
    else match IndexOfSpace(s[1..])
      case None => None
      case Some(k) => Some(k + 1)
  }

  /** Reads the status code and the status message back out of a
      "Server error" text. */
  function ParseServerError(text: string): Option<(int, string)> {
    if !HasPrefix(text, ServerPrefix) then None
    else
      var rest := text[|ServerPrefix|..];
      match IndexOfSpace(rest)
      case None => None
      case Some(k) =>
        match Decimal.ParseInt(rest[..k])
        case None => None
        case Some(code) => Some((code, rest[k + 1..]))
  }

  /** An HTTP failure's text carries its status code and message
      unambiguously: both can be read back from it. */
  lemma ServerErrorRoundTrip(code: int32, message: string)
    ensures ParseServerError(ErrorMessage(HttpFail(code, message))) == Some((code as int, message))
  {
    var digits := Decimal.IntToString(code as int);
    Decimal.IntToStringRoundTrip(code as int);
    var text := ErrorMessage(HttpFail(code, message));
    assert text[..|ServerPrefix|] == ServerPrefix;
    var rest := text[|ServerPrefix|..];
    assert rest == digits + " " + message;
    assert rest[|digits|] == ' ';
    assert IndexOfSpace(rest) == Some(|digits|);
    assert rest[..|digits|] == digits;
    assert rest[|digits| + 1..] == message;
  }

  /** `MainViewModel`: the three `MutableStateFlow`s as fields. */
  class MainViewModel {
    var response: Option<GeminiResponse>
    var isLoading: bool
    var error: Option<string>

    /** The current values of the three signals. */
    function Observed(): Signals
      reads this
    {
      Signals(response, isLoading, error)
    }

    constructor ()
      ensures response == None && !isLoading && error == None
      ensures Observed() == Initial
    {
      response := None;
      isLoading := false;
      error := None;
    }

    /** The synchronous part of `askQuestion`: reset all three signals and
        build the request the coroutine sends. */
    method AskQuestion(question: string, selectedTheme: string) returns (request: GeminiRequest)
      modifies this
      ensures isLoading && error == None && response == None
      ensures request.question == question && request.selectedTheme == selectedTheme
      ensures Observed() == Step(old(Observed()), Asked(question, selectedTheme))
    {
      isLoading := true;
      error := None;
      response := None;
      request := GeminiRequest(question := question, selectedTheme := selectedTheme);
    }

    /** The coroutine's continuation once the call has ended: the success
        path or one catch clause, then the finally clause. */
    method Complete(outcome: Outcome)
      modifies this
      ensures !isLoading
      ensures outcome.Success? ==> response == Some(outcome.resp) && error == old(error)
      ensures !outcome.Success? ==> error == Some(ErrorMessage(outcome)) && response == old(response)
      ensures Observed() == Step(old(Observed()), Completed(outcome))
    {
      match outcome {
        case Success(r) =>
          response := Some(r);
        case NetworkFail(d) =>
          error := Some(NetworkPrefix + Templated(d));
        case HttpFail(code, m) =>
          error := Some(ServerPrefix + Decimal.IntToString(code as int) + " " + m);
        case OtherFail(d) =>
          error := Some(UnexpectedPrefix + Templated(d));
      }
      isLoading := false;
    }
  }
}
