/** The decision logic of `MainScreen`: the question field and its Search
    button (a small object whose fields the handlers reassign), and the
    conditions that decide which of spinner, error text, empty-state
    message and chain list are composed, as functions of the three
    controller signals. Layout and styling are not modelled. */
module MainScreen {

  import opened Nullable
  import opened DataModel
  import opened ViewModel

  const BlankQuestionError := "Please enter a question"
  const InitialTheme := "Sabbath"

  /** Kotlin's `Char.isWhitespace()` on the JVM: `Character.isWhitespace`
      (tab to carriage return, the four information separators, and the
      space, line and paragraph separators other than the no-break ones)
      or `Character.isSpaceChar` (every space separator, no-break included). */
  predicate IsWhitespace(c: char) {
    var k := c as int;
    (0x09 <= k <= 0x0D) || (0x1C <= k <= 0x20) || k == 0xA0 || k == 0x1680 ||
    (0x2000 <= k <= 0x200A) || k == 0x2028 || k == 0x2029 || k == 0x202F ||
    k == 0x205F || k == 0x3000
  }

  /** Kotlin's `CharSequence.isBlank()`: empty, or whitespace only. */
  predicate IsBlank(s: string) {
    forall i :: 0 <= i < |s| ==> IsWhitespace(s[i])
  }

  /** The question field, the selected theme and the field's error, the
      three `remember`'d variables of the screen. */
  class SearchForm {
    var question: string
    var theme: string
    var inputError: Option<string>

    constructor ()
      ensures question == "" && theme == InitialTheme && inputError == None
    {
      question := "";
      theme := InitialTheme;
      inputError := None;
    }

    /** The field's `onValueChange`: take the new text, drop the error. */
    method OnValueChange(text: string)
      modifies this
      ensures question == text && inputError == None && theme == old(theme)
    {
      question := text;
      inputError := None;
    }

    /** The Search button's `onClick`: a blank question only sets the field
        error; any other question is handed to the controller with the
        current theme. `sent` is the request the controller builds. */
    method OnSearchClick(vm: MainViewModel) returns (sent: Option<GeminiRequest>)
      modifies this, vm
      ensures question == old(question) && theme == old(theme)
      ensures IsBlank(question) ==>
        inputError == Some(BlankQuestionError) && sent == None && unchanged(vm)
      ensures !IsBlank(question) ==>
        inputError == old(inputError) && sent == Some(GeminiRequest(question, theme)) &&
        vm.Observed() == Step(old(vm.Observed()), Asked(question, theme))
      ensures sent.Some? ==> sent.value.question != ""
    {
      if IsBlank(question) {
        inputError := Some(BlankQuestionError);
        sent := None;
      } else {
        var request := vm.AskQuestion(question, theme);
        sent := Some(request);
      }
    }
  }

  /** One card of the chain list: the three fields it shows of a verse. */
  datatype Card = Card(reference: string, text: string, linkingPhrase: string)

  /** The cards of `items(chain)`, one per verse, in list order. */
  function Cards(chain: seq<ChainVerse>): (cards: seq<Card>)
    ensures |cards| == |chain|
    ensures forall i :: 0 <= i < |chain| ==>
      cards[i] == Card(chain[i].reference, chain[i].text, chain[i].linkingPhrase)
    decreases |chain|
  {
    if chain == [] then []
    else [Card(chain[0].reference, chain[0].text, chain[0].linkingPhrase)] + Cards(chain[1..])
  }

  /** What the screen composes below the Search button. `list` is the
      `LazyColumn`, present whenever a response is, even an empty one. */
  datatype View = View(spinner: bool, errorText: Option<string>, emptyMessage: bool, list: Option<seq<Card>>)

  function ShowSpinner(s: Signals): bool {
    s.isLoading
  }

  function ErrorText(s: Signals): Option<string> {
    s.error
  }

  /** `response?.chain.isNullOrEmpty()`: no response, or an empty chain. */
  predicate NoVerses(s: Signals) {
    s.response.None? || s.response.value.chain == []
  }

  function ShowEmptyMessage(s: Signals): bool {
    !s.isLoading && NoVerses(s) && s.error.None?
  }

  function ChainList(s: Signals): Option<seq<Card>> {
    if s.response.Some? then Some(Cards(s.response.value.chain)) else None
  }

  function Render(s: Signals): View {
    View(ShowSpinner(s), ErrorText(s), ShowEmptyMessage(s), ChainList(s))
  }

  /** What a user can see of a view: an empty list shows nothing. */
  datatype Seen = Seen(spinner: bool, errorText: Option<string>, emptyMessage: bool, cards: seq<Card>)

  function Visible(v: View): Seen {
    Seen(v.spinner, v.errorText, v.emptyMessage, if v.list.Some? then v.list.value else [])
  }

  /** Exactly one of spinner, error text, empty-state message and a
      non-empty list is visible. */
  predicate OneThingShown(w: Seen) {
    (if w.spinner then 1 else 0) + (if w.errorText.Some? then 1 else 0) +
    (if w.emptyMessage then 1 else 0) + (if w.cards != [] then 1 else 0) == 1
  }

  /** The empty-state message is shown exactly when nothing else is
      visible: no spinner, no error text and no card. */
  lemma EmptyMessageExactlyWhenNothingElse(s: Signals)
    ensures var w := Visible(Render(s));
      w.emptyMessage <==> !w.spinner && w.errorText.None? && w.cards == []
  {
  }

  /** The list is composed exactly when a response is present, and its
      cards follow the chain's own order (never re-sorted by `order`). */
  lemma ChainListFollowsResponse(s: Signals)
    ensures Render(s).list.Some? <==> s.response.Some?
    ensures s.response.Some? ==>
      |Render(s).list.value| == |s.response.value.chain| &&
      forall i :: 0 <= i < |s.response.value.chain| ==>
        var v := s.response.value.chain[i];
        Render(s).list.value[i] == Card(v.reference, v.text, v.linkingPhrase)
  {
  }

  /** "No query yet" and "a response with an empty chain" look the same
      (the empty-state message alone), though the signals differ. */
  lemma NoQueryLooksLikeEmptyResult(theme: string, summary: string)
    ensures var answered := Signals(Some(GeminiResponse(theme, summary)), false, None);
      answered != Initial &&
      Visible(Render(Initial)) == Visible(Render(answered)) &&
      Visible(Render(Initial)) == Seen(false, None, true, [])
  {
  }

  /** While at most one call is in flight, the screen always shows exactly
      one of spinner, error text, empty-state message and cards. */
  lemma SequentialRunShowsOneThing(events: seq<Event>)
    requires Sequential(events)
    ensures OneThingShown(Visible(Render(Run(events))))
  {
  }

  /** Whatever happened before, after an ask and one completion the screen
      shows exactly one of error text, empty-state message and cards, and
      no spinner. */
  lemma AskThenCompleteShowsOneThing(history: seq<Event>, question: string, theme: string, o: Outcome)
    ensures var w := Visible(Render(Run(history + [Asked(question, theme), Completed(o)])));
      OneThingShown(w) && !w.spinner
  {
  }

  /** With two calls in flight, a failure followed by a success shows the
      error text and the cards together. */
  lemma OverlappingCallsShowErrorAndCards(q1: string, t1: string, q2: string, t2: string, r: GeminiResponse, d: Option<string>)
    requires r.chain != []
    ensures var w := Visible(Render(Run([Asked(q1, t1), Asked(q2, t2), Completed(NetworkFail(d)), Completed(Success(r))])));
      w.errorText.Some? && w.cards != [] && !OneThingShown(w)
  {
  }
}
