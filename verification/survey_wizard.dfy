/** The six-page questionnaire wizard of `src/pages/Survey.tsx`.

    The page keeps a page counter (1..6), the current page's answer buffer,
    the name, the page-1 answers (`allAnswers`) and the lower-cased yes/no
    answers of the pages already submitted (`yesNoAnswers`). Each handler is a
    pure step over a snapshot of that state. React applies `setState` writes
    only after the handler returns, so everything a handler reads is the
    snapshot it was called with; the model follows that rule literally, which
    is why the final payload does not see the page-6 append the handler
    queues just before building it. */
module SurveyWizard {
  import opened Common
  import opened JsValues
  import opened Protocol

  datatype SurveyState = SurveyState(
    name: string,
    currentPage: int,
    questions: seq<Question>,
    isLoading: bool,
    error: string,
    pageAnswers: seq<JsValue>,
    allAnswers: seq<JsValue>,
    yesNoAnswers: seq<string>)

  /** The state right after the component mounts. */
  const Mounted: SurveyState := SurveyState("", 1, [], true, "", [], [], [])

  /** The page counter stays within the six pages. */
  predicate Wf(s: SurveyState) {
    1 <= s.currentPage <= 6
  }

  const NameRequired: string := "請輸入你的名字"
  const ScoresOutOfRange: string := "請為所有科目輸入1-7分之間的分數"
  const AnswerEveryQuestion: string := "請回答所有問題"
  const QuestionsUnavailable: string := "無法載入問題，請重試"
  const FinalSubmitFailed: string := "Failed to submit survey"

  function PageSubmitFailed(page: int): string {
    "Failed to submit page " + IntToDecimal(page)
  }

  /** The six questions page 1 installs without asking the service. */
  const PageOneQuestions: seq<Question> := [
    Question("請輸入你的名", None, Some("text")),
    Question("DSE Chinese predicted score (1-7)", None, Some("score")),
    Question("DSE English predicted score (1-7)", None, Some("score")),
    Question("DSE Mathematics predicted score (1-7)", None, Some("score")),
    Question("DSE Elective 1 predicted score (1-7)", None, Some("score")),
    Question("DSE Elective 2 predicted score (1-7)", None, Some("score"))
  ]

  /** `new Array(n).fill('')`. */
  function Blanks(n: nat): (r: seq<JsValue>)
    ensures |r| == n
    ensures forall k :: 0 <= k < n ==> r[k] == Str("")
  {
    seq(n, _ => Str(""))
  }

  /** While loading, the page shows a spinner instead of both navigation
      buttons. */
  predicate NavigationShown(s: SurveyState) {
    !s.isLoading
  }

  /** The Back button exists only past page 1 and outside loading. */
  predicate BackShown(s: SurveyState) {
    NavigationShown(s) && s.currentPage > 1
  }

  // ---------------------------------------------------------------------------
  // Page entry: the effects keyed on `currentPage`
  // ---------------------------------------------------------------------------

  datatype Entry = Entry(state: SurveyState, request: Option<Request>)

  /** On page 1 the six fixed questions and a blank six-slot buffer are
      installed; on later pages loading starts and the page's questions are
      requested, with the name as `user_name` when it is non-empty. */
  function EnterPage(s: SurveyState): (e: Entry)
    ensures e.state.currentPage == s.currentPage && e.state.name == s.name
    ensures e.state.allAnswers == s.allAnswers && e.state.yesNoAnswers == s.yesNoAnswers
    ensures s.currentPage == 1 ==>
      && e.request.None? && !e.state.isLoading
      && |e.state.pageAnswers| == |e.state.questions| == 6
      && forall k :: 0 <= k < 6 ==> e.state.pageAnswers[k] == Str("")
    ensures s.currentPage > 1 ==>
      && e.state.isLoading
      && e.request == Some(GetSurveyPage(s.currentPage, if s.name == "" then None else Some(s.name)))
  {
    if s.currentPage == 1 then
      Entry(s.(questions := PageOneQuestions, pageAnswers := Blanks(6), isLoading := false), None)
    else if s.currentPage > 1 then
      Entry(s.(isLoading := true), Some(GetSurveyPage(s.currentPage, if s.name == "" then None else Some(s.name))))
    else
      Entry(s, None)
  }

  /** How the question fetch of pages 2–6 ends: a JSON body whose `questions`
      is an array, or anything else (HTTP error, network error, malformed
      body), which the page reports with one fixed message. */
  datatype QuestionsReply = Questions(list: seq<Question>) | Failed

  function QuestionsLoaded(s: SurveyState, reply: QuestionsReply): (t: SurveyState)
    ensures s.currentPage > 1 ==> !t.isLoading
    ensures s.currentPage > 1 && reply.Questions? ==>
      && t.questions == reply.list && t.error == ""
      && |t.pageAnswers| == |reply.list|
      && forall k :: 0 <= k < |t.pageAnswers| ==> t.pageAnswers[k] == Str("")
    ensures s.currentPage > 1 && reply.Failed? ==>
      t == s.(isLoading := false, error := QuestionsUnavailable)
    ensures t.currentPage == s.currentPage && t.name == s.name
    ensures t.allAnswers == s.allAnswers && t.yesNoAnswers == s.yesNoAnswers
  {
    if s.currentPage <= 1 then s
    else match reply
      case Questions(list) =>
        s.(questions := list, pageAnswers := Blanks(|list|), error := "", isLoading := false)
      case Failed =>
        s.(error := QuestionsUnavailable, isLoading := false)
  }

  // ---------------------------------------------------------------------------
  // Input handlers
  // ---------------------------------------------------------------------------

  /** The name field; it touches neither the page nor any answer. */
  function ChangeName(s: SurveyState, value: string): (t: SurveyState)
    ensures t.name == value && t.error == ""
    ensures t.currentPage == s.currentPage && t.pageAnswers == s.pageAnswers
    ensures t.allAnswers == s.allAnswers && t.yesNoAnswers == s.yesNoAnswers
  {
    s.(name := value, error := "")
  }

  /** `handleAnswerSelect`: only slot `index` changes; on page 1 the score
      slots store `Number(answer)`. */
  function SelectAnswer(s: SurveyState, index: nat, answer: JsValue): (t: SurveyState)
    requires index < |s.pageAnswers|
    ensures |t.pageAnswers| == |s.pageAnswers|
    ensures t.pageAnswers[index] == if s.currentPage == 1 && index > 0 then Num(ToNumber(answer)) else answer
    ensures forall k :: 0 <= k < |s.pageAnswers| && k != index ==> t.pageAnswers[k] == s.pageAnswers[k]
    ensures t == s.(pageAnswers := t.pageAnswers, error := "")
  {
    var stored := if s.currentPage == 1 && index > 0 then Num(ToNumber(answer)) else answer;
    s.(pageAnswers := s.pageAnswers[index := stored], error := "")
  }

  // ---------------------------------------------------------------------------
  // Validation
  // ---------------------------------------------------------------------------

  /** A page-1 score slot passes when it is not `''` and `Number` of it lies
      in [1, 7]; NaN fails both comparisons. */
  predicate ScoreAccepted(v: JsValue) {
    v != Str("") && AtLeast(ToNumber(v), 1.0) && AtMost(ToNumber(v), 7.0)
  }

  /** `Array.prototype.every` from position `from` on: the callback gets
      each element and its index, and the scan stops at the first `false`. */
  function EveryFrom(buf: seq<JsValue>, from: nat, test: (JsValue, nat) -> bool): bool
    requires from <= |buf|
    decreases |buf| - from
  {
    from == |buf| || (test(buf[from], from) && EveryFrom(buf, from + 1, test))
  }

  /** `every` is true exactly when the callback holds at every index. */
  lemma {:induction false} EveryFromMeansAll(buf: seq<JsValue>, from: nat, test: (JsValue, nat) -> bool)
    requires from <= |buf|
    ensures EveryFrom(buf, from, test) <==> forall k :: from <= k < |buf| ==> test(buf[k], k)
    decreases |buf| - from
  {
    if from < |buf| {
      EveryFromMeansAll(buf, from + 1, test);
    }
  }

  /** The page-1 callback `(score, index) => index === 0 || …`: the name
      slot passes, every other slot must hold an accepted score. */
  predicate ScoreSlotOk(v: JsValue, index: nat) {
    index == 0 || ScoreAccepted(v)
  }

  /** `pageAnswers.every((score, index) => index === 0 || …)`. */
  function ScoresValid(buf: seq<JsValue>): bool {
    EveryFrom(buf, 0, ScoreSlotOk)
  }

  /** The scan accepts exactly when each score slot is accepted. */
  lemma ScoresValidMeansAccepted(buf: seq<JsValue>)
    ensures ScoresValid(buf) <==> forall k :: 0 < k < |buf| ==> ScoreAccepted(buf[k])
  {
    EveryFromMeansAll(buf, 0, ScoreSlotOk);
  }

  /** `pageAnswers.every(answer => answer !== '')` from `from` on. */
  function AnsweredFrom(buf: seq<JsValue>, from: nat): (ok: bool)
    requires from <= |buf|
    ensures ok <==> forall k :: from <= k < |buf| ==> buf[k] != Str("")
    decreases |buf| - from
  {
    from == |buf| || (buf[from] != Str("") && AnsweredFrom(buf, from + 1))
  }

  /** What forward navigation from page 1 demands. */
  predicate PageOneValid(s: SurveyState) {
    !IsBlank(Js, s.name) && forall k :: 1 <= k < |s.pageAnswers| ==> ScoreAccepted(s.pageAnswers[k])
  }

  /** What forward navigation from pages 2–6 demands. */
  predicate AllAnswered(buf: seq<JsValue>) {
    forall k :: 0 <= k < |buf| ==> buf[k] != Str("")
  }

  predicate MayAdvance(s: SurveyState) {
    if s.currentPage == 1 then PageOneValid(s) else AllAnswered(s.pageAnswers)
  }

  // ---------------------------------------------------------------------------
  // handlePageSubmit
  // ---------------------------------------------------------------------------

  /** The effect of one press of the forward button. */
  datatype Submission = Submission(
    state: SurveyState,            // after the `finally` block
    request: Option<Request>,      // the one request the handler sends, if any
    waiting: Option<SurveyState>,  // what is rendered while it is in flight
    storage: Storage,              // localStorage afterwards
    location: Option<string>)      // `window.location.href` target, on success

  /** A refused attempt: only the error and the loading flag change, and on
      page 6 the persisted name and completion flag are removed. */
  function Refuse(s: SurveyState, store: Storage, message: string): (r: Submission)
    ensures r.state == s.(isLoading := false, error := message)
    ensures r.request.None? && r.waiting.None? && r.location.None?
    ensures s.currentPage == 6 ==> r.storage == ClearCompletion(store)
    ensures s.currentPage != 6 ==> r.storage == store
  {
    Submission(
      s.(isLoading := false, error := message), None, None,
      if s.currentPage == 6 then ClearCompletion(store) else store, None)
  }

  /** The per-page submit of pages 1–5 and its outcome; `s1` already holds
      the updates queued before the request. */
  function AwaitPage(s1: SurveyState, store: Storage, request: Request, reply: Reply): (r: Submission)
    ensures r.request == Some(request) && r.storage == store && r.location.None?
    ensures r.waiting == Some(s1.(isLoading := true, error := ""))
    ensures !r.state.isLoading && r.state.name == s1.name
    ensures r.state.allAnswers == s1.allAnswers && r.state.yesNoAnswers == s1.yesNoAnswers
    ensures r.state.currentPage == if reply.Ok? then s1.currentPage + 1 else s1.currentPage
    ensures reply.Ok? ==> r.state.pageAnswers == [] && r.state.error == ""
    ensures !reply.Ok? ==> r.state.pageAnswers == s1.pageAnswers
  {
    var waiting := s1.(isLoading := true, error := "");
    if reply.Ok? then
      Submission(
        s1.(currentPage := s1.currentPage + 1, pageAnswers := [], error := "", isLoading := false),
        Some(request), Some(waiting), store, None)
    else
      Submission(
        s1.(isLoading := false, error := FailureMessage(reply, PageSubmitFailed(s1.currentPage))),
        Some(request), Some(waiting), store, None)
  }

  /** `allAnswers.slice(0, 6)`. */
  function PageOnePart(s: SurveyState): seq<JsValue> {
    if |s.allAnswers| <= 6 then s.allAnswers else s.allAnswers[..6]
  }

  /** `collectAllAnswers()` evaluated on the snapshot. */
  function CollectAllAnswers(s: SurveyState): (seq<JsValue>, seq<JsValue>) {
    var first := PageOnePart(s);
    (first + Strs(s.yesNoAnswers + LowerAll(s.pageAnswers)),
     if first == [] then [] else first[1..])
  }

  /** The body of the final `submit_survey` request. */
  function FinalRequest(s: SurveyState): Request {
    var (answers, dse) := CollectAllAnswers(s);
    SubmitSurvey(s.name, answers + Strs(LowerAll(s.pageAnswers)), Some(dse))
  }

  /** Page 6: the completion marker is written, the final survey is sent,
      and any failure removes the marker again. */
  function FinishSurvey(s: SurveyState, store: Storage, reply: Reply): (r: Submission)
    ensures r.request == Some(FinalRequest(s))
    ensures r.waiting.Some? && r.waiting.value.isLoading
    ensures !r.state.isLoading && r.state.name == s.name && r.state.currentPage == s.currentPage
    ensures r.state.pageAnswers == s.pageAnswers && r.state.allAnswers == s.allAnswers
    ensures r.state.yesNoAnswers == s.yesNoAnswers + LowerAll(s.pageAnswers)
    ensures reply.Ok? ==>
      && r.location == Some("/results")
      && GetItem(r.storage, UserNameKey) == Some(s.name)
      && GetItem(r.storage, CompletedKey) == Some("true")
    ensures !reply.Ok? ==> r.storage == ClearCompletion(store) && r.location.None?
  {
    var s1 := s.(yesNoAnswers := s.yesNoAnswers + LowerAll(s.pageAnswers));
    var marked := store[UserNameKey := s.name][CompletedKey := "true"];
    assert ClearCompletion(marked) == ClearCompletion(store);
    var waiting := s1.(isLoading := true, error := "");
    if reply.Ok? then
      Submission(s1.(isLoading := false, error := ""), Some(FinalRequest(s)), Some(waiting), marked, Some("/results"))
    else
      Submission(
        s1.(isLoading := false, error := FailureMessage(reply, FinalSubmitFailed)),
        Some(FinalRequest(s)), Some(waiting), ClearCompletion(marked), None)
  }

  /** Page 1: the name and the score slots are checked, then the name
      and scores are recorded and sent. */
  function PageOneSubmit(s: SurveyState, store: Storage, reply: Reply): (r: Submission)
    requires s.currentPage == 1
    ensures r.request.Some? <==> PageOneValid(s)
    ensures r.request.None? ==> r == Refuse(s, store, r.state.error) && r.state.error in {NameRequired, ScoresOutOfRange}
    ensures r.request.Some? ==>
      var first := [Str(s.name)] + (if s.pageAnswers == [] then [] else s.pageAnswers[1..]);
      r == AwaitPage(s.(allAnswers := first), store, SubmitSurveyPage(s.name, 1, first), reply)
  {
    if IsBlank(Js, s.name) then Refuse(s, store, NameRequired)
    else if (ScoresValidMeansAccepted(s.pageAnswers); !ScoresValid(s.pageAnswers)) then
      Refuse(s, store, ScoresOutOfRange)
    else
      var first := [Str(s.name)] + (if s.pageAnswers == [] then [] else s.pageAnswers[1..]);
      AwaitPage(s.(allAnswers := first), store, SubmitSurveyPage(s.name, 1, first), reply)
  }

  /** `handlePageSubmit`, with `reply` the outcome of the one request it
      sends. */
  function PageSubmit(s: SurveyState, store: Storage, reply: Reply): (r: Submission)
    requires Wf(s)
    ensures Wf(r.state) && r.state.name == s.name && !r.state.isLoading
    // a request goes out exactly when the page validates
    ensures r.request.Some? <==> MayAdvance(s)
    ensures r.request.None? ==>
      && r.state == s.(isLoading := false, error := r.state.error)
      && r.state.error in {NameRequired, ScoresOutOfRange, AnswerEveryQuestion}
      && r.location.None?
    // nothing can be pressed while the request is in flight
    ensures r.waiting.Some? <==> r.request.Some?
    ensures r.waiting.Some? ==> r.waiting.value.isLoading && !NavigationShown(r.waiting.value)
    // the page moves by one exactly on a successful submit of pages 1–5
    ensures r.state.currentPage ==
      if s.currentPage < 6 && r.request.Some? && reply.Ok? then s.currentPage + 1 else s.currentPage
    ensures r.state.currentPage != s.currentPage ==> r.state.pageAnswers == [] && r.state.error == ""
    ensures r.state.currentPage == s.currentPage ==> r.state.pageAnswers == s.pageAnswers
    // page 1 records the name and scores before sending them
    ensures s.currentPage == 1 && r.request.Some? ==>
      && r.state.allAnswers == [Str(s.name)] + (if s.pageAnswers == [] then [] else s.pageAnswers[1..])
      && r.request.value == SubmitSurveyPage(s.name, 1, r.state.allAnswers)
    ensures s.currentPage != 1 || r.request.None? ==> r.state.allAnswers == s.allAnswers
    // pages 2–6 append their lower-cased answers whatever the reply
    ensures s.currentPage > 1 && r.request.Some? ==>
      r.state.yesNoAnswers == s.yesNoAnswers + LowerAll(s.pageAnswers)
    ensures s.currentPage == 1 || r.request.None? ==> r.state.yesNoAnswers == s.yesNoAnswers
    ensures 1 < s.currentPage < 6 && r.request.Some? ==>
      r.request.value == SubmitSurveyPage(s.name, s.currentPage, s.pageAnswers)
    // only page 6 sends the final survey and touches localStorage
    ensures s.currentPage < 6 ==> r.storage == store && r.location.None?
    ensures s.currentPage == 6 && r.request.Some? ==> r.request.value == FinalRequest(s)
    ensures s.currentPage == 6 && r.request.Some? && reply.Ok? ==>
      && r.location == Some("/results")
      && GetItem(r.storage, UserNameKey) == Some(s.name)
      && GetItem(r.storage, CompletedKey) == Some("true")
    ensures s.currentPage == 6 && (r.request.None? || !reply.Ok?) ==>
      r.storage == ClearCompletion(store) && r.location.None?
  {
    if s.currentPage == 1 then PageOneSubmit(s, store, reply)
    else if !AnsweredFrom(s.pageAnswers, 0) then Refuse(s, store, AnswerEveryQuestion)
    else if s.currentPage < 6 then
      AwaitPage(
        s.(yesNoAnswers := s.yesNoAnswers + LowerAll(s.pageAnswers)), store,
        SubmitSurveyPage(s.name, s.currentPage, s.pageAnswers), reply)
    else FinishSurvey(s, store, reply)
  }

  /** The Back button: present only past page 1 and outside loading, it moves
      one page back and changes nothing else. */
  function Back(s: SurveyState): (t: Option<SurveyState>)
    ensures t.Some? <==> BackShown(s)
    ensures t.Some? ==> t.value.currentPage == s.currentPage - 1 >= 1
    ensures t.Some? ==> t.value == s.(currentPage := t.value.currentPage)
  {
    if BackShown(s) then Some(s.(currentPage := s.currentPage - 1)) else None
  }

  // ---------------------------------------------------------------------------
  // Properties of the final payload and of repeated submissions
  // ---------------------------------------------------------------------------

  /** The final payload is the page-1 part, then the yes/no answers of pages
      2–5 as they stood before the press, then the page-6 answers twice;
      `dse_scores` are the page-1 part without the name. */
  lemma FinalPayloadRepeatsPageSix(s: SurveyState)
    ensures FinalRequest(s).answers
      == PageOnePart(s) + Strs(s.yesNoAnswers) + Strs(LowerAll(s.pageAnswers)) + Strs(LowerAll(s.pageAnswers))
    ensures FinalRequest(s).dseScores == Some(if PageOnePart(s) == [] then [] else PageOnePart(s)[1..])
  {
    var lowered := LowerAll(s.pageAnswers);
    assert FinalRequest(s).answers == PageOnePart(s) + Strs(s.yesNoAnswers + lowered) + Strs(lowered);
    StrsAppend(s.yesNoAnswers, lowered);
  }

  /** After one straight pass (six page-1 answers, four pages of ten, three
      final answers) the final payload holds 52 values, not 49, and five
      scores. */
  lemma StraightRunSendsFiftyTwo(s: SurveyState, store: Storage, reply: Reply)
    requires Wf(s) && s.currentPage == 6 && AllAnswered(s.pageAnswers)
    requires |s.allAnswers| == 6 && |s.yesNoAnswers| == 40 && |s.pageAnswers| == 3
    ensures var r := PageSubmit(s, store, reply);
      && r.request.Some?
      && |r.request.value.answers| == 52
      && r.request.value.dseScores.Some? && |r.request.value.dseScores.value| == 5
  {
    assert AnsweredFrom(s.pageAnswers, 0);
    FinalPayloadRepeatsPageSix(s);
  }

  /** On pages 2–5 the append happens before the request, so a failed submit
      keeps it and pressing the button again appends the same answers a
      second time. */
  lemma RetryAfterFailureAppendsTwice(s: SurveyState, store: Storage, failure: Reply, reply: Reply)
    requires Wf(s) && 1 < s.currentPage < 6 && AllAnswered(s.pageAnswers)
    requires !failure.Ok?
    ensures var first := PageSubmit(s, store, failure);
      && first.state.currentPage == s.currentPage
      && PageSubmit(first.state, first.storage, reply).state.yesNoAnswers
         == s.yesNoAnswers + LowerAll(s.pageAnswers) + LowerAll(s.pageAnswers)
  {
  }

  /** Every step only ever extends `yesNoAnswers`. */
  lemma YesNoAnswersOnlyGrow(s: SurveyState, store: Storage, reply: Reply)
    requires Wf(s)
    ensures s.yesNoAnswers <= PageSubmit(s, store, reply).state.yesNoAnswers
    ensures s.yesNoAnswers == EnterPage(s).state.yesNoAnswers
    ensures Back(s).Some? ==> Back(s).value.yesNoAnswers == s.yesNoAnswers
  {
  }
}
