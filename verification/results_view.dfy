/** The results page of `src/pages/Results.tsx`: its access effect, the
    career-path and JUPAS pagers, the traditional/emerging switch and the
    interest form that asks the service for emerging careers.

    Career-path and JUPAS records are shown, never inspected, by these
    handlers, so a record is an opaque JSON object here. Every handler is a
    pure step over a snapshot of the page state; a handler that sends a
    request takes the reply as a parameter. */
module ResultsView {
  import opened Common
  import opened Protocol

  /** A career-path or JUPAS record, as the JSON object the page receives. */
  type Card = map<string, string>

  datatype View = Traditional | Emerging

  datatype ResultsState = ResultsState(
    userName: string,
    view: View,
    careerPaths: seq<Card>,
    traditional: seq<Card>,
    emerging: seq<Card>,
    pathIndex: int,
    jupas: Option<seq<Card>>,
    jupasIndex: int,
    showInterestForm: bool,
    interestWords: seq<string>,
    submitting: bool,
    loadingEmerging: bool,
    emergingError: string)

  const BlankInterests: seq<string> := ["", "", ""]

  /** The state right after the component mounts. */
  const Mounted: ResultsState :=
    ResultsState("", Traditional, [], [], [], 0, None, 0, false, BlankInterests, false, false, "")

  /** The interest form always holds three words. */
  predicate Wf(s: ResultsState) {
    |s.interestWords| == 3
  }

  // ---------------------------------------------------------------------------
  // Access
  // ---------------------------------------------------------------------------

  /** The access effect: without a truthy stored name and a truthy
      completion flag the page redirects to `/`; otherwise it adopts the
      stored name. The result's second half is whether it redirects. */
  function AccessEffect(s: ResultsState, store: Storage): (r: (ResultsState, bool))
    ensures r.1 <==> !Truthy(GetItem(store, UserNameKey)) || !Truthy(GetItem(store, CompletedKey))
    ensures r.1 ==> r.0 == s
    ensures !r.1 ==> r.0 == s.(userName := store[UserNameKey]) && r.0.userName != ""
  {
    var name := GetItem(store, UserNameKey);
    if !Truthy(name) || !Truthy(GetItem(store, CompletedKey)) then (s, true)
    else (s.(userName := name.value), false)
  }

  // ---------------------------------------------------------------------------
  // Pagers and the view switch
  // ---------------------------------------------------------------------------

  /** An index that is 0 or points into a list of `n` records, that is, one
      in `[0, max(n - 1, 0)]`. */
  predicate IndexFits(index: int, n: nat) {
    0 <= index && (index == 0 || index < n)
  }

  /** Number of JUPAS recommendations; none while the data is missing. */
  function JupasCount(s: ResultsState): nat {
    if s.jupas.Some? then |s.jupas.value| else 0
  }

  /** Both pagers point at a record (or at 0). */
  predicate InRange(s: ResultsState) {
    IndexFits(s.pathIndex, |s.careerPaths|) && IndexFits(s.jupasIndex, JupasCount(s))
  }

  function NextPath(s: ResultsState): (t: ResultsState)
    ensures t.pathIndex == if s.pathIndex < |s.careerPaths| - 1 then s.pathIndex + 1 else s.pathIndex
    ensures t == s.(pathIndex := t.pathIndex)
    ensures InRange(s) ==> InRange(t)
  {
    if s.pathIndex < |s.careerPaths| - 1 then s.(pathIndex := s.pathIndex + 1) else s
  }

  function PreviousPath(s: ResultsState): (t: ResultsState)
    ensures t.pathIndex == if s.pathIndex > 0 then s.pathIndex - 1 else s.pathIndex
    ensures t == s.(pathIndex := t.pathIndex)
    ensures InRange(s) ==> InRange(t)
  {
    if s.pathIndex > 0 then s.(pathIndex := s.pathIndex - 1) else s
  }

  /** The JUPAS pager only moves forward once the data has arrived. */
  function NextJupas(s: ResultsState): (t: ResultsState)
    ensures s.jupas.None? ==> t == s
    ensures t.jupasIndex == if s.jupas.Some? && s.jupasIndex < |s.jupas.value| - 1 then s.jupasIndex + 1 else s.jupasIndex
    ensures t == s.(jupasIndex := t.jupasIndex)
    ensures InRange(s) ==> InRange(t)
  {
    if s.jupas.Some? && s.jupasIndex < |s.jupas.value| - 1 then s.(jupasIndex := s.jupasIndex + 1) else s
  }

  /** Moving back does not look at the data. */
  function PreviousJupas(s: ResultsState): (t: ResultsState)
    ensures t.jupasIndex == if s.jupasIndex > 0 then s.jupasIndex - 1 else s.jupasIndex
    ensures t == s.(jupasIndex := t.jupasIndex)
    ensures InRange(s) ==> InRange(t)
  {
    if s.jupasIndex > 0 then s.(jupasIndex := s.jupasIndex - 1) else s
  }

  /** Forward then back returns to the same record whenever forward moved. */
  lemma NextThenPrevious(s: ResultsState)
    requires InRange(s) && s.pathIndex < |s.careerPaths| - 1
    ensures PreviousPath(NextPath(s)) == s
  {
  }

  /** Back then forward returns to the same record whenever back moved,
      provided the index pointed at a record. */
  lemma PreviousThenNext(s: ResultsState)
    requires InRange(s) && s.pathIndex > 0
    ensures NextPath(PreviousPath(s)) == s
  {
  }

  /** `handleCareerViewChange`: the index always restarts at 0; the
      traditional list comes back, and the emerging list is shown only when
      there is one. */
  function CareerViewChange(s: ResultsState, view: View): (t: ResultsState)
    ensures t.view == view && t.pathIndex == 0
    ensures view == Traditional ==> t.careerPaths == s.traditional
    ensures view == Emerging && s.emerging != [] ==> t.careerPaths == s.emerging
    ensures view == Emerging && s.emerging == [] ==> t.careerPaths == s.careerPaths
    ensures t == s.(view := view, pathIndex := 0, careerPaths := t.careerPaths)
    ensures InRange(s) ==> InRange(t)
  {
    var paths :=
      if view == Traditional then s.traditional
      else if |s.emerging| > 0 then s.emerging
      else s.careerPaths;
    s.(view := view, pathIndex := 0, careerPaths := paths)
  }

  // ---------------------------------------------------------------------------
  // Interest form
  // ---------------------------------------------------------------------------

  const FillEveryInterest: string := "請填寫所有興趣項目"
  const EmergingFetchFailed: string := "Failed to fetch emerging careers"
  const InvalidEmergingData: string := "Invalid emerging careers data"

  /** How the emerging-careers fetch ends: the HTTP outcome and, on a 2xx
      reply, the `emerging_careers` field when it is an array. */
  datatype EmergingReply = EmergingReply(status: Reply, careers: Option<seq<Card>>)

  /** A handler's result: the state after it finishes, the request it sent
      and the state while that request is in flight. */
  datatype Outcome = Outcome(state: ResultsState, request: Option<Request>, waiting: Option<ResultsState>)

  /** Every word is non-blank under JavaScript's `trim`. */
  predicate AllFilled(words: seq<string>) {
    forall i :: 0 <= i < |words| ==> !IsBlank(Js, words[i])
  }

  /** The request the form sends: the trimmed words as query parameters. */
  function InterestRequest(s: ResultsState): (q: Request)
    requires Wf(s)
    ensures q.GetEmergingCareers? && q.userName == s.userName
    ensures q.favoriteSport == Trim(Js, s.interestWords[0])
    ensures q.passionateActivity == Trim(Js, s.interestWords[1])
    ensures q.billionairePurchase == Trim(Js, s.interestWords[2])
  {
    GetEmergingCareers(s.userName, Trim(Js, s.interestWords[0]), Trim(Js, s.interestWords[1]), Trim(Js, s.interestWords[2]))
  }

  /** What the page shows while the emerging-careers request is in flight:
      the submit and loading flags up, the previous error cleared. */
  function InFlight(s: ResultsState): (w: ResultsState)
    ensures w.submitting && w.loadingEmerging && w.emergingError == ""
  {
    s.(submitting := true, emergingError := "", loadingEmerging := true)
  }

  /** The end of `handleInterestSubmit` once the reply is in: a 2xx array
      reply replaces what is shown, anything else only sets the error; the
      flags drop in every case. */
  function InterestReplied(w: ResultsState, reply: EmergingReply): (t: ResultsState)
    ensures !t.submitting && !t.loadingEmerging
    // a 2xx array reply is shown from its first record and closes the form
    ensures reply.status.Ok? && reply.careers.Some? ==>
      && t.careerPaths == reply.careers.value && t.emerging == reply.careers.value
      && t.pathIndex == 0 && !t.showInterestForm && t.emergingError == w.emergingError
    // any other reply leaves the records alone and explains itself
    ensures !reply.status.Ok? ==>
      t == w.(submitting := false, loadingEmerging := false,
              emergingError := FailureMessage(reply.status, EmergingFetchFailed))
    ensures reply.status.Ok? && reply.careers.None? ==>
      t == w.(submitting := false, loadingEmerging := false, emergingError := InvalidEmergingData)
    // the view, the words, the traditional list and the JUPAS pager are kept
    ensures t.view == w.view && t.interestWords == w.interestWords && t.userName == w.userName
    ensures t.traditional == w.traditional && t.jupas == w.jupas && t.jupasIndex == w.jupasIndex
    ensures InRange(w) ==> InRange(t)
  {
    var done := w.(submitting := false, loadingEmerging := false);
    if !reply.status.Ok? then done.(emergingError := FailureMessage(reply.status, EmergingFetchFailed))
    else if reply.careers.None? then done.(emergingError := InvalidEmergingData)
    else done.(emerging := reply.careers.value, careerPaths := reply.careers.value,
               pathIndex := 0, showInterestForm := false)
  }

  /** `handleInterestSubmit`, reading the interest words of the snapshot. */
  function InterestSubmit(s: ResultsState, reply: EmergingReply): (r: Outcome)
    requires Wf(s)
    // a press while a submit is in flight does nothing
    ensures s.submitting ==> r == Outcome(s, None, None)
    // a blank word is refused before anything is sent
    ensures !s.submitting && !AllFilled(s.interestWords) ==>
      r == Outcome(s.(emergingError := FillEveryInterest), None, None)
    // otherwise exactly one request goes out, with the trimmed words, and
    // the reply is handled from the in-flight state
    ensures r.request.Some? <==> !s.submitting && AllFilled(s.interestWords)
    ensures r.request.Some? ==>
      && r.request.value == InterestRequest(s)
      && r.waiting == Some(InFlight(s))
      && r.state == InterestReplied(InFlight(s), reply)
    ensures r.request.None? ==> r.waiting.None?
    ensures r.state.view == s.view && r.state.interestWords == s.interestWords
    ensures Wf(r.state) && (InRange(s) ==> InRange(r.state))
  {
    if s.submitting then Outcome(s, None, None)
    else if !AllFilled(s.interestWords) then Outcome(s.(emergingError := FillEveryInterest), None, None)
    else
      var w := InFlight(s);
      Outcome(InterestReplied(w, reply), Some(InterestRequest(s)), Some(w))
  }

  /** A second press while the first request is in flight sends nothing. */
  lemma NoDoubleSubmit(s: ResultsState, reply: EmergingReply, again: EmergingReply)
    requires Wf(s)
    requires InterestSubmit(s, reply).waiting.Some?
    ensures InterestSubmit(InterestSubmit(s, reply).waiting.value, again).request.None?
  {
  }

  /** The form's submit button: it stores the words typed into the form and
      then runs `handleInterestSubmit` of the same render, which still sees
      the words stored before the press. */
  function InterestFormSubmit(s: ResultsState, local: seq<string>, reply: EmergingReply): (r: Outcome)
    requires Wf(s) && |local| == 3
    ensures r.state.interestWords == local && Wf(r.state)
    ensures r.request.Some? <==> !s.submitting && AllFilled(s.interestWords)
    ensures r.request.Some? ==> r.request.value == InterestRequest(s)
  {
    var o := InterestSubmit(s, reply);
    Outcome(o.state.(interestWords := local), o.request,
            if o.waiting.Some? then Some(o.waiting.value.(interestWords := local)) else None)
  }

  /** The re-enter button: blank words and the form shown again. */
  function ReenterInterests(s: ResultsState): (t: ResultsState)
    ensures t.interestWords == BlankInterests && t.showInterestForm && Wf(t)
    ensures t == s.(interestWords := BlankInterests, showInterestForm := true)
  {
    s.(interestWords := BlankInterests, showInterestForm := true)
  }

  /** The first-time button: the form shown, the words kept. */
  function OpenInterestForm(s: ResultsState): (t: ResultsState)
    ensures t.showInterestForm && t == s.(showInterestForm := true)
  {
    s.(showInterestForm := true)
  }

  /** Because the press reads the words stored before it, the first press
      after the form opens with blank words is always refused, however the
      form was filled; the words typed are kept, so a second press with the
      same words sends them. */
  lemma FirstPressAfterReenterRefused(s: ResultsState, local: seq<string>, reply: EmergingReply, second: EmergingReply)
    requires Wf(s) && !s.submitting && |local| == 3 && AllFilled(local)
    ensures var first := InterestFormSubmit(ReenterInterests(s), local, reply);
      && first.request.None?
      && first.state.emergingError == FillEveryInterest
      && InterestFormSubmit(first.state, local, second).request
           == Some(GetEmergingCareers(s.userName, Trim(Js, local[0]), Trim(Js, local[1]), Trim(Js, local[2])))
  {
    assert IsBlank(Js, BlankInterests[0]);
  }

  // ---------------------------------------------------------------------------
  // All handlers together
  // ---------------------------------------------------------------------------

  /** The user actions on the page. */
  datatype Event =
    | ChangeView(view: View)
    | PathForward
    | PathBack
    | JupasForward
    | JupasBack
    | SubmitInterests(local: seq<string>, reply: EmergingReply)
    | Reenter
    | OpenForm

  /** The state after one user action. */
  function Step(s: ResultsState, e: Event): ResultsState
    requires Wf(s)
    requires e.SubmitInterests? ==> |e.local| == 3
  {
    match e
    case ChangeView(view) => CareerViewChange(s, view)
    case PathForward => NextPath(s)
    case PathBack => PreviousPath(s)
    case JupasForward => NextJupas(s)
    case JupasBack => PreviousJupas(s)
    case SubmitInterests(local, reply) => InterestFormSubmit(s, local, reply).state
    case Reenter => ReenterInterests(s)
    case OpenForm => OpenInterestForm(s)
  }

  /** Well-formed user actions: the form always submits three words. */
  predicate ValidEvents(events: seq<Event>) {
    forall i :: 0 <= i < |events| ==> (events[i].SubmitInterests? ==> |events[i].local| == 3)
  }

  /** The state after a run of user actions. */
  function Run(s: ResultsState, events: seq<Event>): (t: ResultsState)
    requires Wf(s) && ValidEvents(events)
    ensures Wf(t)
    decreases |events|
  {
    if events == [] then s
    else
      var next := Step(s, events[0]);
      assert Wf(next) by {
        if events[0].SubmitInterests? { assert |events[0].local| == 3; }
      }
      Run(next, events[1..])
  }

  /** Whatever the user does, both pagers keep pointing at a record (or at
      0 while their list is empty). */
  lemma {:induction false} RunKeepsIndicesInRange(s: ResultsState, events: seq<Event>)
    requires Wf(s) && ValidEvents(events) && InRange(s)
    ensures InRange(Run(s, events))
    decreases |events|
  {
    if events != [] {
      var next := Step(s, events[0]);
      assert InRange(next);
      assert ValidEvents(events[1..]) by {
        forall i | 0 <= i < |events[1..]| ensures events[1..][i].SubmitInterests? ==> |events[1..][i].local| == 3 {
          assert events[1..][i] == events[i + 1];
        }
      }
      RunKeepsIndicesInRange(next, events[1..]);
    }
  }

  /** The page starts inside the bounds. */
  lemma MountedInRange()
    ensures Wf(Mounted) && InRange(Mounted)
  {
  }
}
