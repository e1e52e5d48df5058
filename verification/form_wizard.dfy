/** The second questionnaire wizard, `src/app/survey/page.tsx`.

    Its answers live in one fixed-shape record: a name, five subject scores,
    forty yes/no answers (ten per page for pages 2–5) and three final answers
    for page 6. Validation is a function from the record and the page to a
    list of error messages; forward navigation submits the current page's
    window and, on page 6, the 49-value aggregate. Handlers are pure steps
    over a snapshot, as in the first wizard. */
module FormWizard {
  import opened Common
  import opened JsValues
  import opened Protocol

  const SubjectCount: nat := 5
  const YesNoCount: nat := 40
  const FinalCount: nat := 3
  /** Yes/no questions per page on pages 2–5. */
  const PageSize: nat := 10

  datatype FormData = FormData(
    name: string,
    subjects: seq<string>,
    yesNoAnswers: seq<string>,
    finalAnswers: seq<string>)

  /** `questions` is `None` when the fetch stored `undefined`. */
  datatype FormState = FormState(
    currentPage: int,
    questions: Option<seq<Question>>,
    loading: bool,
    errors: seq<string>,
    form: FormData)

  /** The record keeps its three lengths. */
  predicate Shaped(f: FormData) {
    |f.subjects| == SubjectCount && |f.yesNoAnswers| == YesNoCount && |f.finalAnswers| == FinalCount
  }

  predicate Wf(s: FormState) {
    1 <= s.currentPage <= 6 && Shaped(s.form)
  }

  /** `Array(n).fill('')`. */
  function Empties(n: nat): (r: seq<string>)
    ensures |r| == n
    ensures forall k :: 0 <= k < n ==> r[k] == ""
  {
    seq(n, _ => "")
  }

  /** The state the component starts in: page 1, nothing answered. */
  function Initial(): (s: FormState)
    ensures Wf(s) && s.currentPage == 1 && !s.loading && s.errors == []
    ensures s.form.name == ""
    ensures forall k :: 0 <= k < SubjectCount ==> s.form.subjects[k] == ""
    ensures forall k :: 0 <= k < YesNoCount ==> s.form.yesNoAnswers[k] == ""
    ensures forall k :: 0 <= k < FinalCount ==> s.form.finalAnswers[k] == ""
  {
    FormState(1, Some([]), false, [], FormData("", Empties(SubjectCount), Empties(YesNoCount), Empties(FinalCount)))
  }

  // ---------------------------------------------------------------------------
  // Error messages
  // ---------------------------------------------------------------------------

  const NameMissing: string := "請輸入姓名"
  const SubmitFailedToast: string := "提交失敗，請稍後再試"
  const SubmitSucceededToast: string := "問卷已成功提交！"

  /** The two messages that carry a one-based item number. */
  datatype Complaint = BadScore | Unanswered

  function IndexMessage(kind: Complaint, i: nat): string {
    match kind
    case BadScore => "科目 " + NatToDecimal(i + 1) + " 分數必須在1-7之間"
    case Unanswered => "請回答問題 " + NatToDecimal(i + 1)
  }

  /** Messages for different items differ. */
  lemma IndexMessageInjective(kind: Complaint, i: nat, j: nat)
    requires IndexMessage(kind, i) == IndexMessage(kind, j)
    ensures i == j
  {
    var prefix := if kind == BadScore then "科目 " else "請回答問題 ";
    var a := NatToDecimal(i + 1);
    var b := NatToDecimal(j + 1);
    assert |a| == |b|;
    var m := IndexMessage(kind, i);
    assert a == m[|prefix|..|prefix| + |a|];
    assert b == IndexMessage(kind, j)[|prefix|..|prefix| + |b|];
    NatToDecimalInjective(i + 1, j + 1);
  }

  /** The name message is none of the score messages. */
  lemma NameMissingIsNoScoreMessage(i: nat)
    ensures IndexMessage(BadScore, i) != NameMissing
  {
    assert IndexMessage(BadScore, i)[0] == '科';
  }

  /** `flags.forEach((bad, i) => bad && errors.push(message(i)))`: one
      message per flagged item, in item order. */
  function Flagged(kind: Complaint, flags: seq<bool>): (errs: seq<string>)
    ensures |errs| <= |flags|
    ensures forall i :: 0 <= i < |flags| ==> (IndexMessage(kind, i) in errs <==> flags[i])
    ensures forall e :: e in errs ==> exists i :: 0 <= i < |flags| && flags[i] && e == IndexMessage(kind, i)
    ensures forall a, b :: 0 <= a < b < |errs| ==> errs[a] != errs[b]
    decreases |flags|
  {
    if flags == [] then []
    else
      var n := |flags| - 1;
      var earlier := Flagged(kind, flags[..n]);
      assert forall i :: 0 <= i < n ==> flags[..n][i] == flags[i];
      forall e | e in earlier ensures exists i :: 0 <= i < n && flags[i] && e == IndexMessage(kind, i) {
        var i :| 0 <= i < n && flags[..n][i] && e == IndexMessage(kind, i);
      }
      LaterIndexFresh(kind, n);
      if flags[n] then
        AppendFresh(earlier, IndexMessage(kind, n));
        earlier + [IndexMessage(kind, n)]
      else
        earlier
  }

  /** The message for item `n` is none of the messages for earlier items. */
  lemma LaterIndexFresh(kind: Complaint, n: nat)
    ensures forall i :: 0 <= i < n ==> IndexMessage(kind, i) != IndexMessage(kind, n)
  {
    forall i | 0 <= i < n ensures IndexMessage(kind, i) != IndexMessage(kind, n) {
      if IndexMessage(kind, i) == IndexMessage(kind, n) {
        IndexMessageInjective(kind, i, n);
      }
    }
  }

  /** Putting a new message at the end keeps a list free of repeats. */
  lemma AppendFresh(rest: seq<string>, x: string)
    requires x !in rest
    requires forall a, b :: 0 <= a < b < |rest| ==> rest[a] != rest[b]
    ensures forall e :: e in rest + [x] <==> e == x || e in rest
    ensures forall a, b :: 0 <= a < b < |rest + [x]| ==> (rest + [x])[a] != (rest + [x])[b]
  {
    var r := rest + [x];
    forall a, b | 0 <= a < b < |r| ensures r[a] != r[b] {
      assert r[a] == rest[a] && rest[a] in rest;
    }
  }

  // ---------------------------------------------------------------------------
  // Validation
  // ---------------------------------------------------------------------------

  /** A subject score is rejected when it is `''` or `Number` of it is below
      1 or above 7. NaN is neither, so a non-numeric score is not rejected. */
  predicate SubjectRejected(score: string) {
    score == "" || Below(StringToNumber(score), 1.0) || Above(StringToNumber(score), 7.0)
  }

  /** Where page `p` (2–5) keeps its answers in `yesNoAnswers`. */
  function WindowStart(p: int): int {
    (p - 2) * PageSize
  }

  /** The slots `validateCurrentPage` inspects on pages 2–6. */
  function CheckedAnswers(s: FormState): (r: seq<string>)
    requires Wf(s) && s.currentPage > 1
    ensures s.currentPage == 6 ==> r == s.form.finalAnswers
    ensures s.currentPage < 6 ==> |r| == PageSize
    ensures s.currentPage < 6 ==> forall k :: 0 <= k < PageSize ==> r[k] == s.form.yesNoAnswers[WindowStart(s.currentPage) + k]
  {
    if s.currentPage == 6 then s.form.finalAnswers
    else s.form.yesNoAnswers[WindowStart(s.currentPage)..WindowStart(s.currentPage + 1)]
  }

  /** One score message per rejected subject, in subject order. */
  function ScoreErrors(subjects: seq<string>): (errs: seq<string>)
    ensures forall i :: 0 <= i < |subjects| ==> (IndexMessage(BadScore, i) in errs <==> SubjectRejected(subjects[i]))
    ensures forall e :: e in errs ==> exists i :: 0 <= i < |subjects| && SubjectRejected(subjects[i]) && e == IndexMessage(BadScore, i)
    ensures NameMissing !in errs
    ensures |errs| <= |subjects|
    ensures forall a, b :: 0 <= a < b < |errs| ==> errs[a] != errs[b]
  {
    var errs := Flagged(BadScore, seq(|subjects|, k requires 0 <= k < |subjects| => SubjectRejected(subjects[k])));
    forall e | e in errs ensures e != NameMissing {
      var i :| 0 <= i < |subjects| && e == IndexMessage(BadScore, i);
      NameMissingIsNoScoreMessage(i);
    }
    errs
  }

  /** Page 1: the name message when the trimmed name is empty, then the
      score messages. */
  function PageOneErrors(name: string, subjects: seq<string>): (errs: seq<string>)
    ensures NameMissing in errs <==> IsBlank(Js, name)
    ensures forall i :: 0 <= i < |subjects| ==> (IndexMessage(BadScore, i) in errs <==> SubjectRejected(subjects[i]))
    ensures forall e :: e in errs && e != NameMissing ==>
      exists i :: 0 <= i < |subjects| && SubjectRejected(subjects[i]) && e == IndexMessage(BadScore, i)
    ensures |errs| <= 1 + |subjects|
    ensures forall a, b :: 0 <= a < b < |errs| ==> errs[a] != errs[b]
  {
    var scoreErrs := ScoreErrors(subjects);
    forall i | 0 <= i < |subjects| ensures IndexMessage(BadScore, i) != NameMissing {
      NameMissingIsNoScoreMessage(i);
    }
    if IsBlank(Js, name) then
      PrependFresh(NameMissing, scoreErrs);
      [NameMissing] + scoreErrs
    else
      scoreErrs
  }

  /** Putting a new message in front keeps a list free of repeats. */
  lemma PrependFresh(x: string, rest: seq<string>)
    requires x !in rest
    requires forall a, b :: 0 <= a < b < |rest| ==> rest[a] != rest[b]
    ensures forall e :: e in [x] + rest <==> e == x || e in rest
    ensures forall a, b :: 0 <= a < b < |[x] + rest| ==> ([x] + rest)[a] != ([x] + rest)[b]
  {
    var r := [x] + rest;
    forall a, b | 0 <= a < b < |r| ensures r[a] != r[b] {
      assert r[b] == rest[b - 1] && rest[b - 1] in rest;
      if a > 0 {
        assert r[a] == rest[a - 1];
      }
    }
  }

  /** Pages 2–6: one message per empty slot, in slot order. */
  function UnansweredErrors(answers: seq<string>): (errs: seq<string>)
    ensures forall i :: 0 <= i < |answers| ==> (IndexMessage(Unanswered, i) in errs <==> answers[i] == "")
    ensures forall e :: e in errs ==> exists i :: 0 <= i < |answers| && answers[i] == "" && e == IndexMessage(Unanswered, i)
    ensures |errs| <= |answers|
    ensures forall a, b :: 0 <= a < b < |errs| ==> errs[a] != errs[b]
  {
    Flagged(Unanswered, seq(|answers|, k requires 0 <= k < |answers| => answers[k] == ""))
  }

  /** `validateCurrentPage`: the error list it stores. */
  function ValidationErrors(s: FormState): (errs: seq<string>)
    requires Wf(s)
    ensures s.currentPage == 1 ==> (NameMissing in errs <==> IsBlank(Js, s.form.name))
    ensures s.currentPage == 1 ==> forall i :: 0 <= i < SubjectCount ==>
      (IndexMessage(BadScore, i) in errs <==> SubjectRejected(s.form.subjects[i]))
    ensures s.currentPage == 1 ==> |errs| <= 1 + SubjectCount
    ensures s.currentPage > 1 ==> forall i :: 0 <= i < |CheckedAnswers(s)| ==>
      (IndexMessage(Unanswered, i) in errs <==> CheckedAnswers(s)[i] == "")
    ensures s.currentPage > 1 ==> |errs| <= |CheckedAnswers(s)|
    ensures forall a, b :: 0 <= a < b < |errs| ==> errs[a] != errs[b]
  {
    if s.currentPage == 1 then PageOneErrors(s.form.name, s.form.subjects)
    else UnansweredErrors(CheckedAnswers(s))
  }

  /** What the page demands, read off the record directly. */
  predicate PageComplete(s: FormState)
    requires Wf(s)
  {
    if s.currentPage == 1 then
      !IsBlank(Js, s.form.name) && forall i :: 0 <= i < SubjectCount ==> !SubjectRejected(s.form.subjects[i])
    else if s.currentPage == 6 then
      forall i :: 0 <= i < FinalCount ==> s.form.finalAnswers[i] != ""
    else
      forall k :: WindowStart(s.currentPage) <= k < WindowStart(s.currentPage + 1) ==> s.form.yesNoAnswers[k] != ""
  }

  /** The page validates exactly when the record meets the page's demand. */
  lemma ValidExactlyWhenComplete(s: FormState)
    requires Wf(s)
    ensures ValidationErrors(s) == [] <==> PageComplete(s)
  {
    var errs := ValidationErrors(s);
    if s.currentPage > 1 && s.currentPage < 6 {
      if errs == [] {
        forall k | WindowStart(s.currentPage) <= k < WindowStart(s.currentPage + 1)
          ensures s.form.yesNoAnswers[k] != ""
        {
          var i := k - WindowStart(s.currentPage);
          assert IndexMessage(Unanswered, i) !in errs;
        }
      } else {
        var e := errs[0];
        var i :| 0 <= i < PageSize && e == IndexMessage(Unanswered, i) by {
          assert e in errs;
          assert forall j :: 0 <= j < PageSize && IndexMessage(Unanswered, j) in errs ==> CheckedAnswers(s)[j] == "";
          CheckedMessageNamesItem(s, e);
        }
        assert CheckedAnswers(s)[i] == "";
      }
    } else if s.currentPage == 6 {
      if errs != [] {
        CheckedMessageNamesItem(s, errs[0]);
      }
    } else if errs != [] {
      var e := errs[0];
      if e != NameMissing {
        PageOneMessageNamesItem(s, e);
      }
    }
  }

  /** Every message on pages 2–6 names an item the page checks. */
  lemma CheckedMessageNamesItem(s: FormState, e: string)
    requires Wf(s) && s.currentPage > 1 && e in ValidationErrors(s)
    ensures exists i :: 0 <= i < |CheckedAnswers(s)| && e == IndexMessage(Unanswered, i) && CheckedAnswers(s)[i] == ""
  {
    assert ValidationErrors(s) == UnansweredErrors(CheckedAnswers(s));
  }

  /** Every message on page 1 other than the name message names a rejected
      subject. */
  lemma PageOneMessageNamesItem(s: FormState, e: string)
    requires Wf(s) && s.currentPage == 1 && e in ValidationErrors(s) && e != NameMissing
    ensures exists i :: 0 <= i < SubjectCount && e == IndexMessage(BadScore, i) && SubjectRejected(s.form.subjects[i])
  {
    assert ValidationErrors(s) == PageOneErrors(s.form.name, s.form.subjects);
  }

  // ---------------------------------------------------------------------------
  // Page window and aggregate
  // ---------------------------------------------------------------------------

  /** `getCurrentPageAnswers`: name and subjects on page 1, the page's ten
      slots on pages 2–5, the final answers otherwise. */
  function CurrentPageAnswers(s: FormState): (r: seq<string>)
    requires Wf(s)
    ensures |r| == PageLength(s.currentPage)
    ensures s.currentPage == 1 ==> r[0] == s.form.name && r[1..] == s.form.subjects
    ensures s.currentPage > 1 ==> r == CheckedAnswers(s)
  {
    if s.currentPage == 1 then [s.form.name] + s.form.subjects
    else if 2 <= s.currentPage <= 5 then
      var start := WindowStart(s.currentPage);
      s.form.yesNoAnswers[start..start + PageSize]
    else s.form.finalAnswers
  }

  function PageLength(p: int): nat {
    if p == 1 then 1 + SubjectCount else if p == 6 then FinalCount else PageSize
  }

  /** Where page `p`'s answers sit in the 49-value aggregate. */
  function PageOffset(p: int): int {
    if p == 1 then 0 else if p == 6 then 1 + SubjectCount + YesNoCount else 1 + SubjectCount + WindowStart(p)
  }

  const AggregateLength: nat := 1 + SubjectCount + YesNoCount + FinalCount

  /** `getAllAnswers`: name, subjects, yes/no answers, final answers. */
  function AllAnswers(f: FormData): (r: seq<string>)
    requires Shaped(f)
    ensures |r| == AggregateLength == 49
  {
    [f.name] + f.subjects + f.yesNoAnswers + f.finalAnswers
  }

  /** Reads the record back from an aggregate. */
  function FromAggregate(all: seq<string>): FormData
    requires |all| == AggregateLength
  {
    FormData(all[0], all[1..6], all[6..46], all[46..])
  }

  /** The aggregate loses nothing: the record can be read back from it. */
  lemma AggregateRoundTrip(f: FormData)
    requires Shaped(f)
    ensures FromAggregate(AllAnswers(f)) == f
    ensures Shaped(FromAggregate(AllAnswers(f)))
  {
    var all := AllAnswers(f);
    assert all[1..6] == f.subjects;
    assert all[6..46] == f.yesNoAnswers;
    assert all[46..] == f.finalAnswers;
  }

  /** The window a page submits is exactly its part of the aggregate. */
  lemma WindowInAggregate(s: FormState)
    requires Wf(s)
    ensures 0 <= PageOffset(s.currentPage)
      && PageOffset(s.currentPage) + PageLength(s.currentPage) <= AggregateLength
    ensures CurrentPageAnswers(s)
      == AllAnswers(s.form)[PageOffset(s.currentPage)..PageOffset(s.currentPage) + PageLength(s.currentPage)]
  {
    var all := AllAnswers(s.form);
    var p := s.currentPage;
    if p == 1 {
      assert all[..6] == [s.form.name] + s.form.subjects;
    } else if p == 6 {
      assert all[46..49] == s.form.finalAnswers;
    } else {
      assert all[6..46] == s.form.yesNoAnswers;
      assert all[PageOffset(p)..PageOffset(p) + PageSize] == all[6..46][WindowStart(p)..WindowStart(p) + PageSize];
    }
  }

  // ---------------------------------------------------------------------------
  // Input handlers
  // ---------------------------------------------------------------------------

  function ChangeName(s: FormState, value: string): (t: FormState)
    ensures t.form == s.form.(name := value)
    ensures t == s.(form := t.form)
  {
    s.(form := s.form.(name := value))
  }

  /** The score input of subject `i` stores the text typed. */
  function SetSubject(s: FormState, i: nat, value: string): (t: FormState)
    requires Wf(s) && i < SubjectCount
    ensures Wf(t)
    ensures t.form.subjects[i] == value
    ensures forall k :: 0 <= k < SubjectCount && k != i ==> t.form.subjects[k] == s.form.subjects[k]
    ensures t == s.(form := s.form.(subjects := t.form.subjects))
  {
    s.(form := s.form.(subjects := s.form.subjects[i := value]))
  }

  /** The slot the radio group of item `i` writes: `finalAnswers[i]` on page
      6, `yesNoAnswers[(p-2)*10 + i]` on pages 2–5. */
  predicate RadioInRange(s: FormState, i: nat) {
    if s.currentPage == 6 then i < FinalCount
    else 2 <= s.currentPage <= 5 && WindowStart(s.currentPage) + i < YesNoCount
  }

  function SetRadio(s: FormState, i: nat, value: string): (t: FormState)
    requires Wf(s) && RadioInRange(s, i)
    ensures Wf(t)
    ensures s.currentPage == 6 ==>
      && t.form.finalAnswers[i] == value
      && (forall k :: 0 <= k < FinalCount && k != i ==> t.form.finalAnswers[k] == s.form.finalAnswers[k])
      && t == s.(form := s.form.(finalAnswers := t.form.finalAnswers))
    ensures s.currentPage < 6 ==>
      && t.form.yesNoAnswers[WindowStart(s.currentPage) + i] == value
      && (forall k :: 0 <= k < YesNoCount && k != WindowStart(s.currentPage) + i ==>
           t.form.yesNoAnswers[k] == s.form.yesNoAnswers[k])
      && t == s.(form := s.form.(yesNoAnswers := t.form.yesNoAnswers))
  {
    if s.currentPage == 6 then
      s.(form := s.form.(finalAnswers := s.form.finalAnswers[i := value]))
    else
      s.(form := s.form.(yesNoAnswers := s.form.yesNoAnswers[WindowStart(s.currentPage) + i := value]))
  }

  // ---------------------------------------------------------------------------
  // Questions fetch
  // ---------------------------------------------------------------------------

  /** The fetch the page issues whenever the page or the name changes; page
      6 always carries `user_name`, even when the name is empty. */
  function QuestionsRequest(s: FormState): (r: Request)
    ensures r.GetSurveyPage? && r.page == s.currentPage
    ensures r.userQuery.Some? <==> s.currentPage == 6
    ensures r.userQuery.Some? ==> r.userQuery.value == s.form.name
  {
    GetSurveyPage(s.currentPage, if s.currentPage == 6 then Some(s.form.name) else None)
  }

  /** How the questions fetch ends. `response.ok` is never checked, so a
      JSON body is stored whatever the status: one with a `questions` list,
      or one without it (every error body of the service is `{detail}`),
      which stores `undefined`. An exception only shows a toast. */
  datatype FetchedQuestions = Listed(list: seq<Question>) | Unlisted | FetchFailed

  function QuestionsLoaded(s: FormState, reply: FetchedQuestions): (t: FormState)
    ensures !t.loading && t.form == s.form && t.currentPage == s.currentPage && t.errors == s.errors
    ensures reply.Listed? ==> t.questions == Some(reply.list)
    ensures reply.FetchFailed? ==> t.questions == s.questions
    // the questions become undefined exactly on a body without them
    ensures t.questions.None? <==> reply.Unlisted? || (reply.FetchFailed? && s.questions.None?)
    ensures reply.Unlisted? && t.currentPage > 1 ==> RenderThrows(t)
  {
    match reply
    case Listed(list) => s.(questions := Some(list), loading := false)
    case Unlisted => s.(questions := None, loading := false)
    case FetchFailed => s.(loading := false)
  }

  /** Pages 2–6 render `questions.map(...)` once loading ends, which throws
      when the questions are undefined. */
  predicate RenderThrows(s: FormState) {
    !s.loading && s.currentPage > 1 && s.questions.None?
  }

  // ---------------------------------------------------------------------------
  // Navigation
  // ---------------------------------------------------------------------------

  /** The effect of one press of the forward button. */
  datatype Step = Step(
    state: FormState,             // after the `finally` block
    requests: seq<Request>,       // in the order they are sent
    waiting: Option<FormState>,   // rendered while requests are in flight
    toast: Option<string>,
    home: bool)                   // `router.push('/')`

  /** `handleNext`, with the outcomes of the per-page submit and, on page 6,
      of the final submit. */
  function Next(s: FormState, pageReply: Reply, finalReply: Reply): (r: Step)
    requires Wf(s)
    ensures Wf(r.state) && r.state.form == s.form && r.state.questions == s.questions
    ensures r.state.errors == ValidationErrors(s)
    // nothing is sent unless the page validates
    ensures r.requests == [] <==> ValidationErrors(s) != []
    ensures r.requests != [] ==>
      r.requests[0] == SubmitSurveyPage(s.form.name, s.currentPage, Strs(CurrentPageAnswers(s)))
    // the final survey goes out only from page 6, after the page submit
    // succeeded, and carries no `dse_scores`
    ensures |r.requests| == 2 <==> s.currentPage == 6 && r.requests != [] && pageReply.Ok?
    ensures |r.requests| == 2 ==> r.requests[1] == SubmitSurvey(s.form.name, Strs(AllAnswers(s.form)), None)
    ensures |r.requests| <= 2
    // the page moves only forward, by one, after a successful page submit
    ensures r.state.currentPage ==
      if s.currentPage < 6 && r.requests != [] && pageReply.Ok? then s.currentPage + 1 else s.currentPage
    ensures r.home <==> |r.requests| == 2 && finalReply.Ok?
    ensures r.toast == (if r.requests == [] then None
      else if r.home then Some(SubmitSucceededToast)
      else if pageReply.Ok? && s.currentPage < 6 then None
      else Some(SubmitFailedToast))
    ensures r.waiting.Some? <==> r.requests != []
    ensures r.waiting.Some? ==> r.waiting.value.loading
    ensures r.requests != [] ==> !r.state.loading
    ensures r.requests == [] ==> r.state.loading == s.loading
  {
    var errs := ValidationErrors(s);
    var checked := s.(errors := errs);
    if errs != [] then Step(checked, [], None, None, false)
    else
      var waiting := checked.(loading := true);
      var done := checked.(loading := false);
      var pageRequest := SubmitSurveyPage(s.form.name, s.currentPage, Strs(CurrentPageAnswers(s)));
      if !pageReply.Ok? then Step(done, [pageRequest], Some(waiting), Some(SubmitFailedToast), false)
      else if s.currentPage < 6 then
        Step(done.(currentPage := s.currentPage + 1), [pageRequest], Some(waiting), None, false)
      else
        var finalRequest := SubmitSurvey(s.form.name, Strs(AllAnswers(s.form)), None);
        if finalReply.Ok? then Step(done, [pageRequest, finalRequest], Some(waiting), Some(SubmitSucceededToast), true)
        else Step(done, [pageRequest, finalRequest], Some(waiting), Some(SubmitFailedToast), false)
  }

  /** `handlePrevious`: one page back from pages 2–6; the record is never
      touched. */
  function Previous(s: FormState): (t: FormState)
    ensures t.form == s.form && t.errors == s.errors && t.loading == s.loading
    ensures t.currentPage == if s.currentPage > 1 then s.currentPage - 1 else s.currentPage
    ensures Wf(s) ==> Wf(t)
  {
    if s.currentPage > 1 then s.(currentPage := s.currentPage - 1) else s
  }

  // ---------------------------------------------------------------------------
  // Properties
  // ---------------------------------------------------------------------------

  /** The check itself accepts a subject score that is not a number, while
      the first wizard refuses it. Through the rendered page such text does
      not arrive: the score input has `type="number"`, whose value is the
      empty string for text that is not a valid number, and that is
      refused. */
  lemma NonNumericScoreAccepted()
    ensures !SubjectRejected("x")
    ensures StringToNumber("x") == NaN
  {
    TrimClean(Js, "x");
    XIsNoDecimal();
  }

  lemma XIsNoDecimal()
    ensures UnsignedDecimal(Lower("x")) == None
  {
    assert Lower("x") == "x";
    assert FirstIndexOf("x", 'e') == None;
    assert FirstIndexOf("x", '.') == None;
    assert !AllDigits("x") by { assert !IsDigit("x"[0]); }
  }

  /** A sequence of radio edits made on page 6. */
  function ApplyRadios(s: FormState, edits: seq<(nat, string)>): (t: FormState)
    requires Wf(s) && s.currentPage == 6
    requires forall k :: 0 <= k < |edits| ==> edits[k].0 < FinalCount
    ensures Wf(t) && t.currentPage == 6 && t.questions == s.questions
    decreases |edits|
  {
    if edits == [] then s
    else ApplyRadios(SetRadio(s, edits[0].0, edits[0].1), edits[1..])
  }

  /** With fewer than three industry questions on page 6 the third final
      answer has no radio group; if it is still empty, no amount of
      answering lets page 6 validate. */
  lemma {:induction false} FewIndustriesNeverValidate(s: FormState, edits: seq<(nat, string)>)
    requires Wf(s) && s.currentPage == 6 && s.questions.Some? && |s.questions.value| < FinalCount
    requires s.form.finalAnswers[FinalCount - 1] == ""
    requires forall k :: 0 <= k < |edits| ==> edits[k].0 < |s.questions.value|
    ensures ValidationErrors(ApplyRadios(s, edits)) != []
    decreases |edits|
  {
    if edits == [] {
      assert CheckedAnswers(s)[FinalCount - 1] == "";
    } else {
      var next := SetRadio(s, edits[0].0, edits[0].1);
      assert next.form.finalAnswers[FinalCount - 1] == "";
      FewIndustriesNeverValidate(next, edits[1..]);
    }
  }
}
