/** How the pieces fit together: what the questionnaire leaves in
    `localStorage` decides what the shell, the results page and the chat
    page let through, and what each wizard's final request meets at the
    service's `/submit_survey`. */
module Flows {
  import opened Common
  import opened Protocol
  import SurveyWizard
  import FormWizard
  import SurveyApi
  import AppShell
  import ResultsView
  import ChatView

  /** A successful final submit of the six-page wizard opens every gate:
      the shell routes `/results` to the results page, the results page keeps
      the user and adopts the name, and so does the chat page. */
  lemma FinishedSurveyOpensResults(s: SurveyWizard.SurveyState, store: Storage, reply: Reply,
                                   shown: bool, results: ResultsView.ResultsState, chat: ChatView.ChatState)
    requires SurveyWizard.Wf(s) && s.currentPage == 6 && SurveyWizard.MayAdvance(s)
    requires reply.Ok? && s.name != ""
    ensures var after := SurveyWizard.PageSubmit(s, store, reply).storage;
      && AppShell.Route(AppShell.Shell(shown, after), AppShell.ResultsPath) == AppShell.ResultsPage
      && ResultsView.AccessEffect(results, after) == (results.(userName := s.name), false)
      && ChatView.Mount(chat, after) == (chat.(userName := s.name), false)
  {
  }

  /** A page-6 press that is refused or whose final submit fails leaves the
      results route closed, whatever was stored before. */
  lemma FailedFinishKeepsResultsClosed(s: SurveyWizard.SurveyState, store: Storage, reply: Reply, shown: bool)
    requires SurveyWizard.Wf(s) && s.currentPage == 6
    requires !SurveyWizard.MayAdvance(s) || !reply.Ok?
    ensures var after := SurveyWizard.PageSubmit(s, store, reply).storage;
      AppShell.Route(AppShell.Shell(shown, after), AppShell.ResultsPath) == AppShell.Redirect(AppShell.Landing)
  {
  }

  /** The shell's access check is the stricter of the two gates: whatever it
      lets through, the results page's own effect lets through too. */
  lemma ShellGateImpliesResultsGate(store: Storage, results: ResultsView.ResultsState)
    requires AppShell.CheckResultsAccess(store)
    ensures !ResultsView.AccessEffect(results, store).1
  {
  }

  /** The converse fails: a completion flag other than `'true'` is turned
      away by the shell but accepted by the results page's own effect. */
  lemma ResultsGateAcceptsAnyCompletion(results: ResultsView.ResultsState)
    ensures var store := map[UserNameKey := "a", CompletedKey := "false"];
      && !AppShell.CheckResultsAccess(store)
      && !ResultsView.AccessEffect(results, store).1
  {
    var store := map[UserNameKey := "a", CompletedKey := "false"];
    assert GetItem(store, CompletedKey) == Some("false");
  }

  /** The six-page wizard's final request always carries `dse_scores`, so
      the service scores it whenever the name is not empty. */
  lemma SixPageFinalRequestScored(cfg: SurveyApi.Config, s: SurveyWizard.SurveyState)
    requires s.name != ""
    ensures var q := SurveyWizard.FinalRequest(s);
      && q.SubmitSurvey?
      && SurveyApi.SubmitSurvey(cfg, q.userName, q.answers, q.dseScores).Ok?
  {
  }

  /** The form wizard's final request has no `dse_scores`, so the service
      always rejects it as missing that field. */
  lemma FormFinalRequestRejected(cfg: SurveyApi.Config, s: FormWizard.FormState, pageReply: Reply, finalReply: Reply)
    requires FormWizard.Wf(s)
    requires |FormWizard.Next(s, pageReply, finalReply).requests| == 2
    ensures var q := FormWizard.Next(s, pageReply, finalReply).requests[1];
      && q.SubmitSurvey?
      && SurveyApi.SubmitSurvey(cfg, q.userName, q.answers, q.dseScores)
           == Result.Err(SurveyApi.MissingField("dse_scores"))
  {
  }

  /** How the form wizard reads the service's reply to a questions fetch:
      the list on success, a body without `questions` on any error. */
  function FormReads(reply: Result<SurveyApi.PageReply, SurveyApi.ApiError>): (f: FormWizard.FetchedQuestions)
    ensures f.Unlisted? <==> reply.Err?
    ensures reply.Ok? ==> f == FormWizard.Listed(reply.value.questions)
  {
    match reply
    case Ok(page) => FormWizard.Listed(page.questions)
    case Err(_) => FormWizard.Unlisted
  }

  /** On pages 2–5 the form wizard asks for questions without `user_name`,
      the service refuses with 400, and the page's render then throws: the
      form wizard never shows a yes/no page. */
  method FormYesNoPageFetch(db: SurveyApi.Db, cfg: SurveyApi.Config, s: FormWizard.FormState)
    returns (request: Request, reply: Result<SurveyApi.PageReply, SurveyApi.ApiError>, t: FormWizard.FormState)
    requires FormWizard.Wf(s) && 2 <= s.currentPage <= 5
    ensures request == GetSurveyPage(s.currentPage, None)
    ensures reply == Result.Err(SurveyApi.HttpException(400, "User name is required for pages 2-5"))
    ensures FormWizard.RenderThrows(t) && t.form == s.form && t.currentPage == s.currentPage
  {
    request := FormWizard.QuestionsRequest(s);
    var db', picked;
    db', reply, picked := SurveyApi.GetSurveyPage(db, cfg, request.page, request.userQuery);
    t := FormWizard.QuestionsLoaded(s.(loading := true), FormReads(reply));
  }
}
