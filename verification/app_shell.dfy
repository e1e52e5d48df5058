/** The application shell of `src/App.tsx`: the landing page's start
    button, the results-access check and the four routes. The shell keeps one
    flag of its own (`showSurvey`) and reads `localStorage`. */
module AppShell {
  import opened Common
  import opened Protocol

  datatype Shell = Shell(showSurvey: bool, store: Storage)

  /** The routed paths. */
  datatype Path = Landing | SurveyPath | ResultsPath | ChatPath

  /** What a route shows: a page, or a replacing redirect. */
  datatype Screen = LandingPage | SurveyPage | ResultsPage | ChatPage | Redirect(to: Path)

  /** The shell as first rendered. */
  function Initial(store: Storage): (s: Shell)
    ensures !s.showSurvey && s.store == store
  {
    Shell(false, store)
  }

  /** `checkResultsAccess`: a truthy stored name and a completion flag of
      exactly `'true'`. */
  function CheckResultsAccess(store: Storage): (ok: bool)
    ensures ok <==> UserNameKey in store && store[UserNameKey] != ""
                    && CompletedKey in store && store[CompletedKey] == "true"
  {
    Truthy(GetItem(store, UserNameKey)) && GetItem(store, CompletedKey) == Some("true")
  }

  /** `handleStartSurvey`: show the survey and forget any earlier run. */
  function StartSurvey(s: Shell): (t: Shell)
    ensures t.showSurvey
    ensures !CheckResultsAccess(t.store)
    ensures UserNameKey !in t.store && CompletedKey !in t.store
    ensures forall k :: k in s.store && k != UserNameKey && k != CompletedKey ==> k in t.store && t.store[k] == s.store[k]
    ensures forall k :: k in t.store ==> k in s.store
  {
    Shell(true, ClearCompletion(s.store))
  }

  /** The element each route renders. */
  function Route(s: Shell, path: Path): (screen: Screen)
    ensures path == Landing ==> (screen == Redirect(SurveyPath) <==> s.showSurvey)
    ensures path == Landing && !s.showSurvey ==> screen == LandingPage
    ensures path == ResultsPath ==> (screen == ResultsPage <==> CheckResultsAccess(s.store))
    ensures path == ResultsPath && !CheckResultsAccess(s.store) ==> screen == Redirect(Landing)
    ensures path == SurveyPath ==> screen == SurveyPage
    ensures path == ChatPath ==> screen == ChatPage
  {
    match path
    case Landing => if s.showSurvey then Redirect(SurveyPath) else LandingPage
    case SurveyPath => SurveyPage
    case ResultsPath => if CheckResultsAccess(s.store) then ResultsPage else Redirect(Landing)
    case ChatPath => ChatPage
  }

  /** Right after the start button, `/results` sends the user back to `/`,
      and `/` in turn sends them on to `/survey`. */
  lemma StartedShellLeadsToSurvey(s: Shell)
    ensures Route(StartSurvey(s), ResultsPath) == Redirect(Landing)
    ensures Route(StartSurvey(s), Landing) == Redirect(SurveyPath)
  {
  }

  /** Only the two access keys matter to the results route: any store that
      agrees with another on those keys routes `/results` the same way. */
  lemma ResultsRouteDependsOnlyOnAccessKeys(s: Shell, t: Shell)
    requires GetItem(s.store, UserNameKey) == GetItem(t.store, UserNameKey)
    requires GetItem(s.store, CompletedKey) == GetItem(t.store, CompletedKey)
    ensures Route(s, ResultsPath) == Route(t, ResultsPath)
  {
  }
}
