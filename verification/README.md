# Holland-code career survey: a Dafny model

This project models the decision logic of a career-guidance web application.
A student answers a six-page questionnaire: a name and five DSE subject
scores on page 1, forty yes/no questions on pages 2–5, and a few industry
questions on page 6. A FastAPI service scores the answers into a RIASEC
Holland code and matches that code to industries. A React front end then
shows career paths and a chat page.

The model covers these parts:

- **The two questionnaire wizards.**
  - The six-page wizard of `src/pages/Survey.tsx` is `SurveyWizard`.
  - The fixed-shape form wizard of `src/app/survey/page.tsx` is `FormWizard`.
- **The service's survey endpoints in `main.py`.** This covers:
  - question hand-out with used-question bookkeeping;
  - positional answer storage;
  - the page-6 ranking (`Ranking`, `HollandCode`, `Permutations`);
  - the final scoring and industry matching (`Industries`);
  - the parser for `//`-separated career-path text (`CareerText`).
- **The gates and pagers around the survey.** These are the application shell (`AppShell`), the results page (`ResultsView`) and the chat page (`ChatView`).
- **Shared modules.**
  - `Common` holds JavaScript `trim` and Python `strip`, ASCII lower-casing, decimal rendering and `split`/`join`/`replace`.
  - `JsValues` holds JavaScript's `Number(string)` and number-to-string conversion.
  - `Protocol` holds the requests, the replies and the `localStorage` keys.
- **Cross-component lemmas (`Flows`).** These connect the pieces: for example, a successful final submit opens every later gate, the form wizard's final request is always rejected by the service, and the form wizard's fetch for pages 2–5 is always refused, so those pages never render.

The model is built as follows:

- Every event handler is a pure step function over a snapshot of the component state.
- React's `setState` writes become visible only after the handler returns. Payloads that read state inside the handler therefore see the values from before the handler ran, exactly as in the source.
- Network replies are parameters of the step. So are the question pool, the industry mapping and the random question pick.
- `localStorage` is a `map<string, string>`.
- Each handler returns three things: the state after it finishes, the request it sent, and the state shown while that request is in flight.

## Model

| member | source | states |
|---|---|---|
| HollandCode.GenerateCodes | main.py:62-80 | Every code is three letters and starts with a top-ranked letter. Every letter comes from one of the three groups. With a single top letter, the second letter comes from the second group. With two top letters, the code ends with the first second-group letter. |
| HollandCode.CodesRoundTrip | main.py:62-80 | Splitting the joined `' / '` string gives back exactly the generated codes. The stored primary code is the first of them and has three letters. |
| HollandCode.AllTriplesWhenThreeTied | main.py:67-68 | With n ≥ 3 distinct tied maxima, there are n·(n−1)·(n−2) codes. A string is among them exactly when it is an ordered triple of distinct top letters. |
| HollandCode.TwoTiedRepeatLetter | main.py:64-65 | With two tied maxima that are also the second group, both codes repeat a letter, e.g. `ABA` and `BAA`. |
| Permutations.ArrangementsCount | main.py:65-75 | `itertools.permutations(xs, r)` yields `Falling(|xs|, r)` arrangements. |
| Permutations.ArrangementShape | main.py:65-75 | Every arrangement has length r and takes its letters from the input. Distinct inputs give arrangements without repeats. |
| Permutations.ArrangementComplete | main.py:65-75 | Every repeat-free length-r string over distinct inputs is one of the arrangements. This is the converse of ArrangementShape. |
| Permutations.FirstArrangement | main.py:65-75 | The first arrangement is the input's own prefix of length r. |
| Ranking.LetterOf | main.py:158-160 | A category maps to a letter exactly when it is one of R, I, A, S, E, C. |
| Ranking.YesPositions | main.py:156-157 | The yes positions are exactly the indices of the case-insensitive "yes" answers, in increasing order, one per "yes". |
| Ranking.PageSixHits | main.py:154-160 | The counting raises an error exactly when some "yes" answer meets an empty pool or a non-RIASEC category at position `i % len(pool)`. Otherwise it yields one RIASEC letter per "yes": the k-th hit is the category of the pool question at the k-th yes position modulo the pool size. |
| Ranking.PageSixHitsCount | main.py:154-160 | When the counting completes, a letter's hits are exactly the "yes" answers at positions i whose question `i % len(pool)` has that category. |
| Ranking.CountedPositions | main.py:249-252 | The counted positions are exactly the "yes" answers whose offset has a pool question with a RIASEC category, in increasing order. |
| Ranking.SubmitHits | main.py:249-253 | Only "yes" answers count. Each contributes at most one RIASEC letter. When every pool category is a letter and the answers fit in the pool, every "yes" counts. The k-th hit is the category of the pool question at the k-th counted offset. |
| Ranking.SubmitHitsCount | main.py:249-253 | A RIASEC letter's hits are exactly the "yes" answers at offsets i below the pool size whose question i has that category. |
| Ranking.TalliesAddUp | main.py:154-160 | Over distinct letters that cover every hit, the tallies add up to the number of hits. |
| Ranking.Sort | main.py:163-167 | The result is ordered by count, with ties broken by the chosen direction, and is a permutation of the input. |
| Ranking.SortedUnique | main.py:163-167 | Two orderings of the same tallies that are both sorted are equal, so the order does not depend on how it is reached. |
| Ranking.Group | main.py:175-177 | The group for a count holds exactly the letters whose tally equals that count. |
| Ranking.GroupDescending | main.py:163-177 | In the page-6 order a group of distinct letters runs reverse-alphabetically, because equal counts are ordered by letter, highest first. |
| Ranking.PageSixGroupsDescending | main.py:163-180 | Each of the three groups handed to `generate_code` lists its letters reverse-alphabetically, which fixes which letter the code takes first. |
| Ranking.PageSixGroups | main.py:170-177 | The three groups taken from the sorted tallies always satisfy what `generate_code` indexes. |
| Ranking.TopGroupIsMaximal | main.py:170-175 | A letter is in the top group exactly when its tally is a maximum. |
| Ranking.PageSixCodeSplits | main.py:179-183 | The page-6 code string splits back into the generated codes. Its primary code has three letters. |
| Ranking.TwoTiedAtTop | main.py:163-177 | When exactly two letters tie for the maximum, the reverse-alphabetical order puts the larger first. The second group equals the top group, and both codes repeat the first letter. |
| Ranking.TopThreeOfAnySort | main.py:256-262 | The code is the letters of the first three tallies of any sorted arrangement, so it does not depend on how the sort is carried out. |
| Ranking.TopThreeRanked | main.py:256-262 | The code has three distinct letters, each taken from the tallies, in ranking order: each ranks above the next by a higher count, or an equal count and an earlier letter. Every letter left out is behind each chosen one. |
| Industries.IndustriesForCode | main.py:187-192 | An industry matches a code exactly when some mapping entry has an industry and lists that code. |
| Industries.PageSixIndustries | main.py:187-192 | An industry is in the page-6 set exactly when some generated code matches it. |
| Industries.ListOf | main.py:194 | Turning the set into a list keeps exactly its members, once each. |
| Industries.AnyLetterPass | main.py:264-268 | An industry is listed exactly when its entry lists some letter of the code. |
| Industries.SubmitIndustries | main.py:264-280 | The result is never empty. It is the any-letter list when that is non-empty and `["General"]` otherwise. |
| Industries.FallbackAddsNothing | main.py:270-275 | The first-letter fallback only finds industries the any-letter pass already found. So it finds none when that pass found none. |
| SurveyApi.AvailablePositions | main.py:110-115 | The available positions are exactly the unused pool indices, in increasing order. |
| SurveyApi.SamplePage | main.py:100-139 | When fewer than ten questions are unused, the page is refused with 400. The user's record is created empty when it was missing, and its used set is unchanged. Otherwise it hands out ten distinct unused questions and adds exactly those to the used set. Only this user's record changes. |
| SurveyApi.HandOutGrowsUsed | main.py:123-128 | Handing out ten fresh distinct indices grows the used set by exactly ten. |
| SurveyApi.PageSixTallies | main.py:153-160 | The counting fails exactly when some "yes" answer raises. Otherwise the tallies cover the six letters in dict order, each counts the "yes" answers whose question `i % len(pool)` has that letter, and they add up to the number of "yes" answers. |
| SurveyApi.PageSix | main.py:153-204 | Page 6 stores the primary code, the industries and all codes, then returns one question per matching industry. It raises 500 when counting fails. |
| SurveyApi.GetSurveyPage | main.py:82-207 | Page 1 is fixed. Pages outside 1–6 are refused. Pages 2–6 need a user name. Page 6 reports an unknown user and then an empty answer list, in that order. Only the pages 2–5 refusal for too few questions changes the store, by creating the user's empty record. Every other error path leaves the store as it was. |
| SurveyApi.SliceAssign | main.py:222-223 | A Python slice assignment keeps the elements before and after the slice and puts the new ones in between. When the list ends inside the slice, the new elements replace its tail. Past the end, it appends. |
| SurveyApi.SubmitSurveyPage | main.py:209-230 | Only this user's record is created or changed. Page 1 is refused unless exactly six answers are given. Pages 2–5 replace the ten-slot window of their page; a list that ends inside the window loses its tail to the new answers, and a shorter one gets them appended. Page 6 replaces the final answers. |
| SurveyApi.InOrderFill | main.py:220-223 | Submitting pages 2–5 in order fills the answer list with the four pages concatenated. |
| SurveyApi.ResubmitIdempotent | main.py:220-223 | Resubmitting the same page with the same ten answers changes nothing. |
| SurveyApi.OutOfOrderLandsAtEnd | main.py:220-223 | A page submitted before the earlier pages lands at the end of the list, not at its own window. |
| SurveyApi.SubmitTallies | main.py:243-253 | The submit tallies cover the six distinct letters in dict order. Each counts the "yes" answers after the first six values whose offset has a pool question of that letter. |
| SurveyApi.SubmitSurvey | main.py:235-281 | A request without `dse_scores` is rejected as a missing field. An empty name is refused with 400. Otherwise the result holds the three-letter ranked code and a non-empty industry list. |
| SurveyApi.SubmittedCodeRanked | main.py:243-262 | Every accepted submission yields three distinct RIASEC letters, in order of their vote counts with ties broken alphabetically. Every RIASEC letter left out has fewer votes than each chosen one, or as many and a later letter. |
| CareerText.LineField | main.py:389-400 | A line is filed under the first label it contains, in the order Job Title, Description, Required Skills, Education, Career Progression. With no label, it is not filed. |
| CareerText.LineFieldIsFirst | main.py:389-400 | A line is filed under f exactly when it contains f's label and no earlier label. |
| CareerText.ParseLinesKeys | main.py:388-400 | A parsed record has a field exactly when some line was filed under it. |
| CareerText.ParseLinesLastWins | main.py:388-400 | When a field is filed twice, the last line filed under it wins. |
| CareerText.Kept | main.py:386-402 | A segment gives a record exactly when it is not blank and its record is not empty. |
| CareerText.ParsePathsMembers | main.py:381-402 | The records are exactly the non-empty records of the non-blank segments. |
| CareerText.GenerateCareerPaths | main.py:381-407 | The records returned are exactly the non-empty parses of the non-blank segments between `//` separators of the reply, and `total_paths` equals their number. |
| CareerText.RenderRoundTrip | main.py:381-407 | Rendering clean records into `//`-separated labelled lines and parsing them gives back the same records and their count. |
| CareerText.SegmentRoundTrip | main.py:386-402 | One rendered record parses back to itself. |
| CareerText.LineRoundTrip | main.py:390-400 | A rendered `Label: text` line is filed under its own field and gives back its text. |
| CareerText.OnlyOwnLabel | main.py:391-400 | A rendered line contains no other field's label. |
| SurveyWizard.EnterPage | src/pages/Survey.tsx:36-95 | Entering page 1 gives six blank answer slots and no request. Entering a later page starts loading and asks for that page's questions, sending the user name only when it is not empty. |
| SurveyWizard.QuestionsLoaded | src/pages/Survey.tsx:72-90 | A question list resets the answer buffer to one blank per question. A failure keeps the state and shows the error. Either way loading ends. |
| SurveyWizard.ChangeName | src/pages/Survey.tsx:99-102 | Typing sets the name and clears the error. Nothing else changes. |
| SurveyWizard.SelectAnswer | src/pages/Survey.tsx:105-116 | Only the chosen slot changes. On page 1, from slot 1 on, the slot holds `Number(answer)`. The error is cleared. |
| SurveyWizard.EveryFromMeansAll | src/pages/Survey.tsx:149-152 | `Array.prototype.every` holds exactly when the test holds for every slot. |
| SurveyWizard.ScoresValidMeansAccepted | src/pages/Survey.tsx:149-152 | The page-1 score check holds exactly when every slot after the name is non-empty with `Number` in [1, 7]. |
| SurveyWizard.AnsweredFrom | src/pages/Survey.tsx:178 | The answered check holds exactly when no slot is the empty string. |
| SurveyWizard.PageOneSubmit | src/pages/Survey.tsx:142-175 | Page 1 sends a request exactly when the trimmed name is non-empty and every score is accepted. Otherwise it shows the name or score error. When accepted, it records the name and scores and then sends them. |
| SurveyWizard.FinishSurvey | src/pages/Survey.tsx:213-260 | The final submit sends the survey request and appends the lower-cased page-6 answers. On success it stores the name and completion flag and goes to `/results`. On failure both keys are removed. |
| SurveyWizard.PageSubmit | src/pages/Survey.tsx:136-273 | A request is sent exactly when the page validates. The page moves forward by one exactly on a successful submit of pages 1–5, which empties the buffer. Pages 2–6 append their lower-cased answers whatever the reply. Navigation is hidden while the request is in flight. Only page 6 touches `localStorage`: it stores the keys on success and clears them on any refusal or failure. |
| SurveyWizard.Back | src/pages/Survey.tsx:360-363 | Back exists only when navigation is shown on a page after the first. It decrements the page and nothing else. |
| SurveyWizard.FinalPayloadRepeatsPageSix | src/pages/Survey.tsx:119-133 | The final `answers` are the page-1 part, then the `yesNoAnswers` from before the handler, then the lower-cased page-6 answers twice. `dse_scores` is the page-1 part without the name. |
| SurveyWizard.StraightRunSendsFiftyTwo | src/pages/Survey.tsx:228-245 | After a straight run (6 + 40 answers and 3 on page 6), the final request carries 52 answers and 5 scores. |
| SurveyWizard.RetryAfterFailureAppendsTwice | src/pages/Survey.tsx:182-200 | A failed submit of pages 2–5 keeps the page. Retrying appends the same answers a second time. |
| SurveyWizard.YesNoAnswersOnlyGrow | src/pages/Survey.tsx:182-184 | Submitting, entering a page and going back never remove anything from `yesNoAnswers`. |
| FormWizard.Initial | src/app/survey/page.tsx:38-43 | The form starts on page 1 with an empty name, five empty subjects, forty empty yes/no slots and three empty finals. |
| FormWizard.Flagged | src/app/survey/page.tsx:69-90 | One message per flagged index, each naming that index, no duplicates. |
| FormWizard.PageOneErrors | src/app/survey/page.tsx:71-80 | There is a name error exactly when the trimmed name is empty. There is a score error for subject i exactly when it is empty or its `Number` is below 1 or above 7. |
| FormWizard.ValidationErrors | src/app/survey/page.tsx:68-94 | Page 1 reports name and score errors. Pages 2–6 report one error per empty slot of the checked window. There are no duplicates. |
| FormWizard.ValidExactlyWhenComplete | src/app/survey/page.tsx:92-93 | The page validates exactly when the name is non-blank with every score accepted (page 1), or every checked slot is filled (later pages). |
| FormWizard.CheckedAnswers | src/app/survey/page.tsx:81-84 | Pages 2–5 check exactly the ten slots `(p-2)*10 ..` of the yes/no answers. Page 6 checks the three finals. |
| FormWizard.CurrentPageAnswers | src/app/survey/page.tsx:166-175 | Page 1 gives the name and the subjects. Later pages give their checked window. |
| FormWizard.AllAnswers | src/app/survey/page.tsx:178-185 | The aggregate of the fixed-shape record has 49 items. |
| FormWizard.AggregateRoundTrip | src/app/survey/page.tsx:178-185 | The aggregate is name, subjects, yes/no, finals in that order: cutting it back up gives the form. |
| FormWizard.WindowInAggregate | src/app/survey/page.tsx:166-185 | Each page's answers are a contiguous slice of the aggregate at that page's offset. |
| FormWizard.SetSubject | src/app/survey/page.tsx:211-215 | A subject edit writes only that subject and keeps every length. |
| FormWizard.SetRadio | src/app/survey/page.tsx:235-244 | A radio edit writes only `yesNoAnswers[(p-2)*10+i]`, or `finalAnswers[i]` on page 6, and keeps every length. |
| FormWizard.QuestionsRequest | src/app/survey/page.tsx:46-50 | The fetch asks for the current page and carries `user_name` exactly on page 6, even when the name is empty. |
| FormWizard.QuestionsLoaded | src/app/survey/page.tsx:46-65 | Loading ends and the form is kept. A body with a list installs it. A body without `questions` leaves them undefined, and the next render throws. An exception keeps the old questions. |
| FormWizard.Next | src/app/survey/page.tsx:97-156 | Nothing is sent unless the page validates. A failed page submit keeps the page. Success on p < 6 gives p + 1. On page 6 the final survey goes out only after the page submit succeeded, and without `dse_scores`. The toast and the redirect home follow the replies. |
| FormWizard.Previous | src/app/survey/page.tsx:159-163 | Previous decrements only after page 1 and never touches the form. |
| FormWizard.NonNumericScoreAccepted | src/app/survey/page.tsx:75-78 | The page-1 check lets a non-numeric score such as `x` pass, because `NaN` compares false both ways. The `type="number"` input never hands such text over. |
| FormWizard.FewIndustriesNeverValidate | src/app/survey/page.tsx:81-90 | With fewer than three industry questions, no sequence of radio edits makes page 6 validate. |
| AppShell.CheckResultsAccess | src/App.tsx:52-57 | Access holds exactly when the stored name is non-empty and the completion flag is exactly `'true'`. |
| AppShell.StartSurvey | src/App.tsx:46-50 | Starting shows the survey and removes both keys, leaving every other key. The access check then fails. |
| AppShell.Route | src/App.tsx:62-82 | `/` redirects to `/survey` once the survey is started. `/results` shows the results page exactly when the access check passes, and otherwise redirects to `/`. |
| AppShell.ResultsRouteDependsOnlyOnAccessKeys | src/App.tsx:73-82 | Stores that agree on the two access keys route `/results` the same way. |
| ResultsView.AccessEffect | src/pages/Results.tsx:76-87 | The page leaves for `/` exactly when the name or the completion flag is missing or empty. Otherwise it adopts the stored name. |
| ResultsView.NextPath | src/pages/Results.tsx:164-168 | Next increments only while the index is before the last path, so the index stays in range. |
| ResultsView.PreviousPath | src/pages/Results.tsx:170-174 | Previous decrements only while the index is positive, so the index stays in range. |
| ResultsView.NextThenPrevious | src/pages/Results.tsx:164-174 | Next then previous returns to the same state whenever next could move. |
| ResultsView.NextJupas | src/pages/Results.tsx:176-180 | With no JUPAS data this is a no-op. Otherwise it increments only before the last recommendation. |
| ResultsView.PreviousJupas | src/pages/Results.tsx:182-186 | Previous decrements only while the index is positive. |
| ResultsView.CareerViewChange | src/pages/Results.tsx:154-162 | The index resets to 0. Traditional restores the traditional list. Emerging replaces the shown list only when the emerging list is non-empty. |
| ResultsView.InterestReplied | src/pages/Results.tsx:283-300 | An array reply replaces both lists, resets the index and hides the form. Any other reply keeps the records and sets the reply's error. Both flags are cleared in every case. |
| ResultsView.InterestSubmit | src/pages/Results.tsx:254-301 | This is a no-op while a submit is in flight. A blank trimmed word sets an error and sends nothing. Otherwise exactly one request with the trimmed words goes out. |
| ResultsView.NoDoubleSubmit | src/pages/Results.tsx:255-265 | A second press while the first request is in flight sends nothing. |
| ResultsView.InterestFormSubmit | src/pages/Results.tsx:203-206 | The form's submit stores its local words, but the guard reads the words from before the press. |
| ResultsView.ReenterInterests | src/pages/Results.tsx:525-528 | Re-entering resets the words to three empty strings and shows the form. |
| ResultsView.FirstPressAfterReenterRefused | src/pages/Results.tsx:203-261 | Right after re-entering, the first press is refused even with every local word filled. The second press sends them. |
| ResultsView.RunKeepsIndicesInRange | src/pages/Results.tsx:154-186 | Any sequence of pager, view and interest events keeps both indices in range. |
| ChatView.Mount | src/pages/Chat.tsx:30-38 | Without a non-empty stored name the page leaves for `/`. Otherwise it adopts the name. |
| ChatView.PresetQuestion | src/pages/Chat.tsx:23-28 | No preset question is blank. |
| ChatView.BotMessage | src/pages/Chat.tsx:71-81 | The bot message is the reply's text when there is one, and the fixed apology on any failure. |
| ChatView.Send | src/pages/Chat.tsx:44-85 | A blank message, or any send while loading, changes nothing. Otherwise one request goes out with the preset number plus one, or null. The user message is appended at once and the input cleared. Exactly one bot message follows, and loading ends. |
| ChatView.SendPreset | src/pages/Chat.tsx:105-110 | A preset button sends whenever no send is in flight, with `preset_question = i + 1`. |
| ChatView.SendTyped | src/pages/Chat.tsx:149-155 | The send button and Enter send the typed text with no preset. |
| ChatView.ConverseAlternates | src/pages/Chat.tsx:44-85 | Over any run of sends the log keeps alternating user/bot and keeps every earlier message, and the page ends idle. |
| Flows.FinishedSurveyOpensResults | src/pages/Survey.tsx:224-253 | A successful final submit opens the shell's `/results` route, the results page and the chat page. |
| Flows.FailedFinishKeepsResultsClosed | src/pages/Survey.tsx:255-268 | A refused or failed page-6 press leaves `/results` closed. |
| Flows.ShellGateImpliesResultsGate | src/App.tsx:52-57 | Whatever the shell lets through, the results page lets through too. |
| Flows.ResultsGateAcceptsAnyCompletion | src/pages/Results.tsx:76-87 | The converse fails: a flag of `'false'` is refused by the shell but accepted by the results page. |
| Flows.SixPageFinalRequestScored | src/pages/Survey.tsx:237-245 | The six-page wizard's final request always carries scores, so the service accepts it when the name is not empty. |
| Flows.FormFinalRequestRejected | src/app/survey/page.tsx:126-135 | The form wizard's final request lacks `dse_scores`, so the service always rejects it. |
| Flows.FormReads | src/app/survey/page.tsx:50-52 | The form wizard stores the service's question list on success and an undefined list on every error, since it never checks the status. |
| Flows.FormYesNoPageFetch | src/app/survey/page.tsx:46-65 | On pages 2–5 the form wizard asks without `user_name`, the service refuses with 400, and the page's render then throws. |
| Common.Trim | src/pages/Survey.tsx:144 | Trimming gives the infix of the input that starts and ends with non-white space. Everything removed before and after it is white space of the runtime: JavaScript `trim` or Python `strip`. |
| Common.TrimEmptyIffAllSpace | src/pages/Chat.tsx:45 | A string trims to empty exactly when it is all white space. |
| JsValues.DecimalStringToNumber | src/pages/Survey.tsx:110 | `Number` of a rendered natural number is that number. |
| FormWizard.IndexMessageInjective | src/app/survey/page.tsx:75-89 | Messages for different item numbers are different, so each message names one item. |

## Left out

- Calls to OpenAI for career paths, emerging careers, personality analysis and chat replies: these are foreign calls. Only the parsing of career-path text is modelled.
- The career-path parser for emerging careers (main.py:688-706) is a copy of the one modelled, with `Growth Potential` in place of `Career Progression`. It is not modelled separately.
- Reading the YAML industry mapping and reading and writing `survey_responses.json`: this is file I/O. The pool and the mapping are parameters (`SurveyApi.Config`), and the stored record is not modelled.
- An empty `INDUSTRY_MAPPING` after a failed YAML load is just an empty mapping parameter.
- `get_survey_results`, `get_career_paths`, `get_emerging_careers`, `get_personality_analysis`, `get_jupas_recommendations` and the `/chat` endpoint are left out. They wrap foreign calls and floating-point score arithmetic (`find_closest_program`, averaging, `round`).
- The `/chat` endpoint's check of the preset number is left out: it is server-side validation outside the modelled pages.
- `random.sample`: `SurveyApi.SamplePage` makes a nondeterministic choice of ten distinct unused indices.
- Order of dictionaries and sets: `list(set)` is modelled as any duplicate-free listing of the set (`Industries.ListOf`).
- The fetch transport, `response.json`, and every `useEffect` fetch: each reply is an input of the step (ok, error with detail, thrown, malformed).
- The results page's data-loading effect is left out, so its pager invariant starts from the state the page mounts with.
- Rendering, CSS, toasts, `console.log`, `window.location` and `router.push`: these are recorded only as the location, toast or redirect a step reports.
- `src/services/api.ts` is not part of this model: it is a thin wrapper with no logic of its own. Neither is `src/app/page.tsx`, a static landing page.
- Concurrency and stale replies are left out: every handler is one atomic step over a snapshot.
- Pydantic coercion of request bodies is left out. Answers are JavaScript values, strings or numbers.
- JsValues.NumberToString: renders non-integral numbers approximately rather than with IEEE-754 shortest round-trip digits. Only integral values reach it in the modelled flows.
- JsValues.StringToNumber: works on exact reals, so IEEE-754 double rounding of very long literals is not modelled.
- Common.Lower: lower-cases ASCII letters only. Python `lower` and JavaScript `toLowerCase` also fold non-ASCII letters, which only matters for answers other than "yes"/"no".
- FormWizard.SetRadio: requires a page-6 item below 3. Page 6 renders one radio group per matching industry, with no upper bound, so with four or more industries an edit writes `finalAnswers[3]` or beyond. The array then grows, with holes when items are skipped. `forEach` skips holes during validation, and the holes are sent as `null`. The record here keeps exactly three final answers. Array holes are not modelled.
- FormWizard.AllAnswers: the 49 items hold for the fixed-shape record only. With more than three industries the aggregate sent has 46 items plus one per final answer written.
- SurveyWizard.SelectAnswer: requires the slot to exist. After a failed question fetch on a later page, the previous page's questions are rendered over the emptied answer buffer. A click there writes past the end of the buffer and leaves holes. `every` skips holes, and `map` carries them into the payloads. Array holes are not modelled.
- SurveyWizard.EnterPage: the request carries the raw name, but the page puts it into the query string without encoding it. A name with `+`, `&` or `#` reaches the service altered: `+` becomes a space, `&` cuts it short and `#` empties it. URL encoding is not modelled.
- FormWizard.QuestionsRequest: the same unencoded query string as in the six-page wizard, on page 6. URL encoding is not modelled.
- ResultsView.InterestReplied: a thrown value that is not an `Error` would show a fixed fallback message. Every failure the model produces is an `Error`.
- ResultsView.InterestFormSubmit: the interest form re-mounts and re-reads the parent's words on every parent render. The model keeps the local words as a parameter of the press.
- Protocol.FailureMessage: assumes an error reply's `detail` is a string. FastAPI's 422 `detail` is a list, which the front ends would show as text.
