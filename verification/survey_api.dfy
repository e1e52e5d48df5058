/** The survey endpoints of main.py over the in-memory `USER_RESPONSES`
    store: `get_survey_page`, `submit_survey_page` and `submit_survey`. The
    question pool and industry mapping (read from YAML at start-up) are a
    `Config` parameter; `random.sample` and the iteration order of a Python
    set are nondeterministic choices. */
module SurveyApi {
  import opened Common
  import opened JsValues
  import opened Protocol
  import opened HollandCode
  import opened Ranking
  import opened Industries

  /** What `USER_RESPONSES[user_name]` holds. A key that was never written
      reads as `None` (or, for `used_questions`, as the empty set that
      `.get('used_questions', set())` supplies). */
  datatype UserRecord = UserRecord(
    answers: seq<JsValue>,
    used: set<nat>,
    basicInfo: Option<seq<JsValue>>,
    finalAnswers: Option<seq<JsValue>>,
    hollandCode: Option<string>,
    matchingIndustries: Option<seq<string>>,
    allHollandCodes: Option<string>)

  /** `{'answers': []}` / `{'answers': [], 'used_questions': set()}`. */
  const FreshRecord: UserRecord := UserRecord([], {}, None, None, None, None, None)

  type Db = map<string, UserRecord>

  datatype Config = Config(pool: seq<PoolQuestion>, mapping: seq<IndustryEntry>)

  /** An error response: an `HTTPException` (an uncaught Python exception is
      a 500), or the 422 request validation reports for a missing field. */
  datatype ApiError = HttpException(status: int, detail: string) | MissingField(field: string)

  const ServerError: ApiError := HttpException(500, "Internal Server Error")

  /** Python truthiness of the optional `user_name` query parameter. */
  predicate Given(userName: Option<string>) {
    userName.Some? && userName.value != ""
  }

  /** The record of `userName`, created empty when missing. */
  function Record(db: Db, userName: string): UserRecord {
    if userName in db then db[userName] else FreshRecord
  }

  predicate NoRepeats(s: seq<nat>) {
    forall i, j :: 0 <= i < j < |s| ==> s[i] != s[j]
  }

  function ElementsOf(s: seq<nat>): (r: set<nat>)
    ensures forall x :: x in r <==> x in s
    ensures NoRepeats(s) ==> |r| == |s|
  {
    if s == [] then {}
    else
      var rest := ElementsOf(s[1..]);
      assert forall x :: x in s <==> x == s[0] || x in s[1..];
      assert NoRepeats(s) ==> NoRepeats(s[1..]) && s[0] !in rest;
      {s[0]} + rest
  }

  // ---------------------------------------------------------------------------
  // get_survey_page
  // ---------------------------------------------------------------------------

  /** The six page-1 questions, with their `type`. */
  const PageOneQuestions: seq<Question> := [
    Question("Please enter your name.", None, Some("text")),
    Question("DSE Chinese predicted score (1-7)", None, Some("score")),
    Question("DSE English predicted score (1-7)", None, Some("score")),
    Question("DSE Mathematics predicted score (1-7)", None, Some("score")),
    Question("DSE Elective 1 predicted score (1-7)", None, Some("score")),
    Question("DSE Elective 2 predicted score (1-7)", None, Some("score"))
  ]

  /** Questions handed out per page on pages 2–5. */
  const SampleSize: nat := 10

  /** The pool positions not yet handed out to this user. */
  function Available(poolSize: nat, used: set<nat>): set<nat> {
    set i: nat | i < poolSize && i !in used
  }

  /** `[(i, q) for i, q in enumerate(QUESTIONS_POOL) if i not in used]`,
      positions only, in pool order. */
  method AvailablePositions(poolSize: nat, used: set<nat>) returns (avail: seq<nat>)
    ensures forall i: nat :: i in avail <==> i < poolSize && i !in used
    ensures forall a, b :: 0 <= a < b < |avail| ==> avail[a] < avail[b]
    ensures |avail| == |Available(poolSize, used)|
  {
    avail := [];
    var i := 0;
    while i < poolSize
      invariant i <= poolSize
      invariant forall x: nat :: x in avail <==> x < i && x !in used
      invariant forall a, b :: 0 <= a < b < |avail| ==> avail[a] < avail[b]
      invariant forall a :: 0 <= a < |avail| ==> avail[a] < i
    {
      if i !in used {
        avail := avail + [i];
      }
      i := i + 1;
    }
    assert NoRepeats(avail);
    assert ElementsOf(avail) == Available(poolSize, used);
  }

  lemma DisjointUnionSize(a: set<nat>, b: set<nat>)
    requires a !! b
    ensures |a + b| == |a| + |b|
  {
  }

  datatype PageReply = PageReply(questions: seq<Question>, hollandCodes: Option<string>)

  /** The pool questions at the picked positions, with their categories. */
  function PickedQuestions(pool: seq<PoolQuestion>, picked: seq<nat>): (r: seq<Question>)
    requires forall k :: 0 <= k < |picked| ==> picked[k] < |pool|
    ensures |r| == |picked|
    ensures forall k :: 0 <= k < |picked| ==>
      r[k] == Question(pool[picked[k]].text, Some(pool[picked[k]].category), None)
  {
    seq(|picked|, k requires 0 <= k < |picked| => Question(pool[picked[k]].text, Some(pool[picked[k]].category), None))
  }

  /** One question per industry. */
  function IndustryQuestions(industries: seq<string>): (r: seq<Question>)
    ensures |r| == |industries|
    ensures forall k :: 0 <= k < |r| ==>
      r[k] == Question("Would you consider a career in " + industries[k] + "?", None, None)
  {
    seq(|industries|, k requires 0 <= k < |industries| =>
      Question("Would you consider a career in " + industries[k] + "?", None, None))
  }

  /** The counts page 6 ranks, or `None` when the counting loop raises. */
  function PageSixTallies(answers: seq<JsValue>, pool: seq<PoolQuestion>): (r: Option<seq<Tally>>)
    ensures r.None? <==> exists i :: 0 <= i < |answers| && RaisesAt(answers, pool, i)
    ensures r.Some? ==> |r.value| == 6 && TotalCount(r.value) == YesCount(answers)
    ensures r.Some? ==> forall k :: 0 <= k < 6 ==> r.value[k].letter == PageSixLetters[k]
    // each letter counts the yes answers whose question, at their position
    // modulo the pool, carries that letter
    ensures r.Some? ==> forall k :: 0 <= k < 6 ==>
      r.value[k].count == |PageSixVoters(answers, pool, PageSixLetters[k])|
  {
    match PageSixHits(answers, pool)
    case None => None
    case Some(hits) =>
      assert Permutations.Distinct(PageSixLetters);
      TalliesAddUp(PageSixLetters, hits);
      forall k | 0 <= k < 6
        ensures multiset(hits)[PageSixLetters[k]] == |PageSixVoters(answers, pool, PageSixLetters[k])|
      {
        PageSixHitsCount(answers, pool, PageSixLetters[k]);
      }
      Some(Tallies(PageSixLetters, hits))
  }

  /** What pages 2–5 leave behind for a named `user`: the record exists
      (created empty if it was missing), nothing else in the store moves,
      and either ten fresh pool positions are handed out and remembered or,
      with fewer than ten left, the request is refused and they stay as
      they were. */
  ghost predicate SampledPage(db: Db, cfg: Config, user: string, db': Db, reply: Result<PageReply, ApiError>, picked: seq<nat>) {
    var before := Record(db, user);
    && OnlyUserTouched(db, user, db')
    && db'[user] == before.(used := db'[user].used)
    && (reply.Err? <==> |Available(|cfg.pool|, before.used)| < SampleSize)
    && (reply.Err? ==> reply.error == HttpException(400, "Not enough unique questions remaining"))
    && (reply.Err? ==> db'[user].used == before.used)
    && (reply.Ok? ==>
          && HandedOut(before.used, |cfg.pool|, picked, db'[user].used)
          && reply.value == PageReply(PickedQuestions(cfg.pool, picked), None))
  }

  /** `db'` holds a record for `user` and agrees with `db` on every other
      user. */
  ghost predicate OnlyUserTouched(db: Db, user: string, db': Db) {
    && user in db'
    && db'.Keys == db.Keys + {user}
    && (forall u :: u in db && u != user ==> db'[u] == db[u])
  }

  /** `picked` is ten distinct pool positions none of which was used, and
      `after` is the used set with exactly those added. */
  predicate HandedOut(before: set<nat>, poolSize: nat, picked: seq<nat>, after: set<nat>) {
    && |picked| == SampleSize && NoRepeats(picked)
    && (forall k :: 0 <= k < |picked| ==> picked[k] < poolSize && picked[k] !in before)
    && after == before + ElementsOf(picked)
    && |after| == |before| + SampleSize
  }

  /** Pages 2–5 for a named user. `picked` is the random sample of pool
      positions. */
  method SamplePage(db: Db, cfg: Config, user: string)
    returns (db': Db, reply: Result<PageReply, ApiError>, picked: seq<nat>)
    ensures SampledPage(db, cfg, user, db', reply, picked)
  {
    picked := [];
    var record := Record(db, user);
    var avail := AvailablePositions(|cfg.pool|, record.used);
    if |avail| < SampleSize {
      db' := db[user := record];
      reply := Result.Err(HttpException(400, "Not enough unique questions remaining"));
      SampleRefused(db, cfg, user);
      return;
    }
    var first := avail[..SampleSize];
    assert NoRepeats(first);
    assert forall k :: 0 <= k < |first| ==> first[k] in avail;
    picked :| |picked| == SampleSize && NoRepeats(picked) && forall k :: 0 <= k < |picked| ==> picked[k] in avail;
    forall k | 0 <= k < |picked| ensures picked[k] < |cfg.pool| && picked[k] !in record.used {
      assert picked[k] in avail;
    }
    db' := db[user := record.(used := record.used + ElementsOf(picked))];
    reply := Result.Ok(PageReply(PickedQuestions(cfg.pool, picked), None));
    SampleHandedOut(db, cfg, user, picked);
  }

  /** The refusal branch of `SamplePage` meets `SampledPage`. */
  lemma SampleRefused(db: Db, cfg: Config, user: string)
    requires |Available(|cfg.pool|, Record(db, user).used)| < SampleSize
    ensures SampledPage(db, cfg, user, db[user := Record(db, user)],
                        Result.Err(HttpException(400, "Not enough unique questions remaining")), [])
  {
  }

  /** The success branch of `SamplePage` meets `SampledPage`. */
  lemma SampleHandedOut(db: Db, cfg: Config, user: string, picked: seq<nat>)
    requires |Available(|cfg.pool|, Record(db, user).used)| >= SampleSize
    requires |picked| == SampleSize && NoRepeats(picked)
    requires forall k :: 0 <= k < |picked| ==> picked[k] < |cfg.pool| && picked[k] !in Record(db, user).used
    ensures var record := Record(db, user);
      SampledPage(db, cfg, user, db[user := record.(used := record.used + ElementsOf(picked))],
                  Result.Ok(PageReply(PickedQuestions(cfg.pool, picked), None)), picked)
  {
    var record := Record(db, user);
    HandOutGrowsUsed(record.used, picked);
    assert HandedOut(record.used, |cfg.pool|, picked, record.used + ElementsOf(picked));
    StoreRecord(db, user, record.(used := record.used + ElementsOf(picked)));
  }

  /** Storing a record under `user` leaves every other user's record. */
  lemma StoreRecord(db: Db, user: string, record: UserRecord)
    ensures OnlyUserTouched(db, user, db[user := record])
  {
  }

  /** Handing out positions none of which was used grows the used set by
      exactly their number. */
  lemma HandOutGrowsUsed(used: set<nat>, picked: seq<nat>)
    requires NoRepeats(picked)
    requires forall k :: 0 <= k < |picked| ==> picked[k] !in used
    ensures |used + ElementsOf(picked)| == |used| + |picked|
  {
    var handedOut := ElementsOf(picked);
    assert used !! handedOut by {
      forall x | x in handedOut ensures x !in used {
        var k :| 0 <= k < |picked| && picked[k] == x;
      }
    }
    DisjointUnionSize(used, handedOut);
  }

  /** What page 6 leaves behind for a named `user` with stored answers:
      a 500 when counting fails, otherwise the Holland codes of the counts,
      the primary code and the matching industries stored, and one
      question per matching industry. */
  ghost predicate PageSixDone(db: Db, cfg: Config, user: string, db': Db, reply: Result<PageReply, ApiError>)
    requires user in db
  {
    var tallies := PageSixTallies(db[user].answers, cfg.pool);
    && (tallies.None? ==> db' == db && reply == Result.Err(ServerError))
    && (tallies.Some? ==>
          var code := PageSixCode(tallies.value);
          var industries := PageSixIndustries(Split(code, CodeSeparator), cfg.mapping);
          && reply.Ok?
          && reply.value.hollandCodes == Some(code)
          && user in db'
          && db'[user].matchingIndustries.Some?
          && db' == db[user := db[user].(
               hollandCode := Some(PrimaryCode(code)),
               matchingIndustries := db'[user].matchingIndustries,
               allHollandCodes := Some(code))]
          && |db'[user].matchingIndustries.value| == |industries|
          && (forall x :: x in db'[user].matchingIndustries.value <==> x in industries)
          && reply.value.questions == IndustryQuestions(db'[user].matchingIndustries.value))
  }

  /** Page 6 for a named user who has stored answers. */
  method PageSix(db: Db, cfg: Config, user: string) returns (db': Db, reply: Result<PageReply, ApiError>)
    requires user in db
    ensures PageSixDone(db, cfg, user, db', reply)
  {
    var tallies := PageSixTallies(db[user].answers, cfg.pool);
    if tallies.None? {
      db', reply := db, Result.Err(ServerError);
      return;
    }
    var code := PageSixCode(tallies.value);
    var industries := ListOf(PageSixIndustries(Split(code, CodeSeparator), cfg.mapping));
    db' := db[user := db[user].(
      hollandCode := Some(PrimaryCode(code)),
      matchingIndustries := Some(industries),
      allHollandCodes := Some(code))];
    reply := Result.Ok(PageReply(IndustryQuestions(industries), Some(code)));
  }

  /** `get_survey_page`. `db'` is the store afterwards; `picked` is the
      random sample of pool positions on pages 2–5. */
  method GetSurveyPage(db: Db, cfg: Config, page: int, userName: Option<string>)
    returns (db': Db, reply: Result<PageReply, ApiError>, picked: seq<nat>)
    // page 1 is fixed; pages outside 1..6 are refused; neither touches the store
    ensures page == 1 ==> db' == db && reply == Result.Ok(PageReply(PageOneQuestions, None))
    ensures (page < 1 || page > 6) ==> db' == db && reply == Result.Err(HttpException(400, "Invalid page number"))
    // pages 2–6 need a non-empty user name
    ensures 2 <= page <= 5 && !Given(userName) ==>
      db' == db && reply == Result.Err(HttpException(400, "User name is required for pages 2-5"))
    ensures page == 6 && !Given(userName) ==>
      db' == db && reply == Result.Err(HttpException(400, "User name is required for page 6"))
    ensures 2 <= page <= 5 && Given(userName) ==> SampledPage(db, cfg, userName.value, db', reply, picked)
    // page 6: the errors, in the order they are checked, then the codes
    ensures page == 6 && Given(userName) && userName.value !in db ==>
      db' == db && reply == Result.Err(HttpException(400, "No previous responses found for this user"))
    ensures page == 6 && Given(userName) && userName.value in db && db[userName.value].answers == [] ==>
      db' == db && reply == Result.Err(HttpException(400, "No answers found for this user"))
    ensures page == 6 && Given(userName) && userName.value in db && db[userName.value].answers != [] ==>
      PageSixDone(db, cfg, userName.value, db', reply)
  {
    picked := [];
    if page == 1 {
      db', reply := db, Result.Ok(PageReply(PageOneQuestions, None));
    } else if 2 <= page <= 5 {
      if !Given(userName) {
        db', reply := db, Result.Err(HttpException(400, "User name is required for pages 2-5"));
      } else {
        db', reply, picked := SamplePage(db, cfg, userName.value);
      }
    } else if page == 6 {
      if !Given(userName) {
        db', reply := db, Result.Err(HttpException(400, "User name is required for page 6"));
      } else if userName.value !in db {
        db', reply := db, Result.Err(HttpException(400, "No previous responses found for this user"));
      } else if db[userName.value].answers == [] {
        db', reply := db, Result.Err(HttpException(400, "No answers found for this user"));
      } else {
        db', reply := PageSix(db, cfg, userName.value);
      }
    } else {
      db', reply := db, Result.Err(HttpException(400, "Invalid page number"));
    }
  }

  // ---------------------------------------------------------------------------
  // submit_survey_page
  // ---------------------------------------------------------------------------

  /** Python's `a[i:j] = b` for 0 <= i <= j: the bounds are clamped to the
      list, and the (clamped) slice is replaced by `b`, whatever its
      length. */
  function SliceAssign<T>(a: seq<T>, i: nat, j: nat, b: seq<T>): (r: seq<T>)
    requires i <= j
    ensures |a| >= j ==> |r| == |a| - (j - i) + |b| && r[..i] == a[..i] && r[i..i + |b|] == b && r[i + |b|..] == a[j..]
    ensures |a| <= i ==> r == a + b
    ensures i <= |a| <= j ==> r == a[..i] + b
  {
    var lo := if i < |a| then i else |a|;
    var hi := if j < |a| then j else |a|;
    var r := a[..lo] + b + a[hi..];
    assert |a| >= j ==> r[..i] == a[..i] && r[i..i + |b|] == b && r[i + |b|..] == a[j..];
    r
  }

  /** Where page `p` (2–5) stores its answers. */
  function PageStart(p: int): int {
    (p - 2) * SampleSize
  }

  /** `submit_survey_page`: the store afterwards and the reply. */
  function SubmitSurveyPage(db: Db, userName: string, page: int, answers: seq<JsValue>): (r: (Db, Result<(), ApiError>))
    ensures userName in r.0 && r.0.Keys == db.Keys + {userName}
    ensures forall u :: u in db && u != userName ==> r.0[u] == db[u]
    ensures r.1.Err? <==> page == 1 && |answers| != 6
    ensures r.1.Err? ==> r.1.error == HttpException(400, "400: Invalid number of answers for page 1")
    ensures r.1.Err? ==> r.0[userName] == Record(db, userName)
    ensures page == 1 && |answers| == 6 ==> r.0[userName] == Record(db, userName).(basicInfo := Some(answers))
    ensures page == 6 ==> r.0[userName] == Record(db, userName).(finalAnswers := Some(answers))
    ensures 2 <= page <= 5 ==> var before := Record(db, userName).answers; var after := r.0[userName].answers;
      && r.0[userName] == Record(db, userName).(answers := after)
      && (|before| >= PageStart(page) + SampleSize ==>
            && |after| == |before| - SampleSize + |answers|
            && after[..PageStart(page)] == before[..PageStart(page)]
            && after[PageStart(page)..PageStart(page) + |answers|] == answers
            && after[PageStart(page) + |answers|..] == before[PageStart(page) + SampleSize..])
      && (|before| <= PageStart(page) ==> r.0[userName].answers == before + answers)
      && (PageStart(page) <= |before| <= PageStart(page) + SampleSize ==>
            r.0[userName].answers == before[..PageStart(page)] + answers)
    ensures (page < 1 || page > 6) ==> r.0[userName] == Record(db, userName)
  {
    var record := Record(db, userName);
    if page == 1 then
      if |answers| != 6 then (db[userName := record], Result.Err(HttpException(400, "400: Invalid number of answers for page 1")))
      else (db[userName := record.(basicInfo := Some(answers))], Result.Ok(()))
    else if 2 <= page <= 5 then
      var start := PageStart(page);
      (db[userName := record.(answers := SliceAssign(record.answers, start, start + SampleSize, answers))], Result.Ok(()))
    else if page == 6 then
      (db[userName := record.(finalAnswers := Some(answers))], Result.Ok(()))
    else
      (db[userName := record], Result.Ok(()))
  }

  /** Pages 2–5 submitted in order, ten answers each, lay the answers out
      one page after another. */
  lemma InOrderFill(db: Db, user: string, pages: seq<seq<JsValue>>)
    requires |pages| == 4 && forall k :: 0 <= k < 4 ==> |pages[k]| == SampleSize
    requires Record(db, user).answers == []
    ensures var db2 := SubmitSurveyPage(db, user, 2, pages[0]).0;
      var db3 := SubmitSurveyPage(db2, user, 3, pages[1]).0;
      var db4 := SubmitSurveyPage(db3, user, 4, pages[2]).0;
      var db5 := SubmitSurveyPage(db4, user, 5, pages[3]).0;
      db5[user].answers == pages[0] + pages[1] + pages[2] + pages[3]
  {
    var db2 := SubmitSurveyPage(db, user, 2, pages[0]).0;
    assert Record(db2, user).answers == pages[0];
    var db3 := SubmitSurveyPage(db2, user, 3, pages[1]).0;
    assert Record(db3, user).answers == pages[0] + pages[1];
    var db4 := SubmitSurveyPage(db3, user, 4, pages[2]).0;
    assert Record(db4, user).answers == pages[0] + pages[1] + pages[2];
  }

  /** Sending the same page again changes nothing further. */
  lemma ResubmitIdempotent(db: Db, user: string, page: int, answers: seq<JsValue>)
    requires 2 <= page <= 5 && |answers| == SampleSize
    requires |Record(db, user).answers| >= PageStart(page)
    ensures var once := SubmitSurveyPage(db, user, page, answers).0;
      SubmitSurveyPage(once, user, page, answers).0 == once
  {
    var once := SubmitSurveyPage(db, user, page, answers).0;
    var a := once[user].answers;
    var start := PageStart(page);
    assert |a| >= start + SampleSize;
    var again := SliceAssign(a, start, start + SampleSize, answers);
    assert again == a[..start] + answers + a[start + SampleSize..];
    assert a == a[..start] + a[start..start + SampleSize] + a[start + SampleSize..];
  }

  /** A page sent before the pages ahead of it lands at the end of what is
      stored, not at its own offset: page 3 sent first fills positions
      0–9. */
  lemma OutOfOrderLandsAtEnd(db: Db, user: string, answers: seq<JsValue>)
    requires Record(db, user).answers == []
    ensures SubmitSurveyPage(db, user, 3, answers).0[user].answers == answers
  {
  }

  // ---------------------------------------------------------------------------
  // submit_survey
  // ---------------------------------------------------------------------------

  datatype SurveyOutcome = SurveyOutcome(hollandCodes: string, matchingIndustries: seq<string>)

  /** `answers[6:]`: the values after the name and the five scores. */
  function YesNoPart(answers: seq<JsValue>): seq<JsValue> {
    if |answers| >= 6 then answers[6..] else []
  }

  /** How many answers `submit_survey` files under letter `c`. */
  function Votes(answers: seq<JsValue>, pool: seq<PoolQuestion>, c: char): nat {
    |SubmitVoters(YesNoPart(answers), pool, c)|
  }

  /** The counts `submit_survey` ranks: the yes answers after the first six
      values, matched to the pool question at the same offset. */
  function SubmitTallies(answers: seq<JsValue>, pool: seq<PoolQuestion>): (r: seq<Tally>)
    ensures |r| == 6 && DistinctLetters(r)
    ensures forall k :: 0 <= k < 6 ==> r[k].letter == SubmitLetters[k]
    ensures forall k :: 0 <= k < 6 ==> r[k].count == Votes(answers, pool, SubmitLetters[k])
  {
    var hits := SubmitHits(YesNoPart(answers), pool);
    forall k | 0 <= k < 6 ensures multiset(hits)[SubmitLetters[k]] == Votes(answers, pool, SubmitLetters[k]) {
      SubmitHitsCount(YesNoPart(answers), pool, SubmitLetters[k]);
    }
    Tallies(SubmitLetters, hits)
  }

  /** `submit_survey`, without the write to `survey_responses.json`. */
  function SubmitSurvey(cfg: Config, userName: string, answers: seq<JsValue>, dseScores: Option<seq<JsValue>>)
    : (r: Result<SurveyOutcome, ApiError>)
    ensures dseScores.None? ==> r == Result.Err(MissingField("dse_scores"))
    ensures dseScores.Some? && userName == "" ==> r == Result.Err(HttpException(400, "400: Username is required"))
    ensures r.Ok? <==> dseScores.Some? && userName != ""
    ensures r.Ok? ==> |r.value.hollandCodes| == 3 && r.value.matchingIndustries != []
    ensures r.Ok? ==> r.value.hollandCodes == TopThree(SubmitTallies(answers, cfg.pool))
    ensures r.Ok? ==> r.value.matchingIndustries == SubmitIndustries(r.value.hollandCodes, cfg.mapping)
  {
    if dseScores.None? then Result.Err(MissingField("dse_scores"))
    else if userName == "" then Result.Err(HttpException(400, "400: Username is required"))
    else
      var code := TopThree(SubmitTallies(answers, cfg.pool));
      Result.Ok(SurveyOutcome(code, SubmitIndustries(code, cfg.mapping)))
  }

  /** The submitted code is three distinct RIASEC letters in ranking order
      (more votes first, ties alphabetically), and each ranks above every
      letter left out. */
  lemma SubmittedCodeRanked(cfg: Config, userName: string, answers: seq<JsValue>, dse: seq<JsValue>)
    requires userName != ""
    ensures var r := SubmitSurvey(cfg, userName, answers, Some(dse));
      && r.Ok?
      && Permutations.Distinct(r.value.hollandCodes)
      && (forall k :: 0 <= k < 3 ==> IsCategoryLetter(r.value.hollandCodes[k]))
      && (forall j, k :: 0 <= j < k < 3 ==>
            VotedAbove(answers, cfg.pool, r.value.hollandCodes[j], r.value.hollandCodes[k]))
      && (forall c, k :: c in SubmitLetters && c !in r.value.hollandCodes && 0 <= k < 3 ==>
            VotedAbove(answers, cfg.pool, r.value.hollandCodes[k], c))
  {
    var tallies := SubmitTallies(answers, cfg.pool);
    TopThreeRanked(tallies);
    var code := TopThree(tallies);
    CountsAreVotes(answers, cfg.pool);
    forall k | 0 <= k < 3 ensures IsCategoryLetter(code[k]) && code[k] in SubmitLetters {
      var m :| 0 <= m < |tallies| && tallies[m].letter == code[k];
      assert SubmitLetters[m] in "RIASEC";
    }
    forall j, k | 0 <= j < k < 3 ensures VotedAbove(answers, cfg.pool, code[j], code[k]) {
      assert RanksAbove(tallies, code[j], code[k]);
    }
    forall c, k | c in SubmitLetters && c !in code && 0 <= k < 3 ensures VotedAbove(answers, cfg.pool, code[k], c) {
      var m :| 0 <= m < 6 && SubmitLetters[m] == c;
      var p :| 0 <= p < |tallies| && tallies[p].letter == code[k] && Ahead(Alphabetical, tallies[p], tallies[m]);
    }
  }

  /** The count the submit tallies give a RIASEC letter is its votes. */
  lemma CountsAreVotes(answers: seq<JsValue>, pool: seq<PoolQuestion>)
    ensures forall c :: c in SubmitLetters ==> CountOf(SubmitTallies(answers, pool), c) == Votes(answers, pool, c)
  {
    var tallies := SubmitTallies(answers, pool);
    forall c | c in SubmitLetters ensures CountOf(tallies, c) == Votes(answers, pool, c) {
      var m :| 0 <= m < 6 && SubmitLetters[m] == c;
      CountOfAt(tallies, m);
    }
  }

  /** Letter `a` has more votes than `b`, or as many and comes first in the
      alphabet. */
  predicate VotedAbove(answers: seq<JsValue>, pool: seq<PoolQuestion>, a: char, b: char) {
    Ahead(Alphabetical, Tally(a, Votes(answers, pool, a)), Tally(b, Votes(answers, pool, b)))
  }
}
