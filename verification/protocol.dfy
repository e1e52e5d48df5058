/** What the browser pages exchange with the scoring service and with the
    browser's `localStorage`: request shapes, how a fetch can end, and the
    two persisted keys that gate the results view. */
module Protocol {
  import opened Common
  import opened JsValues

  /** A question as the pages hold it: `{question, category?, type?}`. */
  datatype Question = Question(text: string, category: Option<string>, kind: Option<string>)

  /** The HTTP requests the pages send, with the fields of their URL or
      JSON body. */
  datatype Request =
    | GetSurveyPage(page: int, userQuery: Option<string>)
    | SubmitSurveyPage(userName: string, pageNumber: int, answers: seq<JsValue>)
    | SubmitSurvey(userName: string, answers: seq<JsValue>, dseScores: Option<seq<JsValue>>)
    | GetEmergingCareers(userName: string, favoriteSport: string, passionateActivity: string, billionairePurchase: string)
    | Chat(userName: string, message: string, presetQuestion: Option<int>)

  /** How a request whose success body is not read can end: a 2xx status, a
      non-2xx status whose JSON body carries `detail` (the empty string when
      the field is missing or empty), or an exception (network failure,
      unparsable body) with its message. */
  datatype Reply = Ok | HttpError(detail: string) | Thrown(message: string)

  /** The message a handler shows after `throw new Error(detail || fallback)`
      or after catching the exception itself. */
  function FailureMessage(reply: Reply, fallback: string): (m: string)
    requires !reply.Ok?
    ensures reply.HttpError? && reply.detail != "" ==> m == reply.detail
    ensures reply.HttpError? && reply.detail == "" ==> m == fallback
    ensures reply.Thrown? ==> m == reply.message
  {
    match reply
    case HttpError(detail) => if detail == "" then fallback else detail
    case Thrown(message) => message
  }

  /** `localStorage`, shared by every page of the application. */
  type Storage = map<string, string>

  const UserNameKey: string := "userName"
  const CompletedKey: string := "surveyCompleted"

  /** `localStorage.getItem(key)`, with `null` as `None`. */
  function GetItem(store: Storage, key: string): Option<string> {
    if key in store then Some(store[key]) else None
  }

  /** JavaScript truthiness of a `getItem` result: present and non-empty. */
  predicate Truthy(item: Option<string>) {
    item.Some? && item.value != ""
  }

  /** Removes the persisted user name and completion flag. */
  function ClearCompletion(store: Storage): (r: Storage)
    ensures UserNameKey !in r && CompletedKey !in r
    ensures forall k :: k in store && k != UserNameKey && k != CompletedKey ==> k in r && r[k] == store[k]
    ensures forall k :: k in r ==> k in store
  {
    store - {UserNameKey, CompletedKey}
  }
}
