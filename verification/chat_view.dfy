/** The chat page of `src/pages/Chat.tsx`: the stored-name gate, the send
    guard and the message log. A send appends the user's message at once
    and exactly one bot message when the reply is in: the reply's text, or a
    fixed apology on any failure. */
module ChatView {
  import opened Common
  import opened Protocol

  datatype Role = User | Bot

  datatype Message = Message(role: Role, content: string)

  datatype ChatState = ChatState(userName: string, messages: seq<Message>, input: string, isLoading: bool)

  /** The state right after the component mounts. */
  const Mounted: ChatState := ChatState("", [], "", false)

  /** The number of preset buttons. */
  const PresetCount: nat := 4

  /** The question on preset button `i`, in display order; none is blank. */
  function PresetQuestion(i: nat): (q: string)
    requires i < PresetCount
    ensures !IsBlank(Js, q)
  {
    var q :=
      if i == 0 then "分析我應該發展的技能"
      else if i == 1 then "分析適合我性格的行業"
      else if i == 2 then "建議我參與什麼課外活動"
      else "關於我的JUPAS選科";
    assert !IsSpace(Js, q[0]) && !IsSpace(Js, q[|q| - 1]);
    q
  }

  const Apology: string := "抱歉，我現在無法回應。請稍後再試。"

  /** The mount effect: without a truthy stored name the page navigates to
      `/`; otherwise it adopts the stored name. The second half of the result
      is whether it navigates away. */
  function Mount(s: ChatState, store: Storage): (r: (ChatState, bool))
    ensures r.1 <==> !Truthy(GetItem(store, UserNameKey))
    ensures r.1 ==> r.0 == s
    ensures !r.1 ==> r.0 == s.(userName := store[UserNameKey]) && r.0.userName != ""
  {
    var name := GetItem(store, UserNameKey);
    if !Truthy(name) then (s, true) else (s.(userName := name.value), false)
  }

  /** `setInputMessage` from the text box. */
  function Type(s: ChatState, text: string): (t: ChatState)
    ensures t.input == text && t == s.(input := text)
  {
    s.(input := text)
  }

  /** How the chat request ends: the HTTP outcome and, on a 2xx reply, the
      `response` field when it is a string. */
  datatype ChatReply = ChatReply(status: Reply, response: Option<string>)

  /** A reply that yields a bot message of its own: a 2xx status with a
      non-empty `response`. */
  predicate Answered(reply: ChatReply) {
    reply.status.Ok? && reply.response.Some? && reply.response.value != ""
  }

  /** The bot message a reply produces. */
  function BotMessage(reply: ChatReply): (m: Message)
    ensures m.role == Bot
    ensures Answered(reply) ==> m.content == reply.response.value
    ensures !Answered(reply) ==> m.content == Apology
  {
    if Answered(reply) then Message(Bot, reply.response.value) else Message(Bot, Apology)
  }

  /** A handler's result: the state after it finishes, the request it sent
      and the state while that request is in flight. */
  datatype Outcome = Outcome(state: ChatState, request: Option<Request>, waiting: Option<ChatState>)

  /** The send guard: a message that is not blank under JavaScript's `trim`,
      sent while no other send is in flight. */
  predicate Accepts(s: ChatState, message: string) {
    !IsBlank(Js, message) && !s.isLoading
  }

  /** `handleSendMessage(message, presetIndex)`. */
  function Send(s: ChatState, message: string, preset: Option<nat>, reply: ChatReply): (r: Outcome)
    // a blank message, or any send while loading, changes nothing
    ensures !Accepts(s, message) ==> r == Outcome(s, None, None)
    // otherwise one request, carrying the untrimmed message and the
    // one-based preset number
    ensures r.request.Some? <==> Accepts(s, message)
    ensures r.request.Some? ==>
      r.request.value == Chat(s.userName, message, if preset.Some? then Some(preset.value + 1) else None)
    // while it is in flight the user's message is shown and the box is empty
    ensures r.waiting.Some? <==> r.request.Some?
    ensures r.waiting.Some? ==>
      r.waiting.value == s.(messages := s.messages + [Message(User, message)], input := "", isLoading := true)
    // once the reply is in, exactly one bot message follows it
    ensures r.request.Some? ==>
      r.state == s.(messages := s.messages + [Message(User, message), BotMessage(reply)], input := "")
    ensures !r.state.isLoading || s.isLoading
  {
    if !Accepts(s, message) then Outcome(s, None, None)
    else
      var request := Chat(s.userName, message, if preset.Some? then Some(preset.value + 1) else None);
      var w := s.(messages := s.messages + [Message(User, message)], input := "", isLoading := true);
      Outcome(w.(messages := w.messages + [BotMessage(reply)], isLoading := false), Some(request), Some(w))
  }

  /** The send button and the Enter key send the text box, with no preset. */
  function SendTyped(s: ChatState, reply: ChatReply): (r: Outcome)
    ensures r.request.Some? <==> Accepts(s, s.input)
    ensures r.request.Some? ==> r.request.value == Chat(s.userName, s.input, None)
  {
    Send(s, s.input, None, reply)
  }

  /** Preset button `i` sends its question with `preset_question = i + 1`. */
  function SendPreset(s: ChatState, i: nat, reply: ChatReply): (r: Outcome)
    requires i < PresetCount
    ensures r.request.Some? <==> !s.isLoading
    ensures r.request.Some? ==> r.request.value == Chat(s.userName, PresetQuestion(i), Some(i + 1))
  {
    var q := PresetQuestion(i);
    if !s.isLoading then SendsWhenAccepted(s, q, i, reply); Send(s, q, Some(i), reply)
    else Send(s, q, Some(i), reply)
  }

  /** An accepted send of a numbered question carries its one-based number. */
  lemma SendsWhenAccepted(s: ChatState, q: string, i: nat, reply: ChatReply)
    requires !IsBlank(Js, q) && !s.isLoading
    ensures Send(s, q, Some(i), reply).request == Some(Chat(s.userName, q, Some(i + 1)))
  {
  }

  /** The log alternates: the user's messages at even positions, each
      followed by the bot's answer. */
  predicate Alternating(log: seq<Message>) {
    && |log| % 2 == 0
    && forall k :: 0 <= k < |log| ==> log[k].role == (if k % 2 == 0 then User else Bot)
  }

  /** One send, whoever presses what. */
  datatype Press = Typed(reply: ChatReply) | Preset(index: nat, reply: ChatReply)

  predicate ValidPress(p: Press) {
    p.Preset? ==> p.index < PresetCount
  }

  predicate ValidPresses(presses: seq<Press>) {
    forall k :: 0 <= k < |presses| ==> ValidPress(presses[k])
  }

  /** The state once one press has been answered. */
  function Pressed(s: ChatState, p: Press): ChatState
    requires ValidPress(p)
  {
    match p
    case Typed(reply) => SendTyped(s, reply).state
    case Preset(i, reply) => SendPreset(s, i, reply).state
  }

  /** The state after a run of sends, each completing before the next. */
  function Converse(s: ChatState, presses: seq<Press>): ChatState
    requires ValidPresses(presses)
    decreases |presses|
  {
    if presses == [] then s
    else
      assert ValidPress(presses[0]);
      Converse(Pressed(s, presses[0]), presses[1..])
  }

  /** A user message followed by a bot message keeps a log alternating. */
  lemma AppendPairAlternating(log: seq<Message>, u: Message, b: Message)
    requires Alternating(log) && u.role == User && b.role == Bot
    ensures Alternating(log + [u, b])
  {
    var n := |log|;
    var t := log + [u, b];
    assert n % 2 == 0 && (n + 2) % 2 == 0 && (n + 1) % 2 == 1;
    forall k | 0 <= k < |t|
      ensures t[k].role == (if k % 2 == 0 then User else Bot)
    {
      if k < n {
        assert t[k] == log[k];
      }
    }
  }

  /** One completed send keeps the log alternating and grows it by zero or
      two messages, never touching the earlier ones. */
  lemma SendKeepsAlternating(s: ChatState, message: string, preset: Option<nat>, reply: ChatReply)
    requires Alternating(s.messages)
    ensures var t := Send(s, message, preset, reply).state;
      && Alternating(t.messages)
      && s.messages <= t.messages
      && |t.messages| == |s.messages| + (if Accepts(s, message) then 2 else 0)
  {
    if Accepts(s, message) {
      AppendPairAlternating(s.messages, Message(User, message), BotMessage(reply));
    }
  }

  /** From any idle page with an alternating log, a run of sends keeps the
      log alternating, keeps every earlier message, and leaves the page
      idle. */
  lemma {:induction false} ConverseAlternates(s: ChatState, presses: seq<Press>)
    requires ValidPresses(presses) && Alternating(s.messages) && !s.isLoading
    ensures var t := Converse(s, presses);
      Alternating(t.messages) && !t.isLoading && s.messages <= t.messages
    decreases |presses|
  {
    if presses != [] {
      assert ValidPress(presses[0]);
      var next := Pressed(s, presses[0]);
      match presses[0] {
        case Typed(reply) => SendKeepsAlternating(s, s.input, None, reply);
        case Preset(i, reply) => SendKeepsAlternating(s, PresetQuestion(i), Some(i), reply);
      }
      assert ValidPresses(presses[1..]) by {
        forall k | 0 <= k < |presses[1..]| ensures ValidPress(presses[1..][k]) {
          assert presses[1..][k] == presses[k + 1];
        }
      }
      ConverseAlternates(next, presses[1..]);
      assert Converse(s, presses) == Converse(next, presses[1..]);
    }
  }
}
