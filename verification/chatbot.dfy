/**
 * The chat assistant: sending a message appends it and the assistant's
 * reply to the conversation, and the request carries the whole conversation
 * so far with each message's sender mapped to a role.
 */
module Chatbot {
  import opened Wrappers
  import opened Strings
  import opened Retry

  datatype Sender = User | Bot

  datatype Message = Message(id: int, sender: Sender, text: string)

  /** A role in the request's `contents`. */
  datatype Role = UserRole | ModelRole

  /** One entry of the request's `contents`: a role and a single text part. */
  datatype Content = Content(role: Role, text: string)

  const Greeting: string := "Hi! I'm PocketPal. Ask me anything about using the app or managing your finances!"

  /** The conversation a fresh chat window starts with. */
  const InitialMessages: seq<Message> := [Message(1, Bot, Greeting)]

  const TroubleConnecting: string := "I'm sorry, I'm having a little trouble connecting right now. Please try again in a moment."
  const Rephrase: string := "I'm not sure how to respond to that. Could you try rephrasing?"
  const CannotConnect: string := "I'm sorry, I couldn't connect to my brain. Please check your connection and try again."

  /** `msg.sender === 'user' ? 'user' : 'model'`. */
  function RoleOf(s: Sender): Role {
    if s == User then UserRole else ModelRole
  }

  /**
   * The request `contents`: one entry per history message, keeping its text,
   * with role user exactly for the user's messages, then the new message as
   * a user entry.
   */
  function ToContents(history: seq<Message>, userMessage: string): (r: seq<Content>)
    ensures |r| == |history| + 1
    ensures r[|history|] == Content(UserRole, userMessage)
    ensures forall i :: 0 <= i < |history| ==>
              r[i].text == history[i].text && (r[i].role == UserRole <==> history[i].sender == User)
  {
    seq(|history|, i requires 0 <= i < |history| => Content(RoleOf(history[i].sender), history[i].text))
      + [Content(UserRole, userMessage)]
  }

  /**
   * The text shown for the loop's last reply: the model's text when the
   * reply succeeded and carried a non-empty text, and otherwise one of the
   * fixed apologies; never the empty string.
   */
  function ReplyText(last: Reply): (r: string)
    ensures r != []
    ensures IsOk(last) && last.body.Text? && last.body.text != [] ==> r == last.body.text
    ensures !(IsOk(last) && last.body.Text? && last.body.text != []) ==>
              r in {TroubleConnecting, Rephrase, CannotConnect}
    ensures last.NetworkError? ==> r == CannotConnect
    ensures last.Response? && !IsOk(last) ==> r == TroubleConnecting
    ensures IsOk(last) && (last.body.NoText? || last.body == Text([])) ==> r == Rephrase
  {
    if last.NetworkError? then CannotConnect
    else if !IsOk(last) then TroubleConnecting
    else
      match last.body
      case Malformed => CannotConnect
      case NoText => Rephrase
      case Text(t) => if t == [] then Rephrase else t
  }

  /** One exchange with the model: the request sent (if any), how the retry loop went, and the reply text. */
  datatype Exchange = Exchange(request: Option<seq<Content>>, outcome: Option<Outcome>, reply: string)

  /**
   * `getGeminiResponse`: without an API key no request is made and the reply
   * is the configuration message; otherwise the conversation is sent through
   * the retry loop and the reply is read from its last response.
   */
  function GeminiResponse(userMessage: string, history: seq<Message>, apiKey: string,
                          server: nat -> Reply): (r: Exchange)
    ensures r.request.None? <==> apiKey == []
    ensures r.outcome.None? <==> apiKey == []
    ensures apiKey == [] ==> r.reply == MissingKey
    ensures r.request.Some? ==> r.request.value == ToContents(history, userMessage)
    ensures r.outcome.Some? ==> r.reply == ReplyText(r.outcome.value.last)
    ensures r.reply != []
  {
    if apiKey == [] then Exchange(None, None, MissingKey)
    else
      var o := Run(server);
      Exchange(Some(ToContents(history, userMessage)), Some(o), ReplyText(o.last))
  }

  /** The chat window's state. */
  datatype ChatState = ChatState(messages: seq<Message>, input: string, loading: bool)

  /** What pressing send did: the new state, and the exchange with the model if one happened. */
  datatype Sent = Sent(state: ChatState, exchange: Option<Exchange>)

  /**
   * `handleSend`: blank input, or input while a reply is pending, does
   * nothing. Otherwise the input is cleared, the user's message gets id
   * `messages.length + 1`, and the reply, computed from the conversation
   * before that message, gets id `messages.length + 2`.
   */
  function HandleSend(st: ChatState, apiKey: string, server: nat -> Reply): (r: Sent)
    ensures r.exchange.None? <==> IsBlank(st.input) || st.loading
    ensures r.exchange.None? ==> r.state == st
    ensures r.exchange.Some? ==>
              && r.state.input == []
              && !r.state.loading
              && |r.state.messages| == |st.messages| + 2
              && r.state.messages[..|st.messages|] == st.messages
              && r.state.messages[|st.messages|] == Message(|st.messages| + 1, User, st.input)
              && r.state.messages[|st.messages| + 1]
                 == Message(|st.messages| + 2, Bot, r.exchange.value.reply)
              && r.exchange.value == GeminiResponse(st.input, st.messages, apiKey, server)
  {
    if Trim(st.input) == [] || st.loading then Sent(st, None)
    else
      var n := |st.messages|;
      var user := Message(n + 1, User, st.input);
      var ex := GeminiResponse(st.input, st.messages, apiKey, server);
      var bot := Message(n + 2, Bot, ex.reply);
      assert (st.messages + [user, bot])[..n] == st.messages;
      Sent(ChatState(st.messages + [user, bot], [], false), Some(ex))
  }

  /** Message `i` (from 0) has id `i + 1`. */
  ghost predicate SequentialIds(messages: seq<Message>) {
    forall i :: 0 <= i < |messages| ==> messages[i].id == i + 1
  }

  /** The conversation opens with the bot's greeting alone, under id 1, so its ids start out sequential. */
  lemma GreetingIds()
    ensures |InitialMessages| == 1 && InitialMessages[0].sender == Bot && InitialMessages[0].text == Greeting
    ensures SequentialIds(InitialMessages)
  {
  }

  /**
   * Every send keeps ids sequential (as they are in the initial greeting),
   * so ids never repeat and a reply always sits right after the message it
   * answers.
   */
  lemma SendKeepsIds(st: ChatState, apiKey: string, server: nat -> Reply)
    requires SequentialIds(st.messages)
    ensures SequentialIds(HandleSend(st, apiKey, server).state.messages)
  {
    var r := HandleSend(st, apiKey, server);
    if r.exchange.Some? {
      var m := r.state.messages;
      var n := |st.messages|;
      assert m == st.messages + [m[n], m[n + 1]];
      AppendKeepsIds(st.messages, m[n], m[n + 1]);
    }
  }

  lemma AppendKeepsIds(ms: seq<Message>, a: Message, b: Message)
    requires SequentialIds(ms) && a.id == |ms| + 1 && b.id == |ms| + 2
    ensures SequentialIds(ms + [a, b])
  {
  }
}
