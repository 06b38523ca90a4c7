/** One conversational turn as `processVoiceInput` sees it: the log entries
    `addMessageToConversation` appends, and the classification of the
    backend's reply into an error to show or an answer to speak. */
module Turn {

  import opened Optional

  datatype Role = User | Assistant

  /** A conversation-log paragraph: its CSS class and its text. */
  datatype Entry = Entry(cssClass: string, text: string)

  const USER_ICON: char := '\U{1F464}'
  const ASSISTANT_ICON: char := '\U{1F916}'

  function RoleName(role: Role): string {
    match role
    case User => "user"
    case Assistant => "assistant"
  }

  function Icon(role: Role): char {
    match role
    case User => USER_ICON
    case Assistant => ASSISTANT_ICON
  }

  /** The paragraph `addMessageToConversation(role, message)` appends:
      class `<role>-message`, text the role's icon, a space and the message. */
  function FormatMessage(role: Role, message: string): (e: Entry)
    ensures e.cssClass == RoleName(role) + "-message"
    ensures |e.text| == |message| + 2 && e.text[..2] == [Icon(role), ' '] && e.text[2..] == message
  {
    Entry(RoleName(role) + "-message", [Icon(role), ' '] + message)
  }

  /** Reads a role and a message back from a log paragraph. */
  function ReadEntry(e: Entry): Option<(Role, string)> {
    if |e.text| < 2 || e.text[1] != ' ' then None
    else if e.cssClass == "user-message" && e.text[0] == USER_ICON then Some((User, e.text[2..]))
    else if e.cssClass == "assistant-message" && e.text[0] == ASSISTANT_ICON then Some((Assistant, e.text[2..]))
    else None
  }

  /** Every logged paragraph gives back exactly who said what. */
  lemma ReadFormatted(role: Role, message: string)
    ensures ReadEntry(FormatMessage(role, message)) == Some((role, message))
  {
    var e := FormatMessage(role, message);
    match role
    case User =>
      assert e.cssClass == "user-message";
    case Assistant =>
      assert e.cssClass == "assistant-message";
      assert "assistant-message" != "user-message";
  }

  /** So two log paragraphs are equal only for the same role and message. */
  lemma FormatInjective(r1: Role, m1: string, r2: Role, m2: string)
    requires FormatMessage(r1, m1) == FormatMessage(r2, m2)
    ensures r1 == r2 && m1 == m2
  {
    ReadFormatted(r1, m1);
    ReadFormatted(r2, m2);
  }

  // ---------------------------------------------------------------------
  // The backend's reply to `POST /process-voice`

  /** The parsed JSON body of a reply: an optional `error` and the `response` text. */
  datatype Body = Unparsable(reason: string) | Json(error: Option<string>, response: string)

  /** What `fetch` gives back: a rejection, or a response with its `ok` flag and body. */
  datatype Reply = NetworkFailure(reason: string) | HttpReply(ok: bool, body: Body)

  datatype Outcome = ShowError(message: string) | Answer(text: string)

  const SERVER_FAILURE := "Failed to get response from server"

  /** JavaScript truthiness of the `error` field: present and non-empty. */
  predicate IsTruthy(error: Option<string>) {
    error.Some? && error.value != ""
  }

  /** What `processVoiceInput` does with a reply once the user's message is
      logged: the message of the error it throws, or the answer to log and speak. */
  function Classify(reply: Reply): (o: Outcome)
    ensures o.Answer? <==> reply.HttpReply? && reply.ok && reply.body.Json? && !IsTruthy(reply.body.error)
    ensures o.Answer? ==> o.text == reply.body.response
    ensures reply.HttpReply? && !reply.ok ==> o == ShowError(SERVER_FAILURE)
    ensures reply.HttpReply? && reply.ok && reply.body.Json? && IsTruthy(reply.body.error) ==>
              o == ShowError(reply.body.error.value)
  {
    match reply
    case NetworkFailure(reason) => ShowError(reason)
    case HttpReply(ok, body) =>
      if !ok then ShowError(SERVER_FAILURE)
      else match body
        case Unparsable(reason) => ShowError(reason)
        case Json(error, response) =>
          if IsTruthy(error) then ShowError(error.value) else Answer(response)
  }
}
