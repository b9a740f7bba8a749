/** The rules by which the chat-creation forms (`Modal` in create mode and
    `SearchModal`, which carry the same `handleStartChat`) validate their
    input and read the server's answer. */
module ChatCreation {
  import opened Records
  import Text
  import Selection

  const NoUsersSelected := "No users selected"
  const NameRequired := "Chat name is required"
  const FailedToStart := "Failed to start chat"
  const NoResponseBody := "Chat started, but no response body."
  const ParseFailed := "Error parsing response"
  const NetworkFailed := "Network error"

  /** What one attempt leaves behind: the `error` it shows, the body it
      posted (if it got that far) and the value it handed to `onClose`. */
  datatype StartOutcome = StartOutcome(error: string, request: Option<CreateChat>, closedWith: Option<Chat>)

  /** One attempt to start a chat. The checks run in order: no selected
      users, then a blank name, both before any request; then the status,
      then an empty body, then the parse. Exactly one of "an error is shown"
      and "`onClose` gets the parsed chat" happens. */
  function StartChatOutcome(selectedUsers: seq<User>, chatName: string, reply: CreateReply): (r: StartOutcome)
    ensures |selectedUsers| == 0 ==> r.error == NoUsersSelected && r.request.None?
    ensures |selectedUsers| > 0 && Text.AllWhitespace(chatName) ==> r.error == NameRequired && r.request.None?
    ensures r.request.Some? <==> |selectedUsers| > 0 && !Text.AllWhitespace(chatName)
    ensures r.request.Some? ==> r.request.value == CreateChat(chatName, Selection.Ids(selectedUsers))
    ensures r.request.Some? && reply.NetworkError? ==> r.error == NetworkFailed
    ensures r.request.Some? && reply.Answer? && !reply.ok ==> r.error == FailedToStart
    ensures r.request.Some? && reply.Answer? && reply.ok && reply.text == "" ==> r.error == NoResponseBody
    ensures r.request.Some? && reply.Answer? && reply.ok && reply.text != "" && reply.parsed.None? ==> r.error == ParseFailed
    ensures r.closedWith.Some? <==> r.request.Some? && reply.Answer? && reply.ok && reply.text != "" && reply.parsed.Some?
    ensures r.closedWith.Some? ==> r.closedWith == reply.parsed
    ensures r.error == "" <==> r.closedWith.Some?
    ensures r.error in {"", NoUsersSelected, NameRequired, FailedToStart, NoResponseBody, ParseFailed, NetworkFailed}
  {
    Text.BlankIffAllWhitespace(chatName);
    if |selectedUsers| == 0 then StartOutcome(NoUsersSelected, None, None)
    else if Text.IsBlank(chatName) then StartOutcome(NameRequired, None, None)
    else
      var request := Some(CreateChat(chatName, Selection.Ids(selectedUsers)));
      match reply
      case NetworkError => StartOutcome(NetworkFailed, request, None)
      case Answer(ok, text, parsed) =>
        if !ok then StartOutcome(FailedToStart, request, None)
        else if text == "" then StartOutcome(NoResponseBody, request, None)
        else if parsed.None? then StartOutcome(ParseFailed, request, None)
        else StartOutcome("", request, parsed)
  }
}
