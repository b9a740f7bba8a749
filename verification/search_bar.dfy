/** The chat-creation form of `components/search_bar.tsx`. Its
    `handleStartChat` is the create-mode handler of the chat form over again;
    `selectedUsers` is a prop it only reads. */
module SearchBar {
  import opened Records
  import Text
  import Selection
  import ChatCreation

  class SearchModal {
    var selectedUsers: seq<User>
    var chatName: string
    var error: string

    constructor (selected: seq<User>)
      ensures selectedUsers == selected && chatName == "" && error == ""
    {
      selectedUsers, chatName, error := selected, "", "";
    }

    /** Typing in the chat-name input. */
    method SetChatName(value: string)
      modifies this`chatName
      ensures chatName == value
    {
      chatName := value;
    }

    /** "Start Chat": reset the error, reject an empty selection and then a
        blank name without a request, otherwise post and read the answer. */
    method HandleStartChat(reply: CreateReply) returns (request: Option<CreateChat>, closedWith: Option<Chat>)
      modifies this`error
      ensures var outcome := ChatCreation.StartChatOutcome(selectedUsers, chatName, reply);
        error == outcome.error && request == outcome.request && closedWith == outcome.closedWith
      ensures |selectedUsers| == 0 ==> error == ChatCreation.NoUsersSelected && request.None?
      ensures reply.Answer? && !reply.ok && request.Some? ==> error == ChatCreation.FailedToStart
    {
      error := "";
      request, closedWith := None, None;
      if |selectedUsers| == 0 {
        error := ChatCreation.NoUsersSelected;
        return;
      }
      if Text.IsBlank(chatName) {
        error := ChatCreation.NameRequired;
        return;
      }
      request := Some(CreateChat(chatName, Selection.Ids(selectedUsers)));
      match reply {
        case NetworkError =>
          error := ChatCreation.NetworkFailed;
        case Answer(ok, text, parsed) =>
          if !ok {
            error := ChatCreation.FailedToStart;
            return;
          }
          if text != "" {
            if parsed.Some? {
              closedWith := parsed;
            } else {
              error := ChatCreation.ParseFailed;
            }
          } else {
            error := ChatCreation.NoResponseBody;
          }
      }
    }
  }
}
