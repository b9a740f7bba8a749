/** The message box of `components/message_input.tsx`. */
module Input {
  import opened Records
  import Text

  class MessageInput {
    var message: string

    constructor ()
      ensures message == ""
    {
      message := "";
    }

    /** Typing in the box. */
    method SetMessage(value: string)
      modifies this`message
      ensures message == value
    {
      message := value;
    }

    /** The send button. A whitespace-only message is neither sent nor
        cleared; any other is handed to `onSendMessage` exactly as typed,
        surrounding whitespace included, and the box is emptied whatever the
        send then does. */
    method HandleSendMessage() returns (sent: Option<string>)
      modifies this`message
      ensures Text.AllWhitespace(old(message)) ==> sent == None && message == old(message)
      ensures !Text.AllWhitespace(old(message)) ==> sent == Some(old(message)) && message == ""
    {
      Text.BlankIffAllWhitespace(message);
      if Text.IsBlank(message) {
        return None;
      }
      sent := Some(message);
      message := "";
    }
  }
}
