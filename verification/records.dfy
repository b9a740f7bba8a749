/** The records the chat client exchanges with its server, and the shapes in
    which network results reach the state handlers. */
module Records {

  datatype Option<+T> = None | Some(value: T)

  /** A user as returned by `GET /api/users/...`; `+user.id` turns a string
      id into a number, so ids are integers here. */
  datatype User = User(id: int, username: string, fullname: string)

  /** A chat of the directory. `chat_name` may be absent in a server record
      (the edit form falls back to "" in that case). */
  datatype Chat = Chat(id: int, chatName: Option<string>, members: seq<int>)

  /** The body of a PATCH answer, spread over a chat with `{ ...chat, ...data }`:
      every field the answer carries overrides the chat's; a `null` answer
      carries none. */
  datatype ChatPatch = ChatPatch(id: Option<int>, chatName: Option<string>, members: Option<seq<int>>)

  datatype Message = Message(id: int, chatId: int, senderId: int, username: string, content: string, createdAt: string)

  /** An entry of `unreadMessages`. The `msg` listener appends the bare chat
      id of a message (`PushedId`); the `unread` stream delivers records that
      carry a `chat_id` field (`Entry`). The two shapes are kept apart because
      the unread badge only looks at `chat_id`. */
  datatype UnreadMark = PushedId(id: int) | Entry(chatId: int)

  /** What a GET whose JSON body is stored by the client produced: the request
      failed (network error, a status the handler throws on, or a body that is
      not JSON), the body was the JSON literal `null`, or a value arrived. */
  datatype Fetched<+T> = Failed | Null | Data(value: T)

  /** The body `POST /api/messages` is sent with. */
  datatype PostMessage = PostMessage(chatId: int, senderId: int, content: string)

  /** The body `POST /api/chats` is sent with. */
  datatype CreateChat = CreateChat(chatName: string, chatMembers: seq<int>)

  /** The object the edit form hands to `onChatUpdate`. */
  datatype ChatUpdate = ChatUpdate(chatName: string, chatMembers: seq<int>)

  /** The outcome of `fetch` + `res.text()` for chat creation: the request
      rejected, or a status with its text; `parsed` is what `JSON.parse(text)`
      gives, `None` when it throws. */
  datatype CreateReply = NetworkError | Answer(ok: bool, text: string, parsed: Option<Chat>)
}
