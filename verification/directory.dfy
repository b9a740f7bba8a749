/** The chat directory (`chats`) and the unread list (`unreadMessages`): how a
    `msg` push is routed to them, how a deleted chat leaves the directory and
    how an edited chat is merged back in. */
module Directory {
  import opened Records

  /** `chats.find(chat => chat.id === id)` finds something. */
  predicate Known(chats: seq<Chat>, id: int)
  {
    exists i :: 0 <= i < |chats| && chats[i].id == id
  }

  /** `selectedChat && id === selectedChat.id` */
  predicate IsOpen(selected: Option<Chat>, id: int)
  {
    selected.Some? && selected.value.id == id
  }

  /** What the `setChats` updater of the `msg` listener does besides
      returning the directory unchanged. */
  datatype PushRoute = MarkUnread | Refetch

  /** A push for a chat of the directory that the listener does not see as
      open marks it unread; a push for an unknown chat, or for the open one,
      asks for the directory again. */
  function RoutePush(chats: seq<Chat>, seen: Option<Chat>, chatId: int): (r: PushRoute)
    ensures r == MarkUnread <==> Known(chats, chatId) && !IsOpen(seen, chatId)
    ensures r == Refetch <==> !Known(chats, chatId) || IsOpen(seen, chatId)
  {
    if Known(chats, chatId) && (seen.None? || chatId != seen.value.id) then MarkUnread else Refetch
  }

  /** The unread list, reading the JSON `null` an `unread` event may deliver
      as no entries. */
  function UnreadList(unread: Option<seq<UnreadMark>>): seq<UnreadMark>
  {
    if unread.None? then [] else unread.value
  }

  /** The unread updater of the `msg` listener: `null` becomes a one-entry
      list, a list gets the chat id appended. Either way exactly one bare id
      is added at the end and nothing is de-duplicated. */
  function AddUnread(unread: Option<seq<UnreadMark>>, chatId: int): (r: seq<UnreadMark>)
    ensures r == UnreadList(unread) + [PushedId(chatId)]
  {
    if unread.None? then [PushedId(chatId)] else unread.value + [PushedId(chatId)]
  }

  /** The NEW badge of the directory list:
      `unreadMessages && unreadMessages.length > 0 &&
       unreadMessages.map(u => u.chat_id).includes(chat.id) &&
       (selectedChat === null || chat.id != selectedChat.id)`.
      A bare id has no `chat_id`, so only `Entry` marks can match. */
  predicate IsUnread(chat: Chat, unread: Option<seq<UnreadMark>>, selected: Option<Chat>)
  {
    && unread.Some? && |unread.value| > 0
    && (exists i :: 0 <= i < |unread.value| && unread.value[i] == Entry(chat.id))
    && !IsOpen(selected, chat.id)
  }

  /** The ids the `msg` listener appends never change what the badge shows:
      a chat is shown unread after the append exactly when it was before. */
  lemma {:induction false} PushedMarkNotShown(chat: Chat, unread: Option<seq<UnreadMark>>, selected: Option<Chat>, chatId: int)
    ensures IsUnread(chat, Some(AddUnread(unread, chatId)), selected) <==> IsUnread(chat, unread, selected)
  {
    var before := UnreadList(unread);
    var after := AddUnread(unread, chatId);
    if IsUnread(chat, Some(after), selected) {
      var i :| 0 <= i < |after| && after[i] == Entry(chat.id);
      assert i < |before|;
      assert before[i] == Entry(chat.id);
    }
    if IsUnread(chat, unread, selected) {
      var i :| 0 <= i < |before| && before[i] == Entry(chat.id);
      assert after[i] == Entry(chat.id);
    }
  }

  /** `chats.filter(chat => chat.id !== id)` */
  function WithoutChat(chats: seq<Chat>, id: int): (r: seq<Chat>)
    ensures !Known(r, id)
    ensures forall c :: c in r <==> c in chats && c.id != id
    ensures !Known(chats, id) ==> r == chats
  {
    if chats == [] then []
    else if chats[0].id == id then WithoutChat(chats[1..], id)
    else
      assert !Known(chats[1..], id) ==> chats == [chats[0]] + chats[1..];
      [chats[0]] + WithoutChat(chats[1..], id)
  }

  /** The chats that stay keep their relative order. */
  lemma {:induction false} WithoutChatAppend(a: seq<Chat>, b: seq<Chat>, id: int)
    ensures WithoutChat(a + b, id) == WithoutChat(a, id) + WithoutChat(b, id)
  {
    if a == [] {
      assert a + b == b;
    } else {
      assert (a + b)[0] == a[0];
      assert (a + b)[1..] == a[1..] + b;
      WithoutChatAppend(a[1..], b, id);
    }
  }

  /** `{ ...chat, ...data }`: every field the answer carries wins. */
  function Merge(c: Chat, p: ChatPatch): Chat
  {
    Chat(if p.id.Some? then p.id.value else c.id,
         if p.chatName.Some? then p.chatName else c.chatName,
         if p.members.Some? then p.members.value else c.members)
  }

  /** Merging the same answer twice changes nothing more, and an empty
      (`null`) answer leaves the chat as it was. */
  lemma MergeIdempotent(c: Chat, p: ChatPatch)
    ensures Merge(Merge(c, p), p) == Merge(c, p)
    ensures Merge(c, ChatPatch(None, None, None)) == c
  {
  }

  /** `setSelectedChat(prev => ({ ...prev, ...data }))`: over an open chat
      this is `Merge`; over a closed chat (`null` spreads to nothing) the
      answer alone becomes the selection, without name or members where the
      answer carries none. */
  function MergeSelection(prev: Option<Chat>, p: ChatPatch): (r: Option<Chat>)
    ensures prev.Some? ==> r == Some(Merge(prev.value, p))
    ensures prev.None? && p.id.Some? ==>
      r == Some(Chat(p.id.value, p.chatName, if p.members.Some? then p.members.value else []))
    ensures prev.None? && p.id.None? ==> r == None
  {
    if prev.Some? then Some(Merge(prev.value, p))
    else if p.id.Some? then Some(Chat(p.id.value, p.chatName, if p.members.Some? then p.members.value else []))
    else None
  }

  /** A full answer (every field present) leaves nothing of what was
      selected: whichever chat was open, or none, the selection becomes the
      answer's chat. */
  lemma FullAnswerReplacesSelection(prev: Option<Chat>, id: int, name: Option<string>, members: seq<int>)
    requires name.Some?
    ensures MergeSelection(prev, ChatPatch(Some(id), name, Some(members))) == Some(Chat(id, name, members))
  {
  }

  /** `chats.map(chat => chat.id === chatId ? { ...chat, ...data } : chat)`:
      the chats with that id get the answer merged in, all others and the
      order stay as they were. */
  function ApplyEdit(chats: seq<Chat>, chatId: int, p: ChatPatch): (r: seq<Chat>)
    ensures |r| == |chats|
    ensures forall i :: 0 <= i < |chats| && chats[i].id != chatId ==> r[i] == chats[i]
    ensures forall i :: 0 <= i < |chats| && chats[i].id == chatId ==> r[i] == Merge(chats[i], p)
  {
    if chats == [] then []
    else [if chats[0].id == chatId then Merge(chats[0], p) else chats[0]] + ApplyEdit(chats[1..], chatId, p)
  }

  /** Applying the same answer a second time leaves the directory as the
      first application left it, whatever id the answer carries. */
  lemma {:induction false} ApplyEditIdempotent(chats: seq<Chat>, chatId: int, p: ChatPatch)
    ensures ApplyEdit(ApplyEdit(chats, chatId, p), chatId, p) == ApplyEdit(chats, chatId, p)
  {
    var once := ApplyEdit(chats, chatId, p);
    var twice := ApplyEdit(once, chatId, p);
    forall i | 0 <= i < |chats| ensures twice[i] == once[i] {
      if chats[i].id == chatId {
        MergeIdempotent(chats[i], p);
      }
    }
  }

  /** When the open chat is the directory entry being edited and stays open
      until the answer, the selection and that entry receive the same merge,
      so they still agree afterwards. */
  lemma {:induction false} SelectionFollowsDirectory(chats: seq<Chat>, i: int, chatId: int, p: ChatPatch)
    requires 0 <= i < |chats| && chats[i].id == chatId
    ensures MergeSelection(Some(chats[i]), p) == Some(ApplyEdit(chats, chatId, p)[i])
  {
  }

  /** An answer for a chat that is not in the directory changes nothing. */
  lemma {:induction false} ApplyEditUnknown(chats: seq<Chat>, chatId: int, p: ChatPatch)
    requires !Known(chats, chatId)
    ensures ApplyEdit(chats, chatId, p) == chats
  {
    var r := ApplyEdit(chats, chatId, p);
    forall i | 0 <= i < |chats| ensures r[i] == chats[i] {
      assert chats[i].id != chatId;
    }
  }
}
