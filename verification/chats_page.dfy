/** The state of the chats page (`app/chats/page.tsx`) and the handlers that
    replace it step by step. Every network answer a handler waits for is a
    parameter; what the handler sends out (a request body, a re-fetch) is a
    result. */
module ChatsPage {
  import opened Records
  import Text
  import Selection
  import Timeline
  import Directory

  class Chats {
    var userData: Option<User>
    var chats: seq<Chat>
    var selectedChat: Option<Chat>
    var chatMessages: seq<Message>
    var unreadMessages: Option<seq<UnreadMark>>
    var searchResults: seq<User>
    var selectedUsers: seq<User>
    var chatMembersData: seq<User>
    /** The selection the registered `msg` listener closed over: the listener
        is registered again only when `token` or `unreadMessages` change, so
        it keeps the selection of that moment until then. */
    var listenerChat: Option<Chat>
    /** `unreadMessages` was set since the listener was last registered, so
        the effect is due to run again. Every `setUnreadMessages` here stores
        a new array or `null` over a non-`null` list, which React counts as
        a change. */
    var unreadChanged: bool

    /** The page as first rendered, with the stream listener registered. */
    constructor ()
      ensures userData == None && chats == [] && selectedChat == None
      ensures chatMessages == [] && unreadMessages == Some([])
      ensures searchResults == [] && selectedUsers == [] && chatMembersData == []
      ensures listenerChat == None && !unreadChanged
    {
      userData, chats, selectedChat := None, [], None;
      chatMessages, unreadMessages := [], Some([]);
      searchResults, selectedUsers, chatMembersData := [], [], [];
      listenerChat, unreadChanged := None, false;
    }

    /** The current user arrived. */
    method SetUserData(json: User)
      modifies this`userData
      ensures userData == Some(json)
    {
      userData := Some(json);
    }

    /** A directory answer of `fetchChats` is stored as it came. */
    method LoadDirectory(json: seq<Chat>)
      modifies this`chats
      ensures chats == json
    {
      chats := json;
    }

    /** A click on a directory entry opens that chat and returns the id
        acknowledged with `POST /messages/{id}/read`; the unread list is left
        alone. */
    method SelectChat(chat: Chat) returns (markRead: int)
      modifies this`selectedChat
      ensures selectedChat == Some(chat) && markRead == chat.id
    {
      selectedChat := Some(chat);
      markRead := chat.id;
    }

    /** The back button closes the open chat. */
    method CloseChat()
      modifies this`selectedChat
      ensures selectedChat == None
    {
      selectedChat := None;
    }

    /** The history answer for the chat that was opened. A failure keeps the
        timeline; `null` empties it; a list replaces it, whatever it held and
        whichever chat is open by now. */
    method OnHistory(reply: Fetched<seq<Message>>)
      modifies this`chatMessages
      ensures reply.Failed? ==> chatMessages == old(chatMessages)
      ensures reply.Null? ==> chatMessages == []
      ensures reply.Data? ==> chatMessages == reply.value
    {
      match reply {
        case Failed =>
        case Null => chatMessages := [];
        case Data(json) => chatMessages := json;
      }
    }

    /** The stream effect runs again, which it does only after
        `unreadMessages` changed: the new listener sees the current
        selection. */
    method Resubscribe()
      requires unreadChanged
      modifies this`listenerChat, this`unreadChanged
      ensures listenerChat == selectedChat && !unreadChanged
    {
      listenerChat := selectedChat;
      unreadChanged := false;
    }

    /** The body of the `msg` listener. The message joins the timeline only
        when the listener sees its chat as open and no entry has its id.
        Independently, a push for a known chat the listener does not see as
        open appends exactly one bare id to the unread list; any other push
        asks for the directory again (`refetch`). The directory itself is
        never changed here. */
    method OnPush(m: Message) returns (refetch: bool)
      modifies this`chatMessages, this`unreadMessages, this`unreadChanged
      ensures Directory.IsOpen(listenerChat, m.chatId) ==> chatMessages == Timeline.AppendIfAbsent(old(chatMessages), m)
      ensures !Directory.IsOpen(listenerChat, m.chatId) ==> chatMessages == old(chatMessages)
      ensures chatMessages == Timeline.Step(old(chatMessages), Timeline.Push(m, listenerChat))
      ensures Timeline.UniqueIds(old(chatMessages)) ==> Timeline.UniqueIds(chatMessages)
      ensures refetch <==> Directory.RoutePush(chats, listenerChat, m.chatId) == Directory.Refetch
      ensures refetch <==> !Directory.Known(chats, m.chatId) || Directory.IsOpen(listenerChat, m.chatId)
      ensures !refetch ==> unreadMessages == Some(Directory.UnreadList(old(unreadMessages)) + [PushedId(m.chatId)])
      ensures refetch ==> unreadMessages == old(unreadMessages)
      ensures unreadChanged == (old(unreadChanged) || !refetch)
    {
      if listenerChat.Some? && m.chatId == listenerChat.value.id {
        if !Timeline.HasMessage(chatMessages, m.id) {
          chatMessages := chatMessages + [m];
        }
      }
      refetch := true;
      var i := 0;
      while i < |chats|
        invariant 0 <= i <= |chats|
        invariant forall k :: 0 <= k < i ==> chats[k].id != m.chatId
        invariant refetch && unreadMessages == old(unreadMessages) && unreadChanged == old(unreadChanged)
      {
        if chats[i].id == m.chatId {
          if listenerChat.None? || m.chatId != listenerChat.value.id {
            unreadMessages := Some(Directory.AddUnread(unreadMessages, m.chatId));
            unreadChanged := true;
            refetch := false;
          }
          break;
        }
        i := i + 1;
      }
    }

    /** An `unread` event replaces the unread list with what it carries.
        A parsed array is a new object, so only `null` over `null` leaves the
        effect alone. */
    method OnUnreadSnapshot(data: Option<seq<UnreadMark>>)
      modifies this`unreadMessages, this`unreadChanged
      ensures unreadMessages == data
      ensures unreadChanged == (old(unreadChanged) || data.Some? || old(unreadMessages).Some?)
    {
      unreadChanged := unreadChanged || data.Some? || unreadMessages.Some?;
      unreadMessages := data;
    }

    /** The NEW badge of a directory entry, read against the current
        selection: shown exactly when the unread list holds a record for the
        chat and the chat is not the open one (the length test of the source
        adds nothing to the membership test). */
    function IsUnreadChat(chat: Chat): (r: bool)
      reads this
      ensures r <==> unreadMessages.Some? && Entry(chat.id) in unreadMessages.value
                     && !Directory.IsOpen(selectedChat, chat.id)
    {
      Directory.IsUnread(chat, unreadMessages, selectedChat)
    }

    /** A blank query clears the results without a request; otherwise the
        answer is stored, `null` as no results, and a failure keeps the old
        results. */
    method Search(query: string, reply: Fetched<seq<User>>) returns (requested: bool)
      modifies this`searchResults
      ensures requested <==> !Text.AllWhitespace(query)
      ensures !requested ==> searchResults == []
      ensures requested && reply.Failed? ==> searchResults == old(searchResults)
      ensures requested && reply.Null? ==> searchResults == []
      ensures requested && reply.Data? ==> searchResults == reply.value
    {
      Text.BlankIffAllWhitespace(query);
      if query == "" || Text.IsBlank(query) {
        searchResults := [];
        return false;
      }
      requested := true;
      match reply {
        case Failed =>
        case Null => searchResults := [];
        case Data(json) => searchResults := json;
      }
    }

    /** A click on a user in the creation form toggles that user by id. */
    method HandleUserSelect(user: User)
      modifies this`selectedUsers
      ensures selectedUsers == Selection.Toggle(old(selectedUsers), user)
      ensures Selection.HasUser(selectedUsers, user.id) <==> !Selection.HasUser(old(selectedUsers), user.id)
    {
      selectedUsers := Selection.Toggle(selectedUsers, user);
    }

    /** Sends `content` to the open chat. Nothing is sent without an open
        chat, nor without the current user (reading its id throws). The
        request carries the chat open now; its answer is `OnSendAnswer`,
        which does not look at the selection again. */
    method HandleSendMessage(content: string) returns (request: Option<PostMessage>)
      ensures request.Some? <==> selectedChat.Some? && userData.Some?
      ensures request.Some? ==> request.value == PostMessage(selectedChat.value.id, userData.value.id, content)
    {
      if selectedChat.None? {
        return None;
      }
      if userData.None? {
        return None;
      }
      request := Some(PostMessage(selectedChat.value.id, userData.value.id, content));
    }

    /** The answer to a send (`None` when the POST failed or answered with an
        error status). It goes through the de-duplicating append of whatever
        timeline is shown when it arrives, even one of a chat opened since. */
    method OnSendAnswer(reply: Option<Message>)
      modifies this`chatMessages
      ensures reply.None? ==> chatMessages == old(chatMessages)
      ensures reply.Some? ==> chatMessages == Timeline.AppendIfAbsent(old(chatMessages), reply.value)
      ensures chatMessages == Timeline.Step(old(chatMessages), Timeline.SendReply(reply))
      ensures Timeline.UniqueIds(old(chatMessages)) ==> Timeline.UniqueIds(chatMessages)
    {
      if reply.Some? {
        var json := reply.value;
        if !Timeline.HasMessage(chatMessages, json.id) {
          chatMessages := chatMessages + [json];
        }
      }
    }

    /** Deletes a chat. Once the server answered, whatever the status, the
        chat leaves the directory and the timeline and selection are cleared;
        a request that never got an answer stops the handler first. */
    method HandleDeleteChat(chatId: int, answered: bool)
      modifies this`chats, this`chatMessages, this`selectedChat
      ensures answered ==> chats == Directory.WithoutChat(old(chats), chatId) && chatMessages == [] && selectedChat == None
      ensures answered ==> !Directory.Known(chats, chatId)
      ensures !answered ==> chats == old(chats) && chatMessages == old(chatMessages) && selectedChat == old(selectedChat)
    {
      if !answered {
        return;
      }
      chats := Directory.WithoutChat(chats, chatId);
      chatMessages := [];
      selectedChat := None;
    }

    /** Sends the PATCH for `chatId`. The callback that will handle the
        answer closes over the selection of this moment, so whether the answer
        is merged into the selection is decided now (`mergeSelection`). */
    method HandleEditChat(chatId: int) returns (mergeSelection: bool)
      ensures mergeSelection <==> Directory.IsOpen(selectedChat, chatId)
    {
      mergeSelection := selectedChat.Some? && selectedChat.value.id == chatId;
    }

    /** The PATCH answer (`None` when the request was rejected or the body
        is not JSON). The status is never tested, so an error status with a
        JSON body is an answer like any other. It is merged into the chats with that id and, when the test
        made at request time held, into the selection as it is now: a chat
        opened since takes on the answer's fields, and a chat closed since
        comes back as the answer alone. */
    method OnEditAnswer(chatId: int, mergeSelection: bool, reply: Option<ChatPatch>)
      modifies this`chats, this`selectedChat
      ensures reply.None? ==> chats == old(chats) && selectedChat == old(selectedChat)
      ensures reply.Some? ==> chats == Directory.ApplyEdit(old(chats), chatId, reply.value)
      ensures reply.Some? && mergeSelection
        ==> selectedChat == Directory.MergeSelection(old(selectedChat), reply.value)
      ensures !mergeSelection ==> selectedChat == old(selectedChat)
    {
      if reply.None? {
        return;
      }
      var data := reply.value;
      chats := Directory.ApplyEdit(chats, chatId, data);
      if mergeSelection {
        selectedChat := Directory.MergeSelection(selectedChat, data);
      }
    }

    /** The members of the chat being edited: a list answer is stored, and
        `null` or any failure leaves no members. */
    method FetchChatMembers(reply: Fetched<seq<User>>)
      modifies this`chatMembersData
      ensures reply.Data? ==> chatMembersData == reply.value
      ensures !reply.Data? ==> chatMembersData == []
    {
      match reply {
        case Failed => chatMembersData := [];
        case Null => chatMembersData := [];
        case Data(json) => chatMembersData := json;
      }
    }
  }

  /** The session of a chat that the listener sees as open, because an
      `unread` event arrived after the chat was opened and the effect ran
      again: history, a push from someone else, the user's own send and its
      late echo leave three messages, each once and in that order. */
  method OpenChatSession(team: Chat, me: User, m1: Message, m2: Message, m3: Message)
    requires m1.id != m2.id && m2.id != m3.id && m1.id != m3.id
    requires m2.chatId == team.id && m3.chatId == team.id
  {
    var page := new Chats();
    page.SetUserData(me);
    page.LoadDirectory([team]);
    var ack := page.SelectChat(team);
    page.OnUnreadSnapshot(Some([]));
    page.Resubscribe();
    page.OnHistory(Data([m1]));
    var refetch := page.OnPush(m2);
    assert refetch;
    assert page.chatMessages == [m1, m2];
    var request := page.HandleSendMessage(m3.content);
    assert request == Some(PostMessage(team.id, me.id, m3.content));
    page.OnSendAnswer(Some(m3));
    assert page.chatMessages == [m1, m2, m3];
    refetch := page.OnPush(m3);
    assert page.chatMessages == [m1, m2, m3];
  }

  /** A chat opened after the listener was registered is still closed as far
      as the listener is concerned: a push for it stays out of the timeline
      and marks it unread. That change of the unread list makes the effect
      run again, and the re-registered listener sees the chat as open, so
      only the pushes that arrive before that re-run are lost. */
  method StaleListenerSession(team: Chat, m: Message)
    requires m.chatId == team.id
  {
    var page := new Chats();
    page.LoadDirectory([team]);
    var ack := page.SelectChat(team);
    page.OnHistory(Data([]));
    assert page.chats[0].id == team.id;
    var refetch := page.OnPush(m);
    assert !refetch;
    assert Directory.UnreadList(Some([])) + [PushedId(team.id)] == [PushedId(team.id)];
    assert page.chatMessages == [];
    assert page.unreadMessages == Some([PushedId(team.id)]);
    assert !page.IsUnreadChat(team);
    page.Resubscribe();
    refetch := page.OnPush(m);
    assert page.chatMessages == [m];
  }

  /** Answers that arrive after the user moved on. A send answer for one
      chat lands in the timeline of the chat opened since. An edit answer
      whose request was made while the edited chat was open is merged into
      whatever is selected when it arrives: another chat takes on the edited
      chat's fields, and a closed chat comes back as the answer. */
  method LateAnswersSession(a: Chat, b: Chat, me: User, sent: Message, name: string, members: seq<int>)
    requires a.id != b.id && sent.chatId == a.id
  {
    var page := new Chats();
    page.SetUserData(me);
    page.LoadDirectory([a, b]);
    var ack := page.SelectChat(a);
    var request := page.HandleSendMessage(sent.content);
    assert request == Some(PostMessage(a.id, me.id, sent.content));
    ack := page.SelectChat(b);
    page.OnHistory(Data([]));
    page.OnSendAnswer(Some(sent));
    assert page.chatMessages == [sent];

    var answer := ChatPatch(Some(b.id), Some(name), Some(members));
    var merge := page.HandleEditChat(b.id);
    assert merge;
    ack := page.SelectChat(a);
    page.OnEditAnswer(b.id, merge, Some(answer));
    assert page.selectedChat == Some(Chat(b.id, Some(name), members));

    merge := page.HandleEditChat(b.id);
    page.CloseChat();
    page.OnEditAnswer(b.id, merge, Some(answer));
    assert page.selectedChat == Some(Chat(b.id, Some(name), members));
  }
}
