/** The chat form of `components/modal.tsx`, used both to create a chat and,
    in edit mode, to rename a chat and change its members. Its props
    (`isEditMode`, `editingChat`, `currentMembers`, `selectedUsers`, whether
    `onChatUpdate` is given) are fields its handlers only read; `chatName`,
    `error`, `membersToRemove` and `membersToAdd` are its own state. */
module ModalDialog {
  import opened Records
  import Text
  import Selection
  import ChatCreation

  class Modal {
    var isEditMode: bool
    var editingChat: Option<Chat>
    var currentMembers: seq<User>
    var selectedUsers: seq<User>
    var hasChatUpdate: bool

    var chatName: string
    var error: string
    var membersToRemove: seq<User>
    var membersToAdd: seq<User>

    /** The form as mounted with its props, before its effect runs. */
    constructor (editMode: bool, editing: Option<Chat>, current: seq<User>, selected: seq<User>, canUpdate: bool)
      ensures isEditMode == editMode && editingChat == editing && currentMembers == current
      ensures selectedUsers == selected && hasChatUpdate == canUpdate
      ensures chatName == "" && error == "" && membersToRemove == [] && membersToAdd == []
    {
      isEditMode, editingChat, currentMembers := editMode, editing, current;
      selectedUsers, hasChatUpdate := selected, canUpdate;
      chatName, error, membersToRemove, membersToAdd := "", "", [], [];
    }

    /** The effect on `[isEditMode, editingChat]`: in edit mode with a chat,
        the name starts as the chat's name (or "" when it has none) and both
        marking lists start empty; otherwise nothing changes. */
    method InitEditMode()
      modifies this`chatName, this`membersToRemove, this`membersToAdd
      ensures isEditMode && editingChat.Some? ==>
        && chatName == (if editingChat.value.chatName.Some? then editingChat.value.chatName.value else "")
        && membersToRemove == [] && membersToAdd == []
      ensures !(isEditMode && editingChat.Some?) ==>
        chatName == old(chatName) && membersToRemove == old(membersToRemove) && membersToAdd == old(membersToAdd)
    {
      if isEditMode && editingChat.Some? {
        var name := editingChat.value.chatName;
        chatName := if name.Some? then name.value else "";
        membersToRemove := [];
        membersToAdd := [];
      }
    }

    /** Typing in the chat-name input. */
    method SetChatName(value: string)
      modifies this`chatName
      ensures chatName == value
    {
      chatName := value;
    }

    /** A click on a current member toggles its removal mark by id. */
    method HandleRemoveMember(member: User)
      modifies this`membersToRemove
      ensures membersToRemove == Selection.Toggle(old(membersToRemove), member)
      ensures IsMarkedForRemoval(member) <==> !old(IsMarkedForRemoval(member))
    {
      membersToRemove := Selection.Toggle(membersToRemove, member);
    }

    /** A click on a user to add toggles its addition mark by id. */
    method HandleAddMember(member: User)
      modifies this`membersToAdd
      ensures membersToAdd == Selection.Toggle(old(membersToAdd), member)
      ensures IsMarkedForAddition(member) <==> !old(IsMarkedForAddition(member))
    {
      membersToAdd := Selection.Toggle(membersToAdd, member);
    }

    /** `currentMembers.some(m => m.id === user.id)`: the user's id is
        among the ids of the current members. */
    predicate IsCurrentMember(user: User): (r: bool)
      reads this
      ensures r <==> user.id in Selection.Ids(currentMembers)
    {
      Selection.IdsHas(currentMembers, user.id);
      Selection.HasUser(currentMembers, user.id)
    }

    /** `membersToRemove.some(m => m.id === user.id)`: the user's id is among
        the ids marked for removal. */
    predicate IsMarkedForRemoval(user: User): (r: bool)
      reads this
      ensures r <==> user.id in Selection.Ids(membersToRemove)
    {
      Selection.IdsHas(membersToRemove, user.id);
      Selection.HasUser(membersToRemove, user.id)
    }

    /** `membersToAdd.some(m => m.id === user.id)`: the user's id is among
        the ids marked for addition. */
    predicate IsMarkedForAddition(user: User): (r: bool)
      reads this
      ensures r <==> user.id in Selection.Ids(membersToAdd)
    {
      Selection.IdsHas(membersToAdd, user.id);
      Selection.HasUser(membersToAdd, user.id)
    }

    /** A click on a search result. In edit mode a current member has its
        removal mark toggled and anyone else its addition mark; in create
        mode the click is handed to `onUserSelect` (`forwarded`) and neither
        list changes. */
    method HandleResultClick(user: User) returns (forwarded: bool)
      modifies this`membersToRemove, this`membersToAdd
      ensures forwarded <==> !isEditMode
      ensures !isEditMode ==> membersToRemove == old(membersToRemove) && membersToAdd == old(membersToAdd)
      ensures isEditMode && IsCurrentMember(user) ==>
        membersToRemove == Selection.Toggle(old(membersToRemove), user) && membersToAdd == old(membersToAdd)
      ensures isEditMode && !IsCurrentMember(user) ==>
        membersToAdd == Selection.Toggle(old(membersToAdd), user) && membersToRemove == old(membersToRemove)
    {
      if isEditMode {
        if IsCurrentMember(user) {
          HandleRemoveMember(user);
        } else {
          HandleAddMember(user);
        }
        forwarded := false;
      } else {
        forwarded := true;
      }
    }

    /** "Start Chat": the error is cleared, then set by the first check or
        answer that fails; the request and the value handed to `onClose` are
        as `StartChatOutcome` decides. */
    method HandleStartChat(reply: CreateReply) returns (request: Option<CreateChat>, closedWith: Option<Chat>)
      modifies this`error
      ensures var outcome := ChatCreation.StartChatOutcome(selectedUsers, chatName, reply);
        error == outcome.error && request == outcome.request && closedWith == outcome.closedWith
    {
      error := "";
      request, closedWith := None, None;
      if |selectedUsers| == 0 {
        error := ChatCreation.NoUsersSelected;
        return;
      }
      if Text.IsBlank(chatName) {
        error := ChatCreation.NameRequired;
        return;
      }
      request := Some(CreateChat(chatName, Selection.Ids(selectedUsers)));
      match reply {
        case NetworkError =>
          error := ChatCreation.NetworkFailed;
        case Answer(ok, text, parsed) =>
          if !ok {
            error := ChatCreation.FailedToStart;
            return;
          }
          if text != "" {
            if parsed.Some? {
              closedWith := parsed;
            } else {
              error := ChatCreation.ParseFailed;
            }
          } else {
            error := ChatCreation.NoResponseBody;
          }
      }
    }

    /** "Update Chat": a blank name shows "Chat name is required" and nothing
        is handed on; otherwise the error is cleared and `onChatUpdate`, when
        given, receives the name as typed and the final member ids. */
    method HandleUpdateChat() returns (update: Option<ChatUpdate>)
      modifies this`error
      ensures Text.AllWhitespace(chatName) ==> error == ChatCreation.NameRequired && update.None?
      ensures !Text.AllWhitespace(chatName) ==> error == ""
      ensures update.Some? <==> !Text.AllWhitespace(chatName) && hasChatUpdate
      ensures update.Some? ==>
        update.value == ChatUpdate(chatName, Selection.FinalMemberIds(currentMembers, membersToRemove, membersToAdd))
      ensures update.Some? ==> forall v: User ::
        v.id in update.value.chatMembers <==> (IsCurrentMember(v) && !IsMarkedForRemoval(v)) || IsMarkedForAddition(v)
    {
      Text.BlankIffAllWhitespace(chatName);
      forall v: User
        ensures v.id in Selection.FinalMemberIds(currentMembers, membersToRemove, membersToAdd)
          <==> (IsCurrentMember(v) && !IsMarkedForRemoval(v)) || IsMarkedForAddition(v)
      {
        Selection.FinalMemberIdsMembership(currentMembers, membersToRemove, membersToAdd, v.id);
      }
      error := "";
      if Text.IsBlank(chatName) {
        error := ChatCreation.NameRequired;
        return None;
      }
      var finalMembers := Selection.FinalMemberIds(currentMembers, membersToRemove, membersToAdd);
      update := if hasChatUpdate then Some(ChatUpdate(chatName, finalMembers)) else None;
    }
  }
}
