# Chat client state model

This project models the client-side state of a realtime chat web client. The
client is a React page plus three form components. The page holds a chat
directory (`chats`), the message timeline of the open chat (`chatMessages`),
an unread list (`unreadMessages`), the open chat (`selectedChat`), search
results and the users picked for a new chat. The forms hold a chat name, an
error line and, in edit mode, the members to add and remove.

Every handler is a state transition. Components whose fields the handlers
replace are Dafny classes: `ChatsPage.Chats`, `ModalDialog.Modal`,
`SearchBar.SearchModal` and `Input.MessageInput`. The updater bodies
(`some`, `filter`, `map`, spread-append, null-to-`[]`) are functions in
`Timeline`, `Directory` and `Selection`, with lemmas about them. A network
answer a handler waits for is a method parameter. The chat-message POST
and the chat-creation POST are results of their handlers, and so is the
chat id of the mark-read request.

What is proved:

- **One de-duplicating append.** Pushes and send answers go through
  `Timeline.AppendIfAbsent`. Any sequence of them keeps the old timeline as
  a prefix, and adds exactly the first occurrence of each new id, in arrival
  order (`Timeline.ReplayAppendsFirstSeen`, against the reference definition
  `FirstSeen`). A timeline without duplicate ids stays without them.
- **Push routing.** A push for a known chat that the listener does not see
  as open appends exactly one bare id to the unread list. Every other push
  asks for the directory again. The directory itself is never changed.
- **The unread list has two shapes, modelled as written.** The listener
  appends bare chat ids (`PushedId`). The NEW badge only reads `chat_id`
  fields, which only `unread` stream records (`Entry`) carry.
  `Directory.PushedMarkNotShown` proves that a bare-id append never changes
  what the badge shows.
- **The listener's selection can be stale.** The `msg` listener closes over
  the selection it saw when its effect last ran. That effect re-runs only
  when `token` or `unreadMessages` change. The model keeps that selection in
  `listenerChat`, refreshed by `Resubscribe`. `Resubscribe` requires the
  flag `unreadChanged`, which only a change of the unread list sets.
  `ChatsPage.StaleListenerSession` shows the consequence. After a chat of
  the directory is opened, a push for it stays out of the timeline and marks
  it unread. That change of the unread list makes the effect run again, and
  the new listener sees the chat as open. So only the pushes that arrive
  before that re-run are lost from the timeline.
- **Answers apply to the state they find.** Sending and editing are each
  a request method and an answer method. A send answer is appended to
  whichever timeline is shown when it arrives. An edit answer is merged
  into the selection when the edited chat was open at request time, into
  whatever is selected at answer time. `ChatsPage.LateAnswersSession` shows
  both: another chat takes on the edited chat's fields, and a closed chat
  comes back as the answer.
- **Toggle-by-id lists.** Toggling flips whether an id is present and leaves
  other users alone. Toggling an absent user twice restores the list. The
  edit form submits the current members not marked for removal, in order,
  then the added users.
- **Form rules.** Chat creation checks, in order: no users, blank name,
  status, empty body, parse. Exactly one of "an error is shown" and
  "`onClose` gets the chat" happens. A blank name blocks an update. A
  whitespace-only message is neither sent nor cleared; any other message is
  sent untrimmed and the box is emptied.

"Blank" is JavaScript's `s.trim() === ""`. `Text.Trim` uses ECMAScript's
whitespace and line-terminator code points, and
`Text.BlankIffAllWhitespace` proves it equals "every character is
whitespace".

Behaviours of the code that the model keeps:

- A push for the open chat also triggers a directory re-fetch.
- Opening a chat does not clear its local unread entry; it only posts a
  mark-read request.
- A history answer is applied whichever chat is open when it arrives; there
  is no stale-response guard.
- The message box is cleared after a non-blank send, whether or not the send
  succeeds.
- An `unread` event replaces the list wholesale, with no exception for the
  open chat.
- An edit answer is merged whatever its HTTP status: a JSON error body is
  spread over the chat and, when the test made at request time held, over
  the selection, like a successful answer.

## Model

| member | source | states |
|---|---|---|
| Text.TrimStart | components/message_input.tsx:9 | only leading whitespace is dropped, and what is left is empty or starts with a visible character |
| Text.TrimEnd | components/message_input.tsx:9 | only trailing whitespace is dropped, and what is left is empty or ends with a visible character |
| Text.BlankIffAllWhitespace | components/message_input.tsx:9 | `trim() === ""` holds exactly when every character is ECMAScript whitespace, so the empty string is blank and one visible character makes a string non-blank |
| Selection.WithoutUser | app/chats/page.tsx:201 | the filtered list has no user with the id, keeps every other user of the input and nothing else, is shorter when the id was present, and is the input when it was absent |
| Selection.WithoutUserAppend | app/chats/page.tsx:201 | filtering distributes over concatenation, so the users that stay keep their relative order |
| Selection.Toggle | app/chats/page.tsx:199-204 | after a toggle the id is present exactly when it was absent before; users with other ids are untouched; an absent user is appended at the end; a present id only removes entries |
| Selection.ToggleTwice | app/chats/page.tsx:199-204 | toggling a user whose id is absent twice gives the original list back |
| Selection.Ids | components/modal.tsx:136 | the id list has one entry per user, position by position |
| Selection.KeepUnmarked | components/modal.tsx:132 | keeps exactly the current members whose id is not marked for removal, never more entries than there were, and all of them when nothing is marked |
| Selection.KeepUnmarkedAppend | components/modal.tsx:132 | the filter distributes over concatenation, so the kept members keep their order and multiplicity in the current list |
| Selection.IdsHas | components/modal.tsx:74-76 | an id is among a list's mapped ids exactly when some user of the list has it |
| Selection.FinalMemberIds | components/modal.tsx:131-136 | the submitted ids are the kept current members' ids, in order, followed by the ids of the users to add, in order |
| Selection.FinalMemberIdsMembership | components/modal.tsx:131-136 | an id is submitted exactly when it is a current member's id not marked for removal, or an id marked for addition |
| Selection.NoEditsKeepMembers | components/modal.tsx:131-136 | with no marks either way, the submitted ids are the current members' ids |
| Timeline.AppendIfAbsent | app/chats/page.tsx:125-132 | the old timeline stays a prefix; at most one entry is added, exactly when the id was absent, and it is the message; the id is present afterwards; unique ids stay unique |
| Timeline.Step | app/chats/page.tsx:124-132 | an arrival changes the timeline only when it delivers a message (a push for the chat the listener sees as open, or a successful send answer), and then through the de-duplicating append |
| Timeline.FirstSeenIds | app/chats/page.tsx:127-131 | an id is among the first-seen arrivals exactly when some arrival has it and the timeline did not |
| Timeline.ReplayAppendsFirstSeen | app/chats/page.tsx:124-132 | any sequence of pushes and send answers yields the old timeline followed by the first occurrence of each new id, in arrival order, and keeps ids unique |
| Timeline.EchoAfterSendIsAbsorbed | app/chats/page.tsx:229-236 | a send answer followed by a stream echo with the same id leaves the timeline as the send alone left it |
| Directory.RoutePush | app/chats/page.tsx:135-148 | the routing decision of the `msg` listener in closed form: mark unread exactly for a chat in the directory that the listener does not see as open, re-fetch otherwise; `OnPush`'s search loop is proved to decide the same |
| Directory.AddUnread | app/chats/page.tsx:139-142 | whether the list was `null` or not, the result is the previous entries followed by exactly one bare chat id, with no de-duplication |
| Directory.PushedMarkNotShown | app/chats/page.tsx:394 | appending a bare id never changes whether any chat shows the NEW badge, because the badge reads `chat_id` |
| Directory.WithoutChat | app/chats/page.tsx:309 | no chat with the deleted id remains; every other chat stays; an absent id leaves the directory as it was |
| Directory.WithoutChatAppend | app/chats/page.tsx:309 | removal distributes over concatenation, so the remaining chats keep their order |
| Directory.MergeIdempotent | app/chats/page.tsx:327 | merging the same answer twice equals merging it once, and an empty answer leaves a chat unchanged |
| Directory.MergeSelection | app/chats/page.tsx:331 | over an open chat the answer is merged in as in the directory; over a closed chat the answer alone becomes the selection |
| Directory.FullAnswerReplacesSelection | app/chats/page.tsx:331 | an answer carrying id, name and members turns any selection, or none, into exactly the answer's chat |
| Directory.SelectionFollowsDirectory | app/chats/page.tsx:325-332 | when the edited chat is the open one and stays open, the selection and its directory entry receive the same merge and still agree |
| Directory.ApplyEdit | app/chats/page.tsx:325-329 | same length; the chats with the edited id get the answer merged in and all others stay in place unchanged |
| Directory.ApplyEditIdempotent | app/chats/page.tsx:325-329 | applying the same edit answer twice gives the directory one application gave, even when the answer changes the id |
| Directory.ApplyEditUnknown | app/chats/page.tsx:325-329 | an edit answer for a chat not in the directory changes nothing |
| ChatsPage.Chats.constructor | app/chats/page.tsx:13-24 | the page starts with no user, no chats, no selection, an empty timeline and unread list, a listener that sees no open chat, and no pending change of the unread list |
| ChatsPage.Chats.SetUserData | app/chats/page.tsx:39-40 | the current user is stored |
| ChatsPage.Chats.LoadDirectory | app/chats/page.tsx:64-65 | the directory answer replaces the directory as it came |
| ChatsPage.Chats.SelectChat | app/chats/page.tsx:399-402 | opening a chat selects it and returns its id for the mark-read request; nothing else changes |
| ChatsPage.Chats.CloseChat | app/chats/page.tsx:497 | the back button clears the selection and nothing else |
| ChatsPage.Chats.OnHistory | app/chats/page.tsx:89-103 | a failed history request keeps the timeline, `null` empties it, and a list replaces it |
| ChatsPage.Chats.Resubscribe | app/chats/page.tsx:160-170 | the listener is registered again only after the unread list changed, and then sees the current selection; the change is consumed |
| ChatsPage.Chats.OnPush | app/chats/page.tsx:121-149 | `refetch` is exactly `RoutePush`'s re-fetch decision; the message is appended, if its id is absent, only when the listener sees its chat as open; a known chat not seen as open gets exactly one unread id and no re-fetch; any other push re-fetches and leaves the unread list; the effect becomes due exactly when an id was appended; the directory is unchanged; unique ids stay unique |
| ChatsPage.Chats.OnUnreadSnapshot | app/chats/page.tsx:249-253 | an `unread` event replaces the unread list wholesale, `null` included, and makes the effect due unless `null` replaces `null` |
| ChatsPage.Chats.IsUnreadChat | app/chats/page.tsx:394 | the badge shows exactly when the unread list holds a `chat_id` record for the chat and the chat is not the open one |
| ChatsPage.Chats.Search | app/chats/page.tsx:172-197 | a blank query empties the results without a request; otherwise `null` empties them, a list replaces them, and a failure keeps them |
| ChatsPage.Chats.HandleUserSelect | app/chats/page.tsx:199-204 | the selected users are toggled by the user's id |
| ChatsPage.Chats.HandleSendMessage | app/chats/page.tsx:206-222 | a request carrying the open chat, the user's id and the content is made exactly when a chat is open and the user is known, and nothing changes |
| ChatsPage.Chats.OnSendAnswer | app/chats/page.tsx:224-239 | only a successful answer reaches the timeline, through the de-duplicating append, whichever chat is open when it arrives; unique ids stay unique |
| ChatsPage.Chats.HandleDeleteChat | app/chats/page.tsx:295-312 | once the server answered, with any status, the chat leaves the directory and the timeline and selection are cleared; a request that got no answer changes nothing |
| ChatsPage.Chats.HandleEditChat | app/chats/page.tsx:314-322 | the answer callback closes over the selection of this moment, so whether the answer will be merged into the selection (the test of line 330) is fixed now: exactly when the edited chat is open; nothing changes |
| ChatsPage.Chats.OnEditAnswer | app/chats/page.tsx:322-335 | a rejected request or a non-JSON body changes nothing; any JSON answer, whatever its status, is merged into the chats with that id and, when the request-time test held, into the selection found at answer time; otherwise the selection is untouched |
| ChatsPage.Chats.FetchChatMembers | app/chats/page.tsx:338-358 | a list answer is stored; `null` or any failure leaves no members |
| ChatCreation.StartChatOutcome | components/search_bar.tsx:27-67 | checks run in order (no users, then blank name, neither posting); a posted attempt reports network failure, non-ok status whatever the body, empty body, or unparsable body; a parsed body goes to `onClose` with no error; exactly one of error and close happens |
| ModalDialog.Modal.constructor | components/modal.tsx:25-41 | the form starts with its props, an empty name and error, and empty marking lists |
| ModalDialog.Modal.InitEditMode | components/modal.tsx:44-50 | in edit mode with a chat, the name becomes the chat's name or "" and both marking lists are emptied; otherwise nothing changes |
| ModalDialog.Modal.SetChatName | components/modal.tsx:282 | typing replaces the chat name |
| ModalDialog.Modal.IsCurrentMember | components/modal.tsx:74 | a user is a current member exactly when their id is among the current members' ids |
| ModalDialog.Modal.IsMarkedForRemoval | components/modal.tsx:75 | a user is marked for removal exactly when their id is among the ids marked for removal |
| ModalDialog.Modal.IsMarkedForAddition | components/modal.tsx:76 | a user is marked for addition exactly when their id is among the ids marked for addition |
| ModalDialog.Modal.HandleRemoveMember | components/modal.tsx:54-62 | the removal list is toggled by id, so the member's removal mark flips, and the addition list is untouched |
| ModalDialog.Modal.HandleAddMember | components/modal.tsx:64-72 | the addition list is toggled by id, so the user's addition mark flips, and the removal list is untouched |
| ModalDialog.Modal.HandleResultClick | components/modal.tsx:244-256 | in edit mode, a current member toggles the removal list and anyone else toggles the addition list; in create mode the click only goes to `onUserSelect` |
| ModalDialog.Modal.HandleStartChat | components/modal.tsx:78-118 | the error, the request and the value handed to `onClose` are those of `StartChatOutcome` for the selected users, the name and the answer |
| ModalDialog.Modal.HandleUpdateChat | components/modal.tsx:120-141 | a blank name shows "Chat name is required" and hands nothing on; otherwise the error is cleared and `onChatUpdate`, when given, gets the name as typed and the final member ids, among which a user's id occurs exactly when the user is a current member not marked for removal or is marked for addition |
| SearchBar.SearchModal.constructor | components/search_bar.tsx:22-24 | the form starts with its selected users and an empty name and error |
| SearchBar.SearchModal.SetChatName | components/search_bar.tsx:108 | typing replaces the chat name |
| SearchBar.SearchModal.HandleStartChat | components/search_bar.tsx:27-67 | the same decision as the chat form: "No users selected" wins over a blank name, a non-ok status gives "Failed to start chat", and the error is reset first, so one attempt leaves one message at most |
| Input.MessageInput.constructor | components/message_input.tsx:6 | the box starts empty |
| Input.MessageInput.SetMessage | components/message_input.tsx:16 | typing replaces the message |
| Input.MessageInput.HandleSendMessage | components/message_input.tsx:8-13 | a whitespace-only message is neither sent nor cleared; any other is sent exactly as typed and the box becomes empty |

## Left out

- Stream plumbing is not modelled: opening and closing the event sources, `onopen`/`onerror` logging, and closing the old connection when the effect re-runs (app/chats/page.tsx:111-170, 243-278). Only the listener bodies are modelled; `Resubscribe` stands for the effect re-running.
- The session token is fixed for the life of the page, so a token change never re-runs the stream effect.
- When things run is not modelled: the environment decides when each handler and each answer method runs and in what order. Each React updater is applied whole.
- Directory.MergeSelection: an answer without an `id` spread over a closed chat gives the source an id-less object as the selection; the model leaves the chat closed then. An answer without members gives `[]` where the source has no field.
- The double call of updaters in React's development strict mode, which would append two unread ids (app/chats/page.tsx:139-142), is not modelled.
- ChatsPage.Chats.HandleEditChat: the PATCH body it sends (`updatedBody`, app/chats/page.tsx:314, 321) is not modelled; it is handed through unchanged.
- ChatsPage.Chats.HandleDeleteChat: the DELETE request it sends (app/chats/page.tsx:297-303) is not a result of the model; only whether it got an answer is, as the `answered` parameter.
- `fetchUserData` and `fetchChats` failures (app/chats/page.tsx:41-43, 67-69) change no state and are not modelled. A `null` directory answer is not modelled either, so the `if (prevChats)` guard of the listener always holds.
- `markChatAsRead` (app/chats/page.tsx:280-293) is represented only by the chat id that `SelectChat` returns. Its request and its logging are left out.
- Parent wiring is not modelled: the create form's `onClose` (app/chats/page.tsx:448-457), the edit form's `onClose` and `onChatUpdate` (app/chats/page.tsx:470-488), and opening the edit form (app/chats/page.tsx:412-418). They only chain handlers that are modelled.
- JSON bodies of an unexpected shape are not modelled: a non-list search answer stored because the status is not checked, a `null` send answer (its updater would throw while rendering), and a patch field explicitly set to `null`. Network answers are typed values.
- Ids are integers. The `+user.id` conversion of a string id is taken as the identity.
- Rendering, scroll-to-bottom and time formatting are UI and locale-dependent, so they are left out (app/chats/page.tsx:361-367, 527).
- The login page, the inner `SearchBar` query forms, `fab.tsx`, `layout.tsx` and the styling configuration are not part of this model.
