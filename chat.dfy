/** The direct-messages page: avatar initials of a participant and the
    message composer. */
module Chat {
  import opened Wrappers
  import opened JsText
  import opened Names
  import RoomChat

  /** `name?.split(' ').map(n => n[0]).join('').toUpperCase() || 'U'`. */
  function GetInitials(name: Option<string>): (r: string)
    ensures r != ""
    ensures name.None? ==> r == "U"
  {
    var initials := if name.Some? then Upper(WordInitials(name.value)) else "";
    if initials == "" then "U" else initials
  }

  /** One uppercased initial per word of the name, in word order; "U" when
      the name is missing, empty or only spaces. */
  lemma GetInitialsOfWords(name: Option<string>)
    ensures var spaces := name.None? || forall i :: 0 <= i < |name.value| ==> name.value[i] == ' ';
            && (spaces ==> GetInitials(name) == "U")
            && (!spaces ==> |GetInitials(name)| == |Words(name.value)|
                            && forall k :: 0 <= k < |Words(name.value)| ==>
                                 GetInitials(name)[k] == UpperChar(Words(name.value)[k][0]))
  {
    if name.Some? {
      NoInitialsIffOnlySpaces(name.value);
      InitialsOfWords(name.value);
    }
  }

  /** The row `sendMessage` inserts into `messages`. */
  datatype ChatMessage = ChatMessage(conversationId: string, senderId: string, content: string)

  /** `sendMessage` up to the insert: nothing when the draft trims to empty
      or there is no selected conversation or user; otherwise the trimmed
      draft. */
  function SendAttempt(draft: string, conversation: Option<string>, user: Option<string>): (r: Option<ChatMessage>)
    ensures r.None? <==> IsBlank(draft) || !Truthy(conversation) || !Truthy(user)
    ensures r.Some? ==> && r.value.conversationId == conversation.value && r.value.senderId == user.value
                        && r.value.content == Trim(draft) && r.value.content != ""
  {
    if IsBlank(draft) || !Truthy(conversation) || !Truthy(user) then None
    else Some(ChatMessage(conversation.value, user.value, Trim(draft)))
  }

  /** With a signed-in user, a direct message and a room message sent from
      the same draft carry the same text. */
  lemma SameTextAsRoomChat(draft: string, conversation: Option<string>, user: Option<string>)
    requires Truthy(user)
    ensures SendAttempt(draft, conversation, user).Some? <==> RoomChat.SendAttempt(conversation, user, draft).Some?
    ensures SendAttempt(draft, conversation, user).Some? ==>
              SendAttempt(draft, conversation, user).value.content
              == RoomChat.SendAttempt(conversation, user, draft).value.content
  {
  }

  /** The composer's `newMessage` state. */
  class ChatComposer {
    var newMessage: string

    constructor()
      ensures newMessage == ""
    {
      newMessage := "";
    }

    method EditDraft(value: string)
      modifies this
      ensures newMessage == value
    {
      newMessage := value;
    }

    /** `sendMessage`, with the insert's outcome as `insertFailed`: the draft
        is cleared only after a successful insert and otherwise kept exactly
        as typed. */
    method Send(conversation: Option<string>, user: Option<string>, insertFailed: bool)
      returns (outgoing: Option<ChatMessage>)
      modifies this
      ensures outgoing == SendAttempt(old(newMessage), conversation, user)
      ensures newMessage == if outgoing.Some? && !insertFailed then "" else old(newMessage)
    {
      outgoing := SendAttempt(newMessage, conversation, user);
      if outgoing.Some? && !insertFailed {
        newMessage := "";
      }
    }
  }
}
