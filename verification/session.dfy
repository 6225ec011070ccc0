/** Session-id resolution (`Main._get_session_id` in main.py): the key under
    which a message event's memories are stored and looked up. */
module Session {
  import opened Wrappers

  /** The fields of a message event the plugin reads. `unifiedMsgOrigin` is
      `None` when the event has no `unified_msg_origin` attribute;
      `sessionId` is `str(event.session_id)`. An empty `groupId` is a
      private chat. */
  datatype Event = Event(
    groupId: string,
    unifiedMsgOrigin: Option<string>,
    sessionId: string,
    messageStr: string,
    senderName: string,
    senderId: string)

  /** The id every group chat shares while global memory is on. */
  const GlobalId: string := "global"

  /** The id the host framework gives the conversation itself. */
  function HostId(e: Event): string
  {
    if e.unifiedMsgOrigin.Some? then e.unifiedMsgOrigin.value else e.sessionId
  }

  /** `_get_session_id`: group chats share `"global"` in global mode;
      everything else uses the host's id for the conversation. */
  function SessionId(e: Event, globalMemory: bool): (sid: string)
    ensures e.groupId != [] && globalMemory ==> sid == GlobalId
    ensures !(e.groupId != [] && globalMemory) ==> sid == HostId(e)
  {
    if e.groupId != [] && globalMemory then GlobalId
    else if e.unifiedMsgOrigin.Some? then e.unifiedMsgOrigin.value
    else e.sessionId
  }

  /** As long as the host never calls a conversation "global", an event
      resolves to "global" exactly when it comes from a group and global
      memory is on. */
  lemma GlobalExactly(e: Event, globalMemory: bool)
    requires HostId(e) != GlobalId
    ensures SessionId(e, globalMemory) == GlobalId <==> e.groupId != [] && globalMemory
  {
  }

  /** In global mode all group chats, whoever sends and wherever, read and
      write one bucket. */
  lemma GroupsShareOneBucket(e1: Event, e2: Event)
    requires e1.groupId != [] && e2.groupId != []
    ensures SessionId(e1, true) == SessionId(e2, true)
  {
  }

  /** The global switch never changes where a private chat's memories go. */
  lemma PrivateChatsIgnoreGlobalMode(e: Event)
    requires e.groupId == []
    ensures SessionId(e, true) == SessionId(e, false) == HostId(e)
  {
  }
}
