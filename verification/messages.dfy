/**
  The chat list of src/hooks/useMessages.ts as pure maps over a sequence
  of chats: sending a message, the per-message status updates, marking a
  chat read, and the sweep that expires secret messages. Ids and the clock
  (milliseconds) are parameters.
 */
module Messages {

  import opened Basics

  datatype MessageStatus = Sending | Sent | Delivered | Read

  datatype MessageType = Text | Emoji | Media | GameInvite | GameResult | Secret

  datatype InviteStatus = Invite | Accepted | Declined | InviteCompleted

  datatype GameData = GameData(gameId: string, status: InviteStatus, winner: Option<string>)

  datatype SecretData = SecretData(expiresAt: int, isExpired: bool, viewedBy: seq<string>)

  datatype Message = Message(
    id: string,
    senderId: string,
    receiverId: string,
    content: string,
    timestamp: int,
    status: MessageStatus,
    msgType: MessageType,
    gameData: Option<GameData>,
    secretData: Option<SecretData>)

  datatype User = User(id: string, name: string, avatar: string, isOnline: bool,
                       lastSeen: Option<int>, isTyping: Option<bool>)

  datatype Chat = Chat(id: string, participants: seq<User>, messages: seq<Message>,
                       lastMessage: Option<Message>, unreadCount: int)

  /** How long a secret message lives, in milliseconds. */
  const SecretLifetime: int := 30 * 1000

  // ---------------------------------------------------------------------
  // sendMessage
  // ---------------------------------------------------------------------

  /** `chats.find(c => c.id === chatId)`. */
  function FindChat(chats: seq<Chat>, chatId: string): (r: Option<Chat>)
    ensures r.None? <==> forall i :: 0 <= i < |chats| ==> chats[i].id != chatId
    ensures r.Some? ==> exists i :: 0 <= i < |chats| && chats[i] == r.value && chats[i].id == chatId
                                    && forall j :: 0 <= j < i ==> chats[j].id != chatId
  {
    if chats == [] then None
    else if chats[0].id == chatId then Some(chats[0])
    else
      var r := FindChat(chats[1..], chatId);
      assert forall i :: 1 <= i < |chats| ==> chats[i] == chats[1..][i - 1];
      r
  }

  /** The id of the first participant who is not `me`, or the empty string. */
  function OtherParticipant(participants: seq<User>, me: string): (r: string)
    ensures (forall i :: 0 <= i < |participants| ==> participants[i].id == me) ==> r == ""
    ensures r != "" ==> exists i :: 0 <= i < |participants| && participants[i].id == r && r != me
                                    && forall j :: 0 <= j < i ==> participants[j].id == me
    ensures forall i ::
              (0 <= i < |participants| && participants[i].id != me
               && forall j :: 0 <= j < i ==> participants[j].id == me)
              ==> r == participants[i].id
  {
    if participants == [] then ""
    else if participants[0].id != me then participants[0].id
    else
      var r := OtherParticipant(participants[1..], me);
      assert forall i :: 1 <= i < |participants| ==> participants[i] == participants[1..][i - 1];
      r
  }

  /** The message `sendMessage` builds: status "sending", and a 30-second lifetime when secret. */
  function NewMessage(id: string, me: string, receiver: string, content: string,
                      msgType: MessageType, now: int): (m: Message)
    ensures m.status == Sending && m.senderId == me && m.receiverId == receiver
    ensures m.content == content && m.msgType == msgType && m.timestamp == now && m.id == id
    ensures m.secretData.Some? <==> msgType == Secret
    ensures m.secretData.Some? ==> m.secretData.value == SecretData(now + SecretLifetime, false, [])
  {
    Message(id, me, receiver, content, now, Sending, msgType, None,
            if msgType == Secret then Some(SecretData(now + SecretLifetime, false, [])) else None)
  }

  /** `prev.map(c => c.id === chatId ? append : c)`. */
  function AppendMessage(chats: seq<Chat>, chatId: string, m: Message): (r: seq<Chat>)
    ensures |r| == |chats|
    ensures forall i :: 0 <= i < |chats| ==>
              r[i] == if chats[i].id == chatId then chats[i].(messages := chats[i].messages + [m]) else chats[i]
  {
    seq(|chats|, i requires 0 <= i < |chats| =>
      if chats[i].id == chatId then chats[i].(messages := chats[i].messages + [m]) else chats[i])
  }

  /** Whether a message of this type asks the AI for a reply: not invitations, not secrets. */
  predicate WantsAIReply(t: MessageType) {
    t != GameInvite && t != Secret
  }

  datatype SendOutcome = SendOutcome(chats: seq<Chat>, sent: Option<Message>, aiReplyRequested: bool)

  /**
    `sendMessage(chatId, content, type)`: nothing for an unknown chat;
    otherwise the new message goes at the end of that chat.
   */
  function SendMessage(chats: seq<Chat>, me: string, chatId: string, content: string,
                       msgType: MessageType, id: string, now: int): (r: SendOutcome)
    ensures FindChat(chats, chatId).None? ==> r == SendOutcome(chats, None, false)
    ensures FindChat(chats, chatId).Some? ==>
              && r.sent.Some?
              && r.sent.value == NewMessage(id, me, OtherParticipant(FindChat(chats, chatId).value.participants, me),
                                            content, msgType, now)
              && r.chats == AppendMessage(chats, chatId, r.sent.value)
              && r.aiReplyRequested == WantsAIReply(msgType)
  {
    match FindChat(chats, chatId)
    case None => SendOutcome(chats, None, false)
    case Some(chat) =>
      var m := NewMessage(id, me, OtherParticipant(chat.participants, me), content, msgType, now);
      SendOutcome(AppendMessage(chats, chatId, m), Some(m), WantsAIReply(msgType))
  }

  /** Sending touches only the target chat's messages, and only by adding one at the end. */
  lemma SendOnlyAppends(chats: seq<Chat>, me: string, chatId: string, content: string,
                        msgType: MessageType, id: string, now: int)
    ensures var r := SendMessage(chats, me, chatId, content, msgType, id, now);
      && |r.chats| == |chats|
      && forall i :: 0 <= i < |chats| ==>
           && r.chats[i].id == chats[i].id
           && r.chats[i].participants == chats[i].participants
           && r.chats[i].unreadCount == chats[i].unreadCount
           && |r.chats[i].messages| == |chats[i].messages| + (if r.sent.Some? && chats[i].id == chatId then 1 else 0)
           && r.chats[i].messages[..|chats[i].messages|] == chats[i].messages
  {
    var r := SendMessage(chats, me, chatId, content, msgType, id, now);
    forall i | 0 <= i < |chats|
      ensures r.chats[i].messages[..|chats[i].messages|] == chats[i].messages
    {
      var ms := chats[i].messages;
      if r.sent.Some? && chats[i].id == chatId {
        assert (ms + [r.sent.value])[..|ms|] == ms;
      } else {
        assert ms[..|ms|] == ms;
      }
    }
  }

  // ---------------------------------------------------------------------
  // Status updates and markAsRead
  // ---------------------------------------------------------------------

  function WithStatus(m: Message, msgId: string, status: MessageStatus): Message {
    if m.id == msgId then m.(status := status) else m
  }

  /** The delayed "sent" / "delivered" / "read" updates: one message id in one chat. */
  function SetStatus(chats: seq<Chat>, chatId: string, msgId: string, status: MessageStatus): (r: seq<Chat>)
    ensures |r| == |chats|
    ensures forall i :: 0 <= i < |chats| && chats[i].id != chatId ==> r[i] == chats[i]
    ensures forall i :: 0 <= i < |chats| && chats[i].id == chatId ==>
              && r[i] == chats[i].(messages := r[i].messages)
              && |r[i].messages| == |chats[i].messages|
              && forall k :: 0 <= k < |chats[i].messages| ==>
                   r[i].messages[k] == (if chats[i].messages[k].id == msgId
                                        then chats[i].messages[k].(status := status)
                                        else chats[i].messages[k])
  {
    seq(|chats|, i requires 0 <= i < |chats| =>
      if chats[i].id == chatId then
        chats[i].(messages := seq(|chats[i].messages|, k requires 0 <= k < |chats[i].messages| =>
                                    WithStatus(chats[i].messages[k], msgId, status)))
      else chats[i])
  }

  /** Of two status updates to the same message, the later one is what remains. */
  lemma SetStatusLastWins(chats: seq<Chat>, chatId: string, msgId: string, s1: MessageStatus, s2: MessageStatus)
    ensures SetStatus(SetStatus(chats, chatId, msgId, s1), chatId, msgId, s2) == SetStatus(chats, chatId, msgId, s2)
  {
    var once := SetStatus(chats, chatId, msgId, s1);
    var a := SetStatus(once, chatId, msgId, s2);
    var b := SetStatus(chats, chatId, msgId, s2);
    forall i | 0 <= i < |chats|
      ensures a[i] == b[i]
    {
      if chats[i].id == chatId {
        assert a[i].messages == b[i].messages;
      }
    }
  }

  /** An update for a message id the chat does not hold changes nothing. */
  lemma SetStatusUnknownIdChangesNothing(chats: seq<Chat>, chatId: string, msgId: string, status: MessageStatus)
    requires forall i, k :: 0 <= i < |chats| && chats[i].id == chatId && 0 <= k < |chats[i].messages|
                            ==> chats[i].messages[k].id != msgId
    ensures SetStatus(chats, chatId, msgId, status) == chats
  {
    var r := SetStatus(chats, chatId, msgId, status);
    forall i | 0 <= i < |chats|
      ensures r[i] == chats[i]
    {
      if chats[i].id == chatId {
        assert r[i].messages == chats[i].messages;
      }
    }
  }

  function ReadIfMine(m: Message, me: string): Message {
    if m.receiverId == me then m.(status := Read) else m
  }

  /**
    `markAsRead(chatId)`: that chat's unread count drops to 0 and every
    message addressed to `me` becomes "read"; other chats stay as they are.
   */
  function MarkAsRead(chats: seq<Chat>, chatId: string, me: string): (r: seq<Chat>)
    ensures |r| == |chats|
    ensures forall i :: 0 <= i < |chats| && chats[i].id != chatId ==> r[i] == chats[i]
    ensures forall i :: 0 <= i < |chats| && chats[i].id == chatId ==>
              && r[i].id == chats[i].id && r[i].participants == chats[i].participants
              && r[i].lastMessage == chats[i].lastMessage
              && r[i].unreadCount == 0
              && |r[i].messages| == |chats[i].messages|
              && forall k :: 0 <= k < |chats[i].messages| ==>
                   && (chats[i].messages[k].receiverId == me ==> r[i].messages[k].status == Read)
                   && r[i].messages[k] == chats[i].messages[k].(status := r[i].messages[k].status)
                   && (chats[i].messages[k].receiverId != me ==> r[i].messages[k] == chats[i].messages[k])
  {
    seq(|chats|, i requires 0 <= i < |chats| =>
      if chats[i].id == chatId then
        chats[i].(unreadCount := 0,
                  messages := seq(|chats[i].messages|, k requires 0 <= k < |chats[i].messages| =>
                                    ReadIfMine(chats[i].messages[k], me)))
      else chats[i])
  }

  lemma MarkAsReadIdempotent(chats: seq<Chat>, chatId: string, me: string)
    ensures MarkAsRead(MarkAsRead(chats, chatId, me), chatId, me) == MarkAsRead(chats, chatId, me)
  {
    var once := MarkAsRead(chats, chatId, me);
    var twice := MarkAsRead(once, chatId, me);
    forall i | 0 <= i < |chats|
      ensures twice[i] == once[i]
    {
      if chats[i].id == chatId {
        assert twice[i].messages == once[i].messages;
      }
    }
  }

  // ---------------------------------------------------------------------
  // Secret-message expiry
  // ---------------------------------------------------------------------

  /** The sweep's test: a secret, not yet expired, whose time has come. */
  predicate DueToExpire(m: Message, now: int) {
    m.msgType == Secret && m.secretData.Some? && !m.secretData.value.isExpired
    && now >= m.secretData.value.expiresAt
  }

  predicate IsExpired(m: Message) {
    m.secretData.Some? && m.secretData.value.isExpired
  }

  function ExpireMessage(m: Message, now: int): (r: Message)
    ensures DueToExpire(m, now) ==> r == m.(secretData := Some(m.secretData.value.(isExpired := true)))
    ensures !DueToExpire(m, now) ==> r == m
  {
    if DueToExpire(m, now) then m.(secretData := Some(m.secretData.value.(isExpired := true))) else m
  }

  /** The once-a-second sweep at time `now`, over every chat. */
  function ExpireSweep(chats: seq<Chat>, now: int): (r: seq<Chat>)
    ensures |r| == |chats|
    ensures forall i :: 0 <= i < |chats| ==>
              && r[i] == chats[i].(messages := r[i].messages)
              && |r[i].messages| == |chats[i].messages|
              && forall k :: 0 <= k < |chats[i].messages| ==>
                   r[i].messages[k] == ExpireMessage(chats[i].messages[k], now)
  {
    seq(|chats|, i requires 0 <= i < |chats| =>
      chats[i].(messages := seq(|chats[i].messages|, k requires 0 <= k < |chats[i].messages| =>
                                  ExpireMessage(chats[i].messages[k], now))))
  }

  /**
    After the sweep a message is expired exactly when it already was or it was
    due; nothing is ever un-expired, and nothing but the flag changes.
   */
  lemma SweepExpiresExactlyTheDue(chats: seq<Chat>, now: int, i: nat, k: nat)
    requires i < |chats| && k < |chats[i].messages|
    ensures var m := chats[i].messages[k]; var m' := ExpireSweep(chats, now)[i].messages[k];
      && (IsExpired(m') <==> IsExpired(m) || DueToExpire(m, now))
      && m'.(secretData := m.secretData) == m
      && (m.secretData.Some? <==> m'.secretData.Some?)
      && (m.secretData.Some? ==> m'.secretData.value.(isExpired := m.secretData.value.isExpired) == m.secretData.value)
  {
  }

  /** A later sweep subsumes an earlier one: sweeping at t1 then t2 >= t1 is sweeping at t2. */
  lemma SweepsCompose(chats: seq<Chat>, t1: int, t2: int)
    requires t1 <= t2
    ensures ExpireSweep(ExpireSweep(chats, t1), t2) == ExpireSweep(chats, t2)
  {
    var a := ExpireSweep(ExpireSweep(chats, t1), t2);
    var b := ExpireSweep(chats, t2);
    forall i | 0 <= i < |chats|
      ensures a[i] == b[i]
    {
      assert a[i].messages == b[i].messages;
    }
  }

  /** Sweeping twice at the same time is sweeping once. */
  lemma SweepIdempotent(chats: seq<Chat>, now: int)
    ensures ExpireSweep(ExpireSweep(chats, now), now) == ExpireSweep(chats, now)
  {
    SweepsCompose(chats, now, now);
  }
}
