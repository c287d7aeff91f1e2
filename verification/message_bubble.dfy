/**
  The secret-message bubble of src/components/chat/MessageBubble.tsx: the
  countdown it shows, the tick that marks the message expired, the click
  that reveals it, and what the bubble renders. The clock is a parameter
  in milliseconds.
 */
module MessageBubble {

  import opened Basics
  import opened Text
  import opened Messages

  /** Whole seconds left before `expiresAt`, never negative. */
  function Remaining(expiresAt: int, now: int): (r: nat)
    ensures now >= expiresAt ==> r == 0
    ensures now < expiresAt ==> r * 1000 <= expiresAt - now < (r + 1) * 1000
    ensures r == 0 <==> expiresAt - now < 1000
  {
    var q := (expiresAt - now) / 1000;
    if q < 0 then 0 else q
  }

  /** `formatTime`: minutes as they come, a colon, seconds padded to two digits. */
  function FormatTime(seconds: nat): (r: string)
    ensures |r| >= 4 && r[|r| - 3] == ':'
    ensures r[..|r| - 3] == NatToString(seconds / 60)
    ensures r[|r| - 2..] == PadStart(NatToString(seconds % 60), 2, '0')
  {
    var mins := NatToString(seconds / 60);
    var secs := PadStart(NatToString(seconds % 60), 2, '0');
    assert |secs| == 2;
    var r := mins + [':'] + secs;
    assert r[..|r| - 3] == mins;
    assert r[|r| - 2..] == secs;
    r
  }

  lemma FieldsRecombine(mins: string, secs: string, seconds: nat)
    requires mins == NatToString(seconds / 60) && secs == PadStart(NatToString(seconds % 60), 2, '0')
    ensures AllDigits(mins) && AllDigits(secs)
    ensures ParseDecimal(secs) < 60 && ParseDecimal(mins) * 60 + ParseDecimal(secs) == seconds
  {
    MinutesSeconds(seconds);
    ReadsBack(mins, seconds / 60);
    PaddedReadsBack(secs, seconds % 60, 2);
  }

  /** The two fields read back as minutes and seconds, and recombine to the input. */
  lemma FormatTimeRoundTrip(seconds: nat)
    ensures ReadsAsClock(FormatTime(seconds), seconds)
  {
    var t := FormatTime(seconds);
    FieldsRecombine(t[..|t| - 3], t[|t| - 2..], seconds);
  }

  /** What one run of `updateTimer` produces: the countdown and the message as it leaves it. */
  datatype Tick = Tick(timeLeft: Option<nat>, message: Message)

  /**
    `updateTimer` at time `now`: only a secret with secret data has a
    countdown; it marks the message expired once the countdown reads 0.
   */
  function TimerTick(m: Message, now: int): (r: Tick)
    ensures r.timeLeft.Some? <==> m.msgType == Secret && m.secretData.Some?
    ensures r.timeLeft.Some? ==> r.timeLeft.value == Remaining(m.secretData.value.expiresAt, now)
    ensures IsExpired(r.message) <==>
              IsExpired(m) || (m.msgType == Secret && m.secretData.Some? && now > m.secretData.value.expiresAt - 1000)
    ensures r.message == m || (m.secretData.Some? && r.message == m.(secretData := Some(m.secretData.value.(isExpired := true))))
  {
    if m.msgType == Secret && m.secretData.Some? then
      var left := Remaining(m.secretData.value.expiresAt, now);
      if left == 0 && !m.secretData.value.isExpired then
        Tick(Some(left), m.(secretData := Some(m.secretData.value.(isExpired := true))))
      else Tick(Some(left), m)
    else Tick(None, m)
  }

  /**
    The tick writes its flag into the message object it was handed, which is
    the entry `k` of chat `i` in the chat list: the list sees the flag at once.
   */
  function TickInChats(chats: seq<Chat>, i: nat, k: nat, now: int): (r: seq<Chat>)
    requires i < |chats| && k < |chats[i].messages|
    ensures |r| == |chats|
    ensures forall j :: 0 <= j < |chats| && j != i ==> r[j] == chats[j]
    ensures r[i] == chats[i].(messages := r[i].messages) && |r[i].messages| == |chats[i].messages|
    ensures forall l :: 0 <= l < |chats[i].messages| && l != k ==> r[i].messages[l] == chats[i].messages[l]
    ensures r[i].messages[k] == TimerTick(chats[i].messages[k], now).message
  {
    var c := chats[i];
    chats[i := c.(messages := c.messages[k := TimerTick(c.messages[k], now).message])]
  }

  /**
    Once the secret is past its expiry, the sweep turns a chat list that
    received the bubble's early flag and one that did not into the same list.
   */
  lemma EarlyFlagAgreesWithSweep(chats: seq<Chat>, i: nat, k: nat, now: int, t: int)
    requires i < |chats| && k < |chats[i].messages|
    requires chats[i].messages[k].secretData.Some? ==> t >= chats[i].messages[k].secretData.value.expiresAt
    ensures ExpireSweep(TickInChats(chats, i, k, now), t) == ExpireSweep(chats, t)
  {
    var ticked := TickInChats(chats, i, k, now);
    var a, b := ExpireSweep(ticked, t), ExpireSweep(chats, t);
    forall j | 0 <= j < |chats|
      ensures a[j] == b[j]
    {
      if j == i {
        forall l | 0 <= l < |chats[i].messages|
          ensures a[i].messages[l] == b[i].messages[l]
        {
          if l == k {
            var m := chats[i].messages[k];
            assert ExpireMessage(TimerTick(m, now).message, t) == ExpireMessage(m, t);
          }
        }
        assert a[i].messages == b[i].messages;
      }
    }
  }

  /**
    In the last second before expiry a rendered secret is already expired in
    the chat list, where the sweep at the same time would not yet expire it.
   */
  lemma ChatListSeesEarlyFlag(chats: seq<Chat>, i: nat, k: nat, now: int)
    requires i < |chats| && k < |chats[i].messages|
    requires var m := chats[i].messages[k];
      m.msgType == Secret && m.secretData.Some? && !m.secretData.value.isExpired
      && m.secretData.value.expiresAt - 1000 < now < m.secretData.value.expiresAt
    ensures IsExpired(TickInChats(chats, i, k, now)[i].messages[k])
    ensures !IsExpired(ExpireSweep(chats, now)[i].messages[k])
  {
    BubbleExpiresInLastSecond(chats[i].messages[k], now);
  }

  /** Whatever the chat-wide sweep would expire, the bubble's own tick expires too. */
  lemma BubbleExpiresNoLaterThanSweep(m: Message, now: int)
    requires DueToExpire(m, now)
    ensures TimerTick(m, now).message == ExpireMessage(m, now)
  {
  }

  /**
    In the last second before `expiresAt` the bubble already marks the
    message expired, while the sweep leaves it alone.
   */
  lemma BubbleExpiresInLastSecond(m: Message, now: int)
    requires m.msgType == Secret && m.secretData.Some? && !m.secretData.value.isExpired
    requires m.secretData.value.expiresAt - 1000 < now < m.secretData.value.expiresAt
    ensures IsExpired(TimerTick(m, now).message)
    ensures ExpireMessage(m, now) == m && !IsExpired(m)
  {
  }

  /** The outcome of a click: whether the secret is now revealed, and the id reported as viewed. */
  datatype Click = Click(revealed: bool, viewed: Option<string>)

  /**
    `handleSecretMessageClick`: reveal a secret that is neither revealed nor
    expired, and report it to the `onSecretMessageView` callback if there is one.
   */
  function HandleClick(m: Message, revealed: bool, hasViewCallback: bool): (r: Click)
    ensures r.revealed <==> revealed || (m.msgType == Secret && !IsExpired(m))
    ensures r.viewed.Some? <==> !revealed && m.msgType == Secret && !IsExpired(m) && hasViewCallback
    ensures r.viewed.Some? ==> r.viewed.value == m.id
  {
    if m.msgType == Secret && !revealed && !IsExpired(m) then
      Click(true, if hasViewCallback then Some(m.id) else None)
    else Click(revealed, None)
  }

  /** What the bubble's body shows. */
  datatype Body =
    | PlainText(text: string)
    | ExpiredNotice
    | Concealed(timer: Option<string>)
    | SecretText(text: string, timer: Option<string>)

  /** The body: plain content unless secret; for a secret, expired first, then concealed, then the text. */
  function Render(m: Message, revealed: bool, timeLeft: Option<nat>): (r: Body)
    ensures m.msgType != Secret <==> r.PlainText?
    ensures m.msgType == Secret && IsExpired(m) <==> r.ExpiredNotice?
    ensures r.SecretText? <==> m.msgType == Secret && !IsExpired(m) && revealed
    ensures r.PlainText? || r.SecretText? ==> r.text == m.content
    ensures r.Concealed? || r.SecretText? ==> (r.timer.Some? <==> timeLeft.Some?)
    ensures (r.Concealed? || r.SecretText?) && timeLeft.Some? ==> r.timer == Some(FormatTime(timeLeft.value))
  {
    var timer := if timeLeft.Some? then Some(FormatTime(timeLeft.value)) else None;
    if m.msgType != Secret then PlainText(m.content)
    else if IsExpired(m) then ExpiredNotice
    else if !revealed then Concealed(timer)
    else SecretText(m.content, timer)
  }

  /** The content of a secret is shown exactly after a click that found it unexpired. */
  lemma ClickShowsSecret(m: Message, hasViewCallback: bool, timeLeft: Option<nat>)
    requires m.msgType == Secret
    ensures var c := HandleClick(m, false, hasViewCallback);
      Render(m, c.revealed, timeLeft) ==
        if IsExpired(m) then ExpiredNotice
        else SecretText(m.content, if timeLeft.Some? then Some(FormatTime(timeLeft.value)) else None)
  {
  }

  /** Once the tick has expired a secret, no reveal state shows its content again. */
  lemma ExpiredStaysHidden(m: Message, now: int, revealed: bool, timeLeft: Option<nat>)
    requires m.msgType == Secret && m.secretData.Some? && now >= m.secretData.value.expiresAt
    ensures Render(TimerTick(m, now).message, revealed, timeLeft) == ExpiredNotice
  {
  }
}
