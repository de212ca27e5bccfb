/** The state machine of the chat component as a pure function: the session
    state, the three kinds of event the component's `update` handles, the
    transition function, and its fold over a sequence of events. */
module ChatReducer {
  import opened Wrappers
  import opened ChatProtocol

  /** The component's state: the display mode, the roster, the message log,
      and the envelopes handed to the websocket channel so far. */
  datatype Session = Session(darkMode: bool, users: seq<UserProfile>, messages: seq<MessageData>, outbox: seq<WebSocketMessage>)

  /** The events `update` handles. `HandleMsg` carries the raw text from the
      event bus. `SubmitMessage` carries what the DOM supplies: the input's
      value, or `None` when the input reference is not bound, and whether the
      channel accepts the send. */
  datatype Msg = HandleMsg(text: string) | SubmitMessage(input: Option<string>, sendOk: bool) | ToggleDarkMode

  /** The `unwrap` calls of `update` that can panic. */
  datatype Panic = EnvelopeUnparsable | MessageDataMissing | MessageDataUnparsable

  /** What `update` reports besides the new state: whether to re-render, and
      whether it cleared the input element. */
  datatype Reply = Reply(render: bool, inputCleared: bool)

  datatype Step = Step(next: Session, reply: Reply)

  /** The state right after creation: empty roster and log, light mode, and the
      Register envelope handed to the channel if it accepts it. */
  function Create(username: string, sendOk: bool): Session {
    Session(false, [], [], if sendOk then [RegisterEnvelope(username)] else [])
  }

  /** `try_send`: the envelope is queued when the channel accepts it, dropped otherwise. */
  function Send(s: Session, e: WebSocketMessage, ok: bool): Session {
    if ok then s.(outbox := s.outbox + [e]) else s
  }

  /** The reaction to a decoded server envelope. */
  function Receive(s: Session, codec: Codec, env: WebSocketMessage): Result<Step, Panic> {
    match env.messageType
    case Users => Ok(Step(s.(users := Roster(env.dataArray.GetOr([]))), Reply(true, false)))
    case Message =>
      if env.data.None? then Err(MessageDataMissing)
      else match codec.parseMessageData(env.data.value) {
        case None => Err(MessageDataUnparsable)
        case Some(m) => Ok(Step(s.(messages := s.messages + [m]), Reply(true, false)))
      }
    case Register => Ok(Step(s, Reply(false, false)))
  }

  /** The component's `update`. Only inbound text can panic; a successful step
      never removes a logged message or a sent envelope; it asks for a
      re-render exactly for a toggle and for a Users or Message envelope; it
      clears the input exactly when submitting with an input present. */
  function Update(s: Session, codec: Codec, msg: Msg): (r: Result<Step, Panic>)
    ensures r.Err? ==> msg.HandleMsg?
    ensures r.Ok? ==> s.messages <= r.value.next.messages && s.outbox <= r.value.next.outbox
    ensures r.Ok? ==> (r.value.reply.render <==>
      msg.ToggleDarkMode? || (msg.HandleMsg? && codec.parseEnvelope(msg.text).Some?
                                && codec.parseEnvelope(msg.text).value.messageType != Register))
    ensures r.Ok? ==> (r.value.reply.inputCleared <==> msg.SubmitMessage? && msg.input.Some?)
  {
    match msg
    case ToggleDarkMode => Ok(Step(s.(darkMode := !s.darkMode), Reply(true, false)))
    case HandleMsg(text) =>
      match codec.parseEnvelope(text) {
        case None => Err(EnvelopeUnparsable)
        case Some(env) => Receive(s, codec, env)
      }
    case SubmitMessage(input, sendOk) =>
      match input
      case None => Ok(Step(s, Reply(false, false)))
      case Some(v) => Ok(Step(Send(s, OutgoingMessage(v), sendOk), Reply(false, true)))
  }

  /** The state after creation holds nothing but, when the send succeeds, the
      one Register envelope. */
  lemma CreateIsEmpty(username: string, sendOk: bool)
    ensures Create(username, sendOk).users == [] && Create(username, sendOk).messages == []
    ensures !Create(username, sendOk).darkMode
    ensures |Create(username, sendOk).outbox| == if sendOk then 1 else 0
    ensures sendOk ==> Create(username, sendOk).outbox[0] == WebSocketMessage(Register, None, Some(username))
  {
  }

  /** A Users envelope replaces the roster by the one built from its names,
      same length and order, each with its derived avatar; a missing name list
      empties the roster; nothing else changes and the view re-renders. */
  lemma UsersReplacesRoster(s: Session, codec: Codec, text: string, env: WebSocketMessage)
    requires codec.parseEnvelope(text) == Some(env) && env.messageType == Users
    ensures Update(s, codec, HandleMsg(text)).Ok?
    ensures var step := Update(s, codec, HandleMsg(text)).value;
      && step.reply == Reply(true, false)
      && Names(step.next.users) == env.dataArray.GetOr([])
      && WellFormedRoster(step.next.users)
      && (env.dataArray.None? ==> step.next.users == [])
      && step.next.messages == s.messages && step.next.darkMode == s.darkMode && step.next.outbox == s.outbox
  {
  }

  /** Receiving the names "alice" and "bob" gives a roster of those two
      users, in that order, with their derived avatars. */
  lemma UsersExample(s: Session, codec: Codec, text: string)
    requires codec.parseEnvelope(text) == Some(WebSocketMessage(Users, Some(["alice", "bob"]), None))
    ensures Update(s, codec, HandleMsg(text)).Ok?
    ensures Update(s, codec, HandleMsg(text)).value.next.users
      == [UserProfile("alice", AVATAR_PREFIX + "alice.svg"), UserProfile("bob", AVATAR_PREFIX + "bob.svg")]
  {
    var users := Update(s, codec, HandleMsg(text)).value.next.users;
    assert users[0] == Profile("alice") && users[1] == Profile("bob");
    assert Avatar("alice") == AVATAR_PREFIX + "alice.svg";
    assert Avatar("bob") == AVATAR_PREFIX + "bob.svg";
  }

  /** Roster replacement is not accumulation: the roster after a Users
      envelope does not depend on the roster before it. */
  lemma UsersForgetsOldRoster(s: Session, t: Session, codec: Codec, text: string)
    requires codec.parseEnvelope(text).Some? && codec.parseEnvelope(text).value.messageType == Users
    ensures Update(s, codec, HandleMsg(text)).value.next.users == Update(t, codec, HandleMsg(text)).value.next.users
  {
  }

  /** A well-formed Message envelope appends its decoded record at the end of
      the log and changes nothing else; the view re-renders. */
  lemma MessageAppends(s: Session, codec: Codec, text: string, env: WebSocketMessage, m: MessageData)
    requires codec.parseEnvelope(text) == Some(env) && env.messageType == Message
    requires env.data.Some? && codec.parseMessageData(env.data.value) == Some(m)
    ensures Update(s, codec, HandleMsg(text)).Ok?
    ensures var step := Update(s, codec, HandleMsg(text)).value;
      && step.reply == Reply(true, false)
      && |step.next.messages| == |s.messages| + 1
      && step.next.messages[..|s.messages|] == s.messages
      && step.next.messages[|s.messages|] == m
      && step.next.users == s.users && step.next.darkMode == s.darkMode && step.next.outbox == s.outbox
  {
  }

  /** A Message envelope without data, or whose data does not decode, makes
      `update` panic; so does text that is not an envelope. */
  lemma MalformedInboundPanics(s: Session, codec: Codec, text: string)
    ensures codec.parseEnvelope(text).None? ==> Update(s, codec, HandleMsg(text)) == Err(EnvelopeUnparsable)
    ensures var env := codec.parseEnvelope(text);
      env.Some? && env.value.messageType == Message && env.value.data.None? ==>
        Update(s, codec, HandleMsg(text)) == Err(MessageDataMissing)
    ensures var env := codec.parseEnvelope(text);
      env.Some? && env.value.messageType == Message && env.value.data.Some? && codec.parseMessageData(env.value.data.value).None? ==>
        Update(s, codec, HandleMsg(text)) == Err(MessageDataUnparsable)
  {
  }

  /** An inbound Register envelope changes nothing and needs no re-render. */
  lemma RegisterIgnored(s: Session, codec: Codec, text: string)
    requires codec.parseEnvelope(text).Some? && codec.parseEnvelope(text).value.messageType == Register
    ensures Update(s, codec, HandleMsg(text)) == Ok(Step(s, Reply(false, false)))
  {
  }

  /** Toggling flips the display mode only, re-renders, and is an involution. */
  lemma ToggleInvolution(s: Session, codec: Codec)
    ensures var first := Update(s, codec, ToggleDarkMode);
      && first.Ok? && first.value.reply == Reply(true, false)
      && first.value.next == s.(darkMode := !s.darkMode)
      && Update(first.value.next, codec, ToggleDarkMode).value.next == s
  {
  }

  /** Submitting with an input present sends exactly one Message envelope
      carrying the raw input, when the channel accepts it; it never logs the
      message locally, clears the input whatever the send result, and needs no
      re-render. Without an input nothing happens. */
  lemma SubmitSendsWithoutEcho(s: Session, codec: Codec, input: Option<string>, sendOk: bool)
    ensures var step := Update(s, codec, SubmitMessage(input, sendOk));
      && step.Ok?
      && step.value.reply == Reply(false, input.Some?)
      && step.value.next.users == s.users && step.value.next.messages == s.messages
      && step.value.next.darkMode == s.darkMode
      && step.value.next.outbox == if input.Some? && sendOk then s.outbox + [WebSocketMessage(Message, None, Some(input.value))] else s.outbox
  {
  }

  /** The state after a sequence of events; the first panic ends the run. */
  function Run(s: Session, codec: Codec, msgs: seq<Msg>): Result<Session, Panic>
    decreases |msgs|
  {
    if msgs == [] then Ok(s)
    else match Update(s, codec, msgs[0])
      case Err(p) => Err(p)
      case Ok(step) => Run(step.next, codec, msgs[1..])
  }

  /** Running two sequences back to back is running the first, then the second
      from where the first ended. */
  lemma {:induction false} RunAppend(s: Session, codec: Codec, a: seq<Msg>, b: seq<Msg>)
    ensures Run(s, codec, a + b) == match Run(s, codec, a) { case Err(p) => Err(p) case Ok(t) => Run(t, codec, b) }
    decreases |a|
  {
    if a != [] {
      assert (a + b)[0] == a[0] && (a + b)[1..] == a[1..] + b;
      match Update(s, codec, a[0]) {
        case Err(_) =>
        case Ok(step) => RunAppend(step.next, codec, a[1..], b);
      }
    } else {
      assert a + b == b;
    }
  }

  /** The message log and the outbox are append-only over any run. */
  lemma {:induction false} RunAppendOnly(s: Session, codec: Codec, msgs: seq<Msg>)
    requires Run(s, codec, msgs).Ok?
    ensures s.messages <= Run(s, codec, msgs).value.messages
    ensures s.outbox <= Run(s, codec, msgs).value.outbox
    decreases |msgs|
  {
    if msgs != [] {
      var step := Update(s, codec, msgs[0]).value;
      RunAppendOnly(step.next, codec, msgs[1..]);
    }
  }

  /** Whatever happens after creation, the first envelope handed to the
      channel is the Register envelope, when its send succeeded. */
  lemma RegisterComesFirst(username: string, codec: Codec, msgs: seq<Msg>)
    requires Run(Create(username, true), codec, msgs).Ok?
    ensures var t := Run(Create(username, true), codec, msgs).value;
      |t.outbox| >= 1 && t.outbox[0] == RegisterEnvelope(username)
  {
    RunAppendOnly(Create(username, true), codec, msgs);
  }

  /** An event that is inbound text decoding to a Users envelope. */
  predicate IsUsers(codec: Codec, msg: Msg) {
    msg.HandleMsg? && codec.parseEnvelope(msg.text).Some? && codec.parseEnvelope(msg.text).value.messageType == Users
  }

  /** The name list of such an event, empty when the envelope carries none. */
  function UsersOf(codec: Codec, msg: Msg): seq<string>
    requires IsUsers(codec, msg)
  {
    codec.parseEnvelope(msg.text).value.dataArray.GetOr([])
  }

  /** After any nonempty sequence of Users envelopes the roster is exactly the
      one built from the last envelope's names; nothing else changes. */
  lemma {:induction false} RosterIsLatest(s: Session, codec: Codec, msgs: seq<Msg>)
    requires |msgs| > 0
    requires forall i :: 0 <= i < |msgs| ==> IsUsers(codec, msgs[i])
    ensures Run(s, codec, msgs) == Ok(s.(users := Roster(UsersOf(codec, msgs[|msgs| - 1]))))
    decreases |msgs|
  {
    var next := s.(users := Roster(UsersOf(codec, msgs[0])));
    assert IsUsers(codec, msgs[0]);
    assert Update(s, codec, msgs[0]) == Ok(Step(next, Reply(true, false)));
    if |msgs| > 1 {
      RosterIsLatest(next, codec, msgs[1..]);
      assert msgs[1..][|msgs| - 2] == msgs[|msgs| - 1];
    }
  }

  /** An event that is inbound text decoding to a Message envelope whose
      record decodes. */
  predicate IsWellFormedMessage(codec: Codec, msg: Msg) {
    && msg.HandleMsg?
    && codec.parseEnvelope(msg.text).Some?
    && codec.parseEnvelope(msg.text).value.messageType == Message
    && codec.parseEnvelope(msg.text).value.data.Some?
    && codec.parseMessageData(codec.parseEnvelope(msg.text).value.data.value).Some?
  }

  /** The records such events carry, in order. */
  function Records(codec: Codec, msgs: seq<Msg>): (r: seq<MessageData>)
    requires forall i :: 0 <= i < |msgs| ==> IsWellFormedMessage(codec, msgs[i])
  {
    if msgs == [] then []
    else
      assert IsWellFormedMessage(codec, msgs[0]);
      [codec.parseMessageData(codec.parseEnvelope(msgs[0].text).value.data.value).value] + Records(codec, msgs[1..])
  }

  /** A sequence of well-formed Message envelopes extends the log by exactly
      their records, in arrival order, and changes nothing else. */
  lemma {:induction false} LogIsArrivalOrder(s: Session, codec: Codec, msgs: seq<Msg>)
    requires forall i :: 0 <= i < |msgs| ==> IsWellFormedMessage(codec, msgs[i])
    ensures Run(s, codec, msgs) == Ok(s.(messages := s.messages + Records(codec, msgs)))
    decreases |msgs|
  {
    if msgs != [] {
      assert IsWellFormedMessage(codec, msgs[0]);
      var m := codec.parseMessageData(codec.parseEnvelope(msgs[0].text).value.data.value).value;
      var next := s.(messages := s.messages + [m]);
      assert Update(s, codec, msgs[0]) == Ok(Step(next, Reply(true, false)));
      assert Run(s, codec, msgs) == Run(next, codec, msgs[1..]);
      LogIsArrivalOrder(next, codec, msgs[1..]);
      assert Records(codec, msgs) == [m] + Records(codec, msgs[1..]);
      assert next.messages + Records(codec, msgs[1..]) == s.messages + Records(codec, msgs);
    } else {
      assert s.messages + [] == s.messages;
    }
  }

  /** Over a run of toggles, the display mode ends flipped exactly when the
      number of toggles is odd; nothing else changes. */
  lemma {:induction false} ToggleParity(s: Session, codec: Codec, msgs: seq<Msg>)
    requires forall i :: 0 <= i < |msgs| ==> msgs[i].ToggleDarkMode?
    ensures Run(s, codec, msgs) == Ok(s.(darkMode := s.darkMode != (|msgs| % 2 == 1)))
    decreases |msgs|
  {
    if msgs != [] {
      ToggleParity(s.(darkMode := !s.darkMode), codec, msgs[1..]);
    }
  }

  /** The envelopes a sequence of submissions hands to the channel. */
  function Submitted(msgs: seq<Msg>): seq<WebSocketMessage>
    requires forall i :: 0 <= i < |msgs| ==> msgs[i].SubmitMessage?
  {
    if msgs == [] then []
    else (if msgs[0].input.Some? && msgs[0].sendOk then [OutgoingMessage(msgs[0].input.value)] else [])
         + Submitted(msgs[1..])
  }

  /** A sequence of submissions only ever adds to the outbox, one Message
      envelope per accepted send carrying the raw input; the roster, the log
      and the display mode stay as they were: there is no local echo. */
  lemma {:induction false} SubmitsOnlySend(s: Session, codec: Codec, msgs: seq<Msg>)
    requires forall i :: 0 <= i < |msgs| ==> msgs[i].SubmitMessage?
    ensures Run(s, codec, msgs) == Ok(s.(outbox := s.outbox + Submitted(msgs)))
    decreases |msgs|
  {
    if msgs != [] {
      var head := if msgs[0].input.Some? && msgs[0].sendOk then [OutgoingMessage(msgs[0].input.value)] else [];
      var next := s.(outbox := s.outbox + head);
      assert s.outbox + [] == s.outbox;
      assert Update(s, codec, msgs[0]) == Ok(Step(next, Reply(false, msgs[0].input.Some?)));
      assert Run(s, codec, msgs) == Run(next, codec, msgs[1..]);
      SubmitsOnlySend(next, codec, msgs[1..]);
      assert Submitted(msgs) == head + Submitted(msgs[1..]);
      assert next.outbox + Submitted(msgs[1..]) == s.outbox + Submitted(msgs);
    } else {
      assert s.outbox + [] == s.outbox;
    }
  }
}
