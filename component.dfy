/** The chat component as the object the UI framework holds: its fields, its
    creation, and `update`, which changes the fields in place. Each method is
    tied to the pure transition of `ChatReducer`. */
module ChatComponent {
  import opened Wrappers
  import opened ChatProtocol
  import ChatReducer

  class Chat {
    var darkMode: bool
    var users: seq<UserProfile>
    var messages: seq<MessageData>
    /** The envelopes handed to the websocket channel, in order. */
    var outbox: seq<WebSocketMessage>

    /** The component's state as a value. */
    function Snapshot(): ChatReducer.Session
      reads this
    {
      ChatReducer.Session(darkMode, users, messages, outbox)
    }

    /** Creation: empty roster and log, light mode, and one Register envelope
        for the local user handed to the channel, kept when the channel
        accepts it. */
    constructor (username: string, sendOk: bool)
      ensures Snapshot() == ChatReducer.Create(username, sendOk)
      ensures !darkMode && users == [] && messages == []
      ensures outbox == if sendOk then [RegisterEnvelope(username)] else []
    {
      var registration := WebSocketMessage(Register, None, Some(username));
      darkMode := false;
      users := [];
      messages := [];
      outbox := [];
      new;
      var _ := TrySend(registration, sendOk);
    }

    /** Flips the display mode and nothing else. */
    method ToggleDarkMode()
      modifies this`darkMode
      ensures darkMode == !old(darkMode)
      ensures Snapshot() == old(Snapshot()).(darkMode := !old(darkMode))
    {
      darkMode := !darkMode;
    }

    /** `try_send` on the channel: the envelope is queued exactly when the
        channel accepts it, and the result says which. */
    method TrySend(e: WebSocketMessage, ok: bool) returns (sent: bool)
      modifies this`outbox
      ensures sent == ok
      ensures outbox == if ok then old(outbox) + [e] else old(outbox)
      ensures Snapshot() == ChatReducer.Send(old(Snapshot()), e, ok)
    {
      sent := ok;
      if ok {
        outbox := outbox + [e];
      }
    }

    /** `update`: applies one event to the fields. On success the new fields
        and the reply are those of the pure transition; when an `unwrap`
        panics no field has changed. */
    method Update(codec: Codec, msg: ChatReducer.Msg) returns (r: Result<ChatReducer.Reply, ChatReducer.Panic>)
      modifies this
      ensures match ChatReducer.Update(old(Snapshot()), codec, msg) {
        case Ok(step) => r == Ok(step.reply) && Snapshot() == step.next
        case Err(p) => r == Err(p) && Snapshot() == old(Snapshot())
      }
    {
      match msg {
        case ToggleDarkMode =>
          ToggleDarkMode();
          r := Ok(ChatReducer.Reply(true, false));
        case HandleMsg(text) =>
          var parsed := codec.parseEnvelope(text);
          if parsed.None? {
            r := Err(ChatReducer.EnvelopeUnparsable);
            return;
          }
          var env := parsed.value;
          match env.messageType {
            case Users =>
              users := Roster(env.dataArray.GetOr([]));
              r := Ok(ChatReducer.Reply(true, false));
            case Message =>
              if env.data.None? {
                r := Err(ChatReducer.MessageDataMissing);
                return;
              }
              var record := codec.parseMessageData(env.data.value);
              if record.None? {
                r := Err(ChatReducer.MessageDataUnparsable);
                return;
              }
              messages := messages + [record.value];
              r := Ok(ChatReducer.Reply(true, false));
            case Register =>
              r := Ok(ChatReducer.Reply(false, false));
          }
        case SubmitMessage(input, sendOk) =>
          if input.Some? {
            var message := WebSocketMessage(Message, None, Some(input.value));
            var _ := TrySend(message, sendOk);
            r := Ok(ChatReducer.Reply(false, true));
          } else {
            r := Ok(ChatReducer.Reply(false, false));
          }
      }
    }
  }
}
