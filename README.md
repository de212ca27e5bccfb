# YewChat chat component: a Dafny model

This project models the `Chat` component of YewChat's web client
(`src/components/chat.rs`). The component is the client's synchronization
engine. It keeps the roster of connected users, the message log and the
dark-mode flag. It folds each envelope the server sends into that state. It
turns a submit into one outbound envelope. And it tells the UI framework
whether to re-render.

Modules, one concept each:

- `Wrappers`: `Option` and `Result`.
- `ChatProtocol`: the data model (`MsgType`, `WebSocketMessage`, `MessageData`, `UserProfile`), the avatar URL template and its inverse, and the roster built from a name list.
- `ChatView`: the two pure rules in the message panel of `view`. One is the sender lookup (`iter().find(..).unwrap()`). The other is the `.gif` content rule.
- `ChatReducer`: `update` as a pure transition function on a `Session` value. It has its fold `Run` over event sequences and the lemmas about both.
- `ChatComponent`: the class `Chat`. Its fields are updated in place by its constructor (`create`), `ToggleDarkMode` (`toggle_dark_mode`), `TrySend` (the channel's `try_send`) and `Update` (`update`). Each method is proved against the pure model: the constructor against `ChatReducer.Create`, `ToggleDarkMode` against the flipped snapshot, `TrySend` against `ChatReducer.Send`, and `Update` against `ChatReducer.Update`.

Modelling decisions:

- `serde_json::from_str` is a parameter. A `Codec` value holds the envelope decoder and the `MessageData` decoder as total functions. `None` stands for a decode error.
- Each `unwrap` that can panic in `update` is a `Panic` outcome. The panics are at unparsable text, a Message envelope without `data`, and an unparsable record. On a panic no field has changed, and `Run` stops at the first one.
- The websocket channel is the `outbox` field, a sequence of envelopes. `try_send` succeeds or fails according to a boolean parameter. Encoding with `serde_json::to_string` never fails for these types, so the outbox holds envelopes, not text.
- The local username is a constructor parameter. The DOM input is a parameter, `Option<string>`: `None` is a `NodeRef` that does not cast to an input element. Clearing the input is reported in `Reply.inputCleared`.

Where the code and its documented design disagree, the model follows the code:

- A malformed Message envelope or record is meant to be dropped without crashing. The code unwraps and panics. The model returns `Err(MessageDataMissing)` or `Err(MessageDataUnparsable)`.
- Submitting an empty input is meant to be a no-op. `update` has no such check and sends whatever the input holds, `""` included.
- A sender missing from the roster is meant to fall back to a placeholder avatar. The code unwraps and panics. `SenderAvatar` and `RenderMessage` return `None` there.

## Model

| member | source | states |
|---|---|---|
| `ChatProtocol.Roster` | src/components/chat.rs:104-115 | the roster has one entry per received name, same length and order, entry i named after name i with avatar `Avatar(name i)`; duplicates and arbitrary names kept |
| `ChatProtocol.RosterNames` | src/components/chat.rs:105-115 | the names of a built roster are exactly the received list and every avatar is the derived one; a well-formed roster is the one built from its own names |
| `ChatProtocol.AvatarRoundTrip` | src/components/chat.rs:109-112 | the name can be read back out of the avatar URL |
| `ChatProtocol.AvatarNameSound` | src/components/chat.rs:109-112 | any URL the inverse accepts is the template applied to the name it returns |
| `ChatProtocol.AvatarInjective` | src/components/chat.rs:109-112 | distinct names get distinct avatar URLs |
| `ChatView.EndsWithConcat` | src/components/chat.rs:200 | a string ends with a suffix exactly when it is some string followed by that suffix |
| `ChatView.Content` | src/components/chat.rs:200-204 | a body is shown as an image exactly when it ends in ".gif"; either way the shown string is the body unchanged |
| `ChatView.GifExamples` | src/components/chat.rs:200-204 | "hi.gif" and ".gif" are images; "hello", "gif" and "hi.GIF" are text |
| `ChatView.FindSender` | src/components/chat.rs:191 | returns the position of the first roster entry named `from` if there is one, and `None` exactly when no entry has that name |
| `ChatView.SenderAvatarOfRoster` | src/components/chat.rs:191 | against a roster built from a name list, the lookup succeeds exactly for names in the list and yields `Avatar(from)` |
| `ChatView.RenderMessage` | src/components/chat.rs:190-208 | a message renders exactly when some roster entry is named after its sender; it then shows that sender, the avatar of the first entry with that name and the content rule's body |
| `ChatView.RenderLog` | src/components/chat.rs:190-209 | the panel renders exactly when every message does, one rendered entry per logged message in log order |
| `ChatReducer.Update` | src/components/chat.rs:94-150 | only inbound text can panic; a step never removes a logged message or a sent envelope; re-render exactly for a toggle and a Users or Message envelope; input cleared exactly when submitting with an input |
| `ChatReducer.CreateIsEmpty` | src/components/chat.rs:70-91 | after creation roster and log are empty and dark mode is off; the outbox holds exactly the Register envelope for the user when the send succeeded, and nothing otherwise |
| `ChatReducer.UsersReplacesRoster` | src/components/chat.rs:103-116 | a Users envelope replaces the roster by its names in order with derived avatars; a missing list empties it; log, mode and outbox unchanged; re-render |
| `ChatReducer.UsersExample` | src/components/chat.rs:103-116 | names "alice", "bob" give exactly those two entries in order with their avatar URLs |
| `ChatReducer.UsersForgetsOldRoster` | src/components/chat.rs:105 | the roster after a Users envelope does not depend on the roster before it (replacement, not accumulation) |
| `ChatReducer.MessageAppends` | src/components/chat.rs:118-122 | a well-formed Message envelope appends exactly its decoded record at the end of the log; earlier entries, roster, mode and outbox unchanged; re-render |
| `ChatReducer.MalformedInboundPanics` | src/components/chat.rs:101-120 | unparsable text, a Message envelope without data, and an unparsable record each panic, with the matching reason |
| `ChatReducer.RegisterIgnored` | src/components/chat.rs:124-126 | an inbound Register envelope leaves the state as it was and asks for no re-render |
| `ChatReducer.ToggleInvolution` | src/components/chat.rs:96-99 | a toggle flips only the mode and re-renders; two toggles restore the state |
| `ChatReducer.SubmitSendsWithoutEcho` | src/components/chat.rs:129-148 | with an input present, exactly one Message envelope carrying the raw input is queued when the send succeeds and none when it fails; the input is cleared either way; roster, log and mode stay unchanged (no local echo); no re-render; without an input nothing happens |
| `ChatReducer.RunAppend` | src/components/chat.rs:94-150 | running two event sequences back to back is running the second from where the first ended, or the first's panic |
| `ChatReducer.RunAppendOnly` | src/components/chat.rs:94-150 | over any run without a panic, the log and the outbox only grow at the end |
| `ChatReducer.RegisterComesFirst` | src/components/chat.rs:70-82 | after creation with a successful send, whatever follows, the first envelope in the outbox is the Register envelope |
| `ChatReducer.RosterIsLatest` | src/components/chat.rs:103-116 | after any nonempty run of Users envelopes the roster is exactly the one built from the last envelope's names; nothing else changes |
| `ChatReducer.LogIsArrivalOrder` | src/components/chat.rs:118-122 | a run of well-formed Message envelopes extends the log by exactly their records in arrival order; nothing else changes |
| `ChatReducer.ToggleParity` | src/components/chat.rs:96-99 | after n toggles the mode is flipped exactly when n is odd; nothing else changes |
| `ChatReducer.SubmitsOnlySend` | src/components/chat.rs:129-148 | a run of submissions only appends to the outbox, one Message envelope per accepted send with an input present; roster, log and mode unchanged |
| `ChatComponent.Chat.constructor` | src/components/chat.rs:62-91 | the new component has empty roster and log and dark mode off; its outbox is the Register envelope for the user when the send succeeds, empty otherwise |
| `ChatComponent.Chat.ToggleDarkMode` | src/components/chat.rs:53-55 | flips the mode and changes no other field: the new snapshot is the old one with the mode negated |
| `ChatComponent.Chat.TrySend` | src/components/chat.rs:137-144 | the envelope is appended to the outbox exactly when the channel accepts it, and the result says so; the new snapshot is `ChatReducer.Send` of the old one |
| `ChatComponent.Chat.Update` | src/components/chat.rs:94-150 | after a step the fields and the reply are those of `ChatReducer.Update`; on a panic no field has changed |

## Left out

- JSON encoding and decoding (serde, the `rename_all` attributes): a foreign library. The decoders are the `Codec` parameter, and the outbox holds envelopes rather than their text.
- The websocket service and its channel: external I/O. A send is an append to `outbox`, and its failure is a boolean parameter.
- The event-bus bridge that delivers server text to `update` (line 89): agent plumbing. `Update` receives the text directly.
- The context lookup of the local `User` (lines 63-68): the username is a constructor parameter.
- The `NodeRef`/`HtmlInputElement` DOM access (lines 130, 145): modelled as the input parameter and the `inputCleared` flag.
- The HTML markup, CSS classes, dark-mode class selection and the roster panel of `view` (lines 153-226): presentation only. Only the sender lookup and the `.gif` rule are modelled.
- `log::debug!` calls: logging only.
- What happens after a panic: in the browser it ends the component. The model only reports the panic and leaves the fields untouched.
