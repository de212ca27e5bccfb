/** The data model of the chat component: the wire envelope, the message record
    it carries, the roster entry, and how a roster is built from the list of
    names the server reports. */
module ChatProtocol {
  import opened Wrappers

  /** The three kinds of envelope the client and the server exchange. */
  datatype MsgType = Users | Register | Message

  /** One envelope of the wire protocol. `dataArray` is used by Users
      envelopes, `data` by Register and Message envelopes. */
  datatype WebSocketMessage = WebSocketMessage(messageType: MsgType, dataArray: Option<seq<string>>, data: Option<string>)

  /** The record that an inbound Message envelope carries, encoded, in `data`. */
  datatype MessageData = MessageData(from: string, message: string)

  /** One entry of the roster: a user name and the URL of its avatar. */
  datatype UserProfile = UserProfile(name: string, avatar: string)

  /** The JSON decoders the component relies on, one per decoded type.
      `None` stands for the decoder's error, which the component unwraps. */
  datatype Codec = Codec(parseEnvelope: string -> Option<WebSocketMessage>, parseMessageData: string -> Option<MessageData>)

  /** The envelope sent once when the component is created. */
  function RegisterEnvelope(username: string): WebSocketMessage {
    WebSocketMessage(Register, None, Some(username))
  }

  /** The envelope sent when the user submits the input: only the body, the
      server attributes the sender. */
  function OutgoingMessage(body: string): WebSocketMessage {
    WebSocketMessage(Message, None, Some(body))
  }

  const AVATAR_PREFIX: string := "https://avatars.dicebear.com/api/adventurer-neutral/"
  const AVATAR_SUFFIX: string := ".svg"

  /** The avatar URL of a user: the name substituted into a fixed template. */
  function Avatar(name: string): string {
    AVATAR_PREFIX + name + AVATAR_SUFFIX
  }

  /** The name an avatar URL was built from, when the URL has the template's shape. */
  function AvatarName(url: string): Option<string> {
    if |AVATAR_PREFIX| + |AVATAR_SUFFIX| <= |url|
       && url[..|AVATAR_PREFIX|] == AVATAR_PREFIX
       && url[|url| - |AVATAR_SUFFIX|..] == AVATAR_SUFFIX
    then Some(url[|AVATAR_PREFIX|..|url| - |AVATAR_SUFFIX|])
    else None
  }

  /** Reading the name back out of an avatar URL gives the name it was built from. */
  lemma AvatarRoundTrip(name: string)
    ensures AvatarName(Avatar(name)) == Some(name)
  {
  }

  /** Every URL that AvatarName accepts is the avatar of the name it returns. */
  lemma AvatarNameSound(url: string, name: string)
    requires AvatarName(url) == Some(name)
    ensures Avatar(name) == url
  {
  }

  /** Distinct names get distinct avatars. */
  lemma AvatarInjective(a: string, b: string)
    requires Avatar(a) == Avatar(b)
    ensures a == b
  {
    AvatarRoundTrip(a);
    AvatarRoundTrip(b);
  }

  /** The roster entry built for one reported name. */
  function Profile(name: string): UserProfile {
    UserProfile(name, Avatar(name))
  }

  /** The roster built from the names of a Users envelope: one entry per name,
      in the order received, duplicates and arbitrary names kept as they are. */
  function Roster(names: seq<string>): (r: seq<UserProfile>)
    ensures |r| == |names|
    ensures forall i :: 0 <= i < |names| ==> r[i].name == names[i] && r[i].avatar == Avatar(names[i])
  {
    if names == [] then [] else [Profile(names[0])] + Roster(names[1..])
  }

  /** The names of a roster, in order. */
  function Names(users: seq<UserProfile>): (r: seq<string>)
    ensures |r| == |users|
    ensures forall i :: 0 <= i < |users| ==> r[i] == users[i].name
  {
    if users == [] then [] else [users[0].name] + Names(users[1..])
  }

  /** A roster whose every avatar is the one derived from the entry's name. */
  predicate WellFormedRoster(users: seq<UserProfile>) {
    forall i :: 0 <= i < |users| ==> users[i].avatar == Avatar(users[i].name)
  }

  /** A roster built from a list of names lists exactly those names, and its
      avatars are the derived ones; conversely a well-formed roster is the one
      built from its own names. */
  lemma RosterNames(names: seq<string>, users: seq<UserProfile>)
    ensures Names(Roster(names)) == names && WellFormedRoster(Roster(names))
    ensures WellFormedRoster(users) ==> Roster(Names(users)) == users
  {
  }
}
