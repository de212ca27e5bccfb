/** The two rules the message panel of the view applies to each logged
    message: the sender's avatar is looked up in the roster by name, and a
    body ending in ".gif" is shown as an image. */
module ChatView {
  import opened Wrappers
  import opened ChatProtocol

  const GIF_SUFFIX: string := ".gif"

  /** Rust's `str::ends_with`. */
  predicate EndsWith(s: string, suffix: string) {
    |suffix| <= |s| && s[|s| - |suffix|..] == suffix
  }

  /** A string ends with a suffix exactly when it is some string followed by that suffix. */
  lemma EndsWithConcat(s: string, suffix: string, prefix: string)
    ensures EndsWith(prefix + suffix, suffix)
    ensures EndsWith(s, suffix) ==> s == s[..|s| - |suffix|] + suffix
  {
  }

  /** How a message body is shown. */
  datatype Body = Image(src: string) | Text(text: string)

  /** The string a shown body displays or points at. */
  function Shown(b: Body): string {
    match b
    case Image(src) => src
    case Text(text) => text
  }

  /** The content rule: a body ending in ".gif" is an image whose source is
      the body; anything else is shown as the body text itself. */
  function Content(message: string): (b: Body)
    ensures b.Image? <==> EndsWith(message, GIF_SUFFIX)
    ensures Shown(b) == message
  {
    if EndsWith(message, GIF_SUFFIX) then Image(message) else Text(message)
  }

  /** The rule on sample bodies: the suffix must be the whole of ".gif", case
      matters, and a bare ".gif" is still an image. */
  lemma GifExamples()
    ensures Content("hi.gif") == Image("hi.gif")
    ensures Content(".gif") == Image(".gif")
    ensures Content("hello") == Text("hello")
    ensures Content("gif") == Text("gif")
    ensures Content("hi.GIF") == Text("hi.GIF")
  {
  }

  /** The position of the first roster entry named `from`: Rust's `iter().find`. */
  function FindSender(users: seq<UserProfile>, from: string): (r: Option<nat>)
    ensures r.Some? ==> r.value < |users| && users[r.value].name == from
    ensures r.Some? ==> forall j :: 0 <= j < r.value ==> users[j].name != from
    ensures r.None? <==> forall j :: 0 <= j < |users| ==> users[j].name != from
  {
    if users == [] then None
    else if users[0].name == from then Some(0)
    else match FindSender(users[1..], from)
      case None => None
      case Some(i) => Some(i + 1)
  }

  /** The avatar shown beside a message from `from`; `None` is where the view's
      `unwrap` panics because no roster entry has that name. */
  function SenderAvatar(users: seq<UserProfile>, from: string): Option<string> {
    match FindSender(users, from)
    case None => None
    case Some(i) => Some(users[i].avatar)
  }

  /** Against a roster built from a name list, the lookup succeeds exactly for
      the names in the list and yields the avatar derived from the sender's name. */
  lemma SenderAvatarOfRoster(names: seq<string>, from: string)
    ensures SenderAvatar(Roster(names), from) == if from in names then Some(Avatar(from)) else None
  {
  }

  /** One message as the panel shows it. */
  datatype RenderedMessage = RenderedMessage(avatar: string, from: string, body: Body)

  /** One message of the panel, or `None` where the avatar lookup panics. */
  function RenderMessage(users: seq<UserProfile>, m: MessageData): (r: Option<RenderedMessage>)
    ensures r.Some? <==> exists i :: 0 <= i < |users| && users[i].name == m.from
    ensures r.Some? ==> r.value.from == m.from && r.value.body == Content(m.message)
    ensures r.Some? ==> exists i :: 0 <= i < |users| && users[i].name == m.from && r.value.avatar == users[i].avatar
                                   && forall j :: 0 <= j < i ==> users[j].name != m.from
  {
    match SenderAvatar(users, m.from)
    case None => None
    case Some(a) => Some(RenderedMessage(a, m.from, Content(m.message)))
  }

  /** The whole message panel, in log order, or `None` if rendering any
      message panics. */
  function RenderLog(users: seq<UserProfile>, messages: seq<MessageData>): (r: Option<seq<RenderedMessage>>)
    ensures r.Some? <==> forall k :: 0 <= k < |messages| ==> RenderMessage(users, messages[k]).Some?
    ensures r.Some? ==> |r.value| == |messages|
    ensures r.Some? ==> forall k :: 0 <= k < |messages| ==> r.value[k] == RenderMessage(users, messages[k]).value
  {
    if messages == [] then Some([])
    else match (RenderMessage(users, messages[0]), RenderLog(users, messages[1..]))
      case (Some(m), Some(rest)) => Some([m] + rest)
      case _ => None
  }
}
