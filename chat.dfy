// The chat client the handlers reply through (`client.say`), and
// lib/utils/chat.ts: `verifyClient` and `saySafe`.
module Chat {
  import opened Text

  /** One message sent to a channel. */
  datatype Reply = Reply(channel: string, text: string)

  /** What the client has sent so far; while `down`, every `say` throws. */
  datatype ChatState = ChatState(sent: seq<Reply>, down: bool)

  /** `client.say(channel, text)`: the new state and whether it succeeded (false: it threw). */
  function SayStep(c: ChatState, channel: string, text: string): (ChatState, bool) {
    if c.down then (c, false) else (c.(sent := c.sent + [Reply(channel, text)]), true)
  }

  class ChatClient {
    var sent: seq<Reply>
    var down: bool

    function State(): ChatState
      reads this
    {
      ChatState(sent, down)
    }

    constructor(down: bool)
      ensures State() == ChatState([], down)
    {
      sent := [];
      this.down := down;
    }

    method Say(channel: string, text: string) returns (ok: bool)
      modifies this
      ensures (State(), ok) == SayStep(old(State()), channel, text)
    {
      if down {
        return false;
      }
      sent := sent + [Reply(channel, text)];
      return true;
    }
  }

  /** The client handed to the pipeline: missing, or present with or without a `say` method. */
  datatype ClientHandle = NoClient | Client(hasSay: bool)

  /** `verifyClient`: fails (throws) for a missing client or one without `say`. */
  function VerifyClient(client: ClientHandle): (r: Result<()>)
    ensures r.Ok? <==> client.Client? && client.hasSay
  {
    match client
    case NoClient => Err
    case Client(hasSay) => if hasSay then Ok(()) else Err
  }

  /** The channel name `saySafe` sends to. */
  function FormatChannel(channel: string): (r: string)
    ensures |r| > 0 && r[0] == '#'
    ensures StartsWith(channel, "#") ==> r == channel
    ensures !StartsWith(channel, "#") ==> r == "#" + channel
  {
    if StartsWith(channel, "#") then channel else "#" + channel
  }

  /** Formatting a channel name twice is formatting it once. */
  lemma FormatChannelIdempotent(channel: string)
    ensures FormatChannel(FormatChannel(channel)) == FormatChannel(channel)
  {
    assert StartsWith(FormatChannel(channel), "#");
  }

  /** `saySafe`: a send to the `#`-prefixed channel whose failure is swallowed. */
  method SaySafe(client: ChatClient, channel: string, message: string)
    modifies client
    ensures client.State() == SayStep(old(client.State()), FormatChannel(channel), message).0
    ensures client.down ==> client.sent == old(client.sent)
  {
    var formattedChannel := if StartsWith(channel, "#") then channel else "#" + channel;
    var _ := client.Say(formattedChannel, message);
  }
}
