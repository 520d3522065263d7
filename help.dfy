// lib/commands/help.ts: `!contrib --help` and its variants answer with one of
// three fixed help texts.
module HelpCommand {
  import opened Text
  import opened Store
  import opened Chat
  import opened RateLimiter
  import opened CommandBase

  const USAGE := "📝 !CONTRIB USAGE: [filename] [-l line_number] [code] | [-A ID code] | [-0 ID code] | [-C ID code] | [-D ID] | [-ls] | [-grep filename] | [-status ID] | Use \\n for newlines"
  const OPTIONS := "!CONTRIB OPTIONS: -l=line number, -A=append, -0=prepend, -C=replace, -D=delete, -ls=list yours, -grep=find by file, -status=check status. Use \\n for newlines."
  const DEFAULT_HELP := "For !contrib usage syntax, type: !contrib --usage. For options definitions, type: !contrib --options"

  /** The five lines that ask for help, after trimming and lower-casing. */
  const HELP_LINES: seq<string> := ["!contrib --help", "!contrib -h", "!contrib help", "!contrib --usage", "!contrib --options"]

  function Clean(message: string): string {
    ToLower(Trim(message))
  }

  /** `matches`: the trimmed, lower-cased line is one of the five help lines. */
  predicate Matches(message: string) {
    Clean(message) in HELP_LINES
  }

  /** The text `execute` sends: usage, options, or the default text that points to both. */
  function HelpText(message: string): (t: string)
    ensures Clean(message) == "!contrib --usage" ==> t == USAGE
    ensures Clean(message) == "!contrib --options" ==> t == OPTIONS
    ensures Clean(message) !in ["!contrib --usage", "!contrib --options"] ==> t == DEFAULT_HELP
  {
    var cleanMessage := Clean(message);
    if cleanMessage == "!contrib --usage" then USAGE
    else if cleanMessage == "!contrib --options" then OPTIONS
    else DEFAULT_HELP
  }

  /** `execute`: one reply; `true` when it was sent and `false` when sending threw. */
  function Run(w: World, ctx: Context): (World, ExecOutcome) {
    var (c, ok) := ReplyChat(w.chat, ctx, HelpText(ctx.message));
    (w.(chat := c), Handled(ok))
  }

  method Execute(store: ContributionStore, limiter: Limiter, chat: ChatClient, ctx: Context) returns (o: ExecOutcome)
    modifies chat
    ensures (Snapshot(store, limiter, chat), o) == Run(old(Snapshot(store, limiter, chat)), ctx)
  {
    var cleanMessage := ToLower(Trim(ctx.message));
    var ok;
    if cleanMessage == "!contrib --usage" {
      ok := chat.Say(ctx.channel, At(ctx.username, USAGE));
    } else if cleanMessage == "!contrib --options" {
      ok := chat.Say(ctx.channel, At(ctx.username, OPTIONS));
    } else {
      ok := chat.Say(ctx.channel, At(ctx.username, DEFAULT_HELP));
    }
    o := Handled(ok);
  }

  // ---------------------------------------------------------------------

  /**
   * Exactly one reply is sent, or none when the chat is down; `execute`
   * never throws, and it resolves to `false` exactly when the send failed.
   * The store and the rate limiter are not touched.
   */
  lemma OneReplyNeverThrows(w: World, ctx: Context)
    ensures Run(w, ctx).0.store == w.store && Run(w, ctx).0.rates == w.rates
    ensures Run(w, ctx).1 == Handled(!w.chat.down)
    ensures Run(w, ctx).0.chat == if w.chat.down then w.chat else Replied(w.chat, ctx, HelpText(ctx.message))
  {
  }

  /** `  !CONTRIB --Usage ` asks for the usage text. */
  lemma ExampleUsage(message: string)
    requires message == "  !CONTRIB --Usage "
    ensures Matches(message) && HelpText(message) == USAGE
  {
    var t := "!CONTRIB --Usage";
    assert WsEnd(message, 2) == 2;
    assert WsEnd(message, 1) == 2;
    assert WsEnd(message, 0) == 2;
    assert message[2..] == t + " ";
    assert WsStart(message[2..], |message[2..]|) == |t|;
    assert Trim(message) == t;
    assert ToLower(t) == "!contrib --usage";
  }
}
