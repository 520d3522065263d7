// lib/commands/unknown.ts: the catch-all for lines that start with
// `!contrib` but match no other command. Its `execute` has no `try`, so a
// failed send rejects.
module UnknownCommand {
  import opened Text
  import opened Store
  import opened Chat
  import opened RateLimiter
  import opened CommandBase

  const UNKNOWN := "Unknown !contrib command format. Type !contrib --help for usage info."

  /** `matches`: the line starts with `!contrib`, case-sensitively. */
  predicate Matches(message: string) {
    StartsWith(message, "!contrib")
  }

  function Run(w: World, ctx: Context): (World, ExecOutcome) {
    var (c, ok) := ReplyChat(w.chat, ctx, UNKNOWN);
    (w.(chat := c), if ok then Handled(true) else Threw)
  }

  method Execute(store: ContributionStore, limiter: Limiter, chat: ChatClient, ctx: Context) returns (o: ExecOutcome)
    modifies chat
    ensures (Snapshot(store, limiter, chat), o) == Run(old(Snapshot(store, limiter, chat)), ctx)
  {
    var ok := chat.Say(ctx.channel, At(ctx.username, UNKNOWN));
    o := if ok then Handled(true) else Threw;
  }

  /**
   * The same fixed reply whatever the line and the store hold; `true` when it
   * was sent, a rejection when sending threw. Nothing but the chat changes.
   */
  lemma FixedReply(w: World, ctx: Context, message: string)
    ensures Run(w, ctx).0.store == w.store && Run(w, ctx).0.rates == w.rates
    ensures Run(w, ctx) == Run(w, ctx.(message := message))
    ensures Run(w, ctx) == if w.chat.down then (w, Threw) else (w.(chat := Replied(w.chat, ctx, UNKNOWN)), Handled(true))
  {
  }

  /** A lower-case prefix check: `!CONTRIB` does not match. */
  lemma CaseSensitive()
    ensures Matches("!contrib whatever") && !Matches("!CONTRIB whatever")
  {
    assert "!contrib whatever"[..8] == "!contrib";
    assert "!CONTRIB whatever"[1] != "!contrib"[1];
  }
}
