// lib/commands/status.ts: `!contrib -status <id>` reports one contribution's
// review status. It reads the store and never writes it.
module StatusCommand {
  import opened Text
  import opened Store
  import opened Chat
  import opened RateLimiter
  import opened CommandBase
  import opened Patterns

  const FAILED := "Failed to check status. Please try again."

  /** `matches`: `/!contrib\s+-status\s+\d+$/i` finds a match. */
  predicate Matches(message: string) {
    HasFlagIdEnd(message, "-status")
  }

  /** The id read by `/!contrib\s+-status\s+(\d+)/i`; none where `match[1]` would throw. */
  function Request(message: string): Option<nat> {
    match FlagDigits(message, "-status")
    case None => None
    case Some(digits) => Some(DigitsValue(digits))
  }

  lemma MatchesYieldsId(message: string)
    requires Matches(message)
    ensures Request(message).Some?
  {
    AnchoredImpliesCapture(message, "-status");
  }

  /** The emoji for a status: the three known statuses have their own, anything else gets ❓. */
  function Emoji(status: string): (e: string)
    ensures status == PENDING ==> e == "⏳"
    ensures status == ACCEPTED ==> e == "✅"
    ensures status == "rejected" ==> e == "❌"
    ensures status !in {PENDING, ACCEPTED, "rejected"} ==> e == "❓"
  {
    if status == PENDING then "⏳"
    else if status == ACCEPTED then "✅"
    else if status == "rejected" then "❌"
    else "❓"
  }

  function StatusText(id: nat, c: Contribution): string {
    "Contribution #" + NatToString(id) + " (" + c.filename + LineSuffix(c.lineNumber) + ") is " +
    Emoji(c.status) + " " + ToUpper(c.status)
  }

  function Run(w: World, ctx: Context): (World, ExecOutcome) {
    Respond(w, ctx, Request(ctx.message))
  }

  function Respond(w: World, ctx: Context, req: Option<nat>): (World, ExecOutcome) {
    match req
    case None => Catch(w, ctx, FAILED)
    case Some(id) =>
      if id == 0 then Finish(w, ctx, INVALID_ID, FAILED)
      else
        match Get(w.store, id)
        case Err => Catch(w, ctx, FAILED)
        case Ok(None) => Finish(w, ctx, "Contribution #" + NatToString(id) + " not found.", FAILED)
        case Ok(Some(c)) => Finish(w, ctx, StatusText(id, c), FAILED)
  }

  method Execute(store: ContributionStore, limiter: Limiter, chat: ChatClient, ctx: Context) returns (o: ExecOutcome)
    modifies chat
    ensures (Snapshot(store, limiter, chat), o) == Run(old(Snapshot(store, limiter, chat)), ctx)
  {
    var m := FlagDigits(ctx.message, "-status");
    if m.None? {
      o := CatchReply(chat, ctx, FAILED);
      return;
    }
    var contribId := DigitsValue(m.value);
    if contribId == 0 {
      o := FinishReply(chat, ctx, INVALID_ID, FAILED);
      return;
    }
    var contribution := store.GetContribution(contribId);
    if contribution.Err? {
      o := CatchReply(chat, ctx, FAILED);
      return;
    }
    if contribution.value.None? {
      o := FinishReply(chat, ctx, "Contribution #" + NatToString(contribId) + " not found.", FAILED);
      return;
    }
    var c := contribution.value.value;
    var statusEmoji := Emoji(c.status);
    o := FinishReply(chat, ctx, "Contribution #" + NatToString(contribId) + " (" + c.filename + LineSuffix(c.lineNumber) + ") is " +
      statusEmoji + " " + ToUpper(c.status), FAILED);
  }

  // ---------------------------------------------------------------------

  /**
   * The store and the rate limiter are left as they were; with the chat up,
   * exactly one reply is sent and `execute` resolves to `true`.
   */
  lemma ReadOnly(w: World, ctx: Context, req: Option<nat>)
    ensures Respond(w, ctx, req).0.store == w.store && Respond(w, ctx, req).0.rates == w.rates
    ensures !w.chat.down ==> Respond(w, ctx, req).1 == Handled(true) && |Respond(w, ctx, req).0.chat.sent| == |w.chat.sent| + 1
    ensures w.chat.down ==> Respond(w, ctx, req).1 == Threw && Respond(w, ctx, req).0.chat == w.chat
  {
  }

  /** A stored record is reported by filename, truthy line number, emoji and upper-cased status. */
  lemma ReportsRecord(w: World, ctx: Context, id: nat)
    requires id > 0 && id in w.store.contribs && GetOp !in w.store.failing && !w.chat.down
    ensures var c := w.store.contribs[id];
      Respond(w, ctx, Some(id)) ==
      (w.(chat := Replied(w.chat, ctx, "Contribution #" + NatToString(id) + " (" + c.filename + LineSuffix(c.lineNumber) + ") is " +
         Emoji(c.status) + " " + ToUpper(c.status))), Handled(true))
  {
  }

  /** A missing record gets the not-found reply, and an id of 0 the invalid-id reply. */
  lemma MissingOrZero(w: World, ctx: Context, id: nat)
    requires id !in w.store.contribs && GetOp !in w.store.failing && !w.chat.down
    ensures Respond(w, ctx, Some(id)) ==
      (w.(chat := Replied(w.chat, ctx, if id == 0 then INVALID_ID else "Contribution #" + NatToString(id) + " not found.")), Handled(true))
  {
  }

  /** The upper-cased status has no lower-case ASCII letter. */
  lemma StatusUpperCased(status: string)
    ensures forall i :: 0 <= i < |ToUpper(status)| ==> !('a' <= ToUpper(status)[i] <= 'z')
  {
  }
}
