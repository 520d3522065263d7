// lib/commands/replace.ts: `!contrib -C <id> <code>` replaces the code of one
// of the caller's pending contributions with the formatted new code. It is
// charged against the rate limit.
module ReplaceCommand {
  import opened Text
  import opened Store
  import opened Chat
  import opened RateLimiter
  import opened CommandBase
  import opened Patterns
  import Formatter

  const INVALID_FORMAT := "Invalid format. Use: !contrib -C contrib_id new_code"
  const FAILED := "Failed to replace code. Please try again."
  const VERB := "replace"

  function Replaced(id: nat): string {
    "Contribution #" + NatToString(id) + " has been replaced with your new code."
  }

  /** `matches`: `/!contrib\s+-C\s+\d+\s+.+/i` finds a match. */
  predicate Matches(message: string) {
    FlagIdCode(message, "-c").Some?
  }

  /** The id and the new code (trimmed, escapes converted, not yet formatted) that `execute` reads from the line. */
  function Request(message: string): (r: Option<(nat, string)>)
    ensures r.Some? <==> Matches(message)
  {
    match FlagIdCode(message, "-c")
    case None => None
    case Some(m) => Some((DigitsValue(m.id), ReplaceNewlineEscapes(Trim(m.code))))
  }

  /** `execute`, as a function of everything it reads and changes. */
  function Run(w: World, ctx: Context): (World, ExecOutcome) {
    Respond(w, ctx, Request(ctx.message))
  }

  /** What `execute` does once the line has been read into `req`. */
  function Respond(w: World, ctx: Context, req: Option<(nat, string)>): (World, ExecOutcome) {
    match req
    case None => Finish(w, ctx, INVALID_FORMAT, FAILED)
    case Some((id, code)) =>
      var (rates, limited) := RateCheck(w.rates, ctx.username, ctx.now);
      var w1 := w.(rates := rates);
      if limited then Finish(w1, ctx, TOO_QUICK, FAILED)
      else if id == 0 then Finish(w1, ctx, INVALID_ID, FAILED)
      else ReplaceExisting(w1, ctx, id, code)
  }

  /** The lookup, the ownership checks and the update, once the call has passed the rate limit with a positive id. */
  function ReplaceExisting(w: World, ctx: Context, id: nat, code: string): (World, ExecOutcome) {
    match Get(w.store, id)
    case Err => Catch(w, ctx, FAILED)
    case Ok(found) =>
      match Guard(found, ctx.username)
      case Allowed(c) =>
        (match UpdateCode(w.store, id, Formatter.FormatDisplay(code))
         case Err => Catch(w, ctx, FAILED)
         case Ok(st) => Finish(w.(store := st), ctx, Replaced(id), FAILED))
      case v => Finish(w, ctx, GuardText(v, id, VERB), FAILED)
  }

  method Execute(store: ContributionStore, limiter: Limiter, chat: ChatClient, ctx: Context) returns (o: ExecOutcome)
    modifies store, limiter, chat
    ensures (Snapshot(store, limiter, chat), o) == Run(old(Snapshot(store, limiter, chat)), ctx)
  {
    var m := FlagIdCode(ctx.message, "-c");
    if m.None? {
      o := FinishReply(chat, ctx, INVALID_FORMAT, FAILED);
      return;
    }
    var limited := limiter.IsRateLimited(ctx.username, ctx.now);
    if limited {
      o := FinishReply(chat, ctx, TOO_QUICK, FAILED);
      return;
    }
    var contribId := DigitsValue(m.value.id);
    if contribId == 0 {
      o := FinishReply(chat, ctx, INVALID_ID, FAILED);
      return;
    }
    var newCode := Trim(m.value.code);
    newCode := ReplaceNewlineEscapes(newCode);
    o := ReplaceStored(store, limiter, chat, ctx, contribId, newCode);
  }

  /** The tail of `execute` from the formatting of the new code on. */
  method ReplaceStored(store: ContributionStore, limiter: Limiter, chat: ChatClient, ctx: Context, contribId: nat, newCode: string)
    returns (o: ExecOutcome)
    modifies store, chat
    ensures (Snapshot(store, limiter, chat), o) == ReplaceExisting(old(Snapshot(store, limiter, chat)), ctx, contribId, newCode)
  {
    var formattedCode := Formatter.FormatCode(newCode, false);
    var existing := store.GetContribution(contribId);
    if existing.Err? {
      o := CatchReply(chat, ctx, FAILED);
      return;
    }
    if existing.value.None? {
      o := FinishReply(chat, ctx, GuardText(NotFound, contribId, VERB), FAILED);
      return;
    }
    var c := existing.value.value;
    if c.username != ctx.username {
      o := FinishReply(chat, ctx, GuardText(NotOwner, contribId, VERB), FAILED);
      return;
    }
    if c.status != PENDING {
      o := FinishReply(chat, ctx, GuardText(NotPending, contribId, VERB), FAILED);
      return;
    }
    var r := store.UpdateContribution(contribId, formattedCode);
    if r.Err? {
      o := CatchReply(chat, ctx, FAILED);
      return;
    }
    o := FinishReply(chat, ctx, Replaced(contribId), FAILED);
  }

  // ---------------------------------------------------------------------

  /** The store after record `id`'s code is replaced by `code`, formatted for display. */
  function WithCode(st: StoreState, id: nat, code: string): StoreState
    requires id in st.contribs
  {
    st.(contribs := st.contribs[id := st.contribs[id].(code := Formatter.FormatDisplay(code))])
  }

  /**
   * The rate limiter is charged exactly when the line matches, before the id
   * is checked. The only change to the store is the replacement of a positive
   * id's code, for an owner's pending record, by a call that was not limited.
   */
  lemma Effect(w: World, ctx: Context, req: Option<(nat, string)>)
    ensures Respond(w, ctx, req).0.rates == if req.None? then w.rates else RateCheck(w.rates, ctx.username, ctx.now).0
    ensures var st := Respond(w, ctx, req).0.store;
      st == w.store ||
      (req.Some? && req.value.0 > 0 && !RateCheck(w.rates, ctx.username, ctx.now).1 &&
       Guard(Lookup(w.store, req.value.0), ctx.username).Allowed? &&
       st == WithCode(w.store, req.value.0, req.value.1))
  {
    match req
    case None =>
    case Some((id, code)) =>
      if id > 0 && GetOp !in w.store.failing {
        GetIsLookup(w.store, id);
      }
  }

  /** A limited call gets the too-quick reply and no update, whatever the id. */
  lemma LimitedMakesNoUpdate(w: World, ctx: Context, id: nat, code: string)
    requires RateCheck(w.rates, ctx.username, ctx.now).1 && !w.chat.down
    ensures Respond(w, ctx, Some((id, code))) ==
      (w.(rates := RateCheck(w.rates, ctx.username, ctx.now).0, chat := Replied(w.chat, ctx, TOO_QUICK)), Handled(true))
  {
  }

  /** With every check passed, the old code is discarded for the formatted new code. */
  lemma ReplacesWhenAllowed(w: World, ctx: Context, id: nat, code: string)
    requires id > 0 && !RateCheck(w.rates, ctx.username, ctx.now).1
    requires Guard(Lookup(w.store, id), ctx.username).Allowed?
    requires GetOp !in w.store.failing && UpdateOp !in w.store.failing && !w.chat.down
    ensures Respond(w, ctx, Some((id, code))) ==
      (w.(rates := RateCheck(w.rates, ctx.username, ctx.now).0, store := WithCode(w.store, id, code),
          chat := Replied(w.chat, ctx, Replaced(id))), Handled(true))
  {
    GetIsLookup(w.store, id);
  }

  /** A failed check leaves the store alone and sends that check's reply, in the order exists, owner, pending. */
  lemma GuardFailureReplies(w: World, ctx: Context, id: nat, code: string)
    requires id > 0 && !RateCheck(w.rates, ctx.username, ctx.now).1
    requires !Guard(Lookup(w.store, id), ctx.username).Allowed?
    requires GetOp !in w.store.failing && !w.chat.down
    ensures Respond(w, ctx, Some((id, code))) ==
      (w.(rates := RateCheck(w.rates, ctx.username, ctx.now).0,
          chat := Replied(w.chat, ctx, GuardText(Guard(Lookup(w.store, id), ctx.username), id, VERB))), Handled(true))
  {
    GetIsLookup(w.store, id);
  }

  /** An id of 0 that passes the rate limit gets the invalid-id reply before the store is read. */
  lemma ZeroIdRejected(w: World, ctx: Context, code: string)
    requires !RateCheck(w.rates, ctx.username, ctx.now).1 && !w.chat.down
    ensures Respond(w, ctx, Some((0, code))) ==
      (w.(rates := RateCheck(w.rates, ctx.username, ctx.now).0, chat := Replied(w.chat, ctx, INVALID_ID)), Handled(true))
  {
  }

  /** Whatever the line holds, `execute` resolves to `true` with exactly one more reply, unless the chat itself is down. */
  lemma AlwaysTrue(w: World, ctx: Context, req: Option<(nat, string)>)
    ensures !w.chat.down ==> Respond(w, ctx, req).1 == Handled(true) && |Respond(w, ctx, req).0.chat.sent| == |w.chat.sent| + 1
    ensures w.chat.down ==> Respond(w, ctx, req).1 == Threw && Respond(w, ctx, req).0.chat == w.chat
  {
    match req
    case None =>
      FinishIs(w, ctx, INVALID_FORMAT, FAILED);
    case Some((id, code)) =>
      var w1 := w.(rates := RateCheck(w.rates, ctx.username, ctx.now).0);
      if !RateCheck(w.rates, ctx.username, ctx.now).1 && id != 0 {
        assert Respond(w, ctx, req) == ReplaceExisting(w1, ctx, id, code);
        ExistingReplies(w1, ctx, id, code);
      }
  }

  /** The part after the rate limit sends exactly one reply too. */
  lemma ExistingReplies(w: World, ctx: Context, id: nat, code: string)
    ensures var (w', o) := ReplaceExisting(w, ctx, id, code);
      && (!w.chat.down ==> o == Handled(true) && |w'.chat.sent| == |w.chat.sent| + 1)
      && (w.chat.down ==> o == Threw && w'.chat == w.chat)
  {
  }

  /** Replacing the code of an owner's pending record is an edit the rule allows, and keeps the store consistent. */
  lemma WithCodeKeepsRule(st: StoreState, id: nat, code: string, username: string)
    requires Guard(Lookup(st, id), username).Allowed?
    ensures OwnPendingEdits(st, WithCode(st, id, code), username)
    ensures ValidState(st) ==> ValidState(WithCode(st, id, code))
  {
  }

  /** The command only ever edits the caller's own pending records, and keeps the store consistent. */
  lemma KeepsOwnPendingRule(w: World, ctx: Context)
    ensures OwnPendingEdits(w.store, Run(w, ctx).0.store, ctx.username)
    ensures ValidState(w.store) ==> ValidState(Run(w, ctx).0.store)
  {
    var req := Request(ctx.message);
    Effect(w, ctx, req);
    var st := Respond(w, ctx, req).0.store;
    if st == w.store {
      OwnPendingEditsReflexive(w.store, ctx.username);
    } else {
      WithCodeKeepsRule(w.store, req.value.0, req.value.1, ctx.username);
    }
  }

  /**
   * An allowed replacement stores `formatCode` of its argument, so an argument
   * already in display form is stored as given.
   */
  lemma ReplaceWithFormatted(w: World, ctx: Context, id: nat, code: string)
    requires id > 0 && !RateCheck(w.rates, ctx.username, ctx.now).1
    requires Guard(Lookup(w.store, id), ctx.username).Allowed?
    requires GetOp !in w.store.failing && UpdateOp !in w.store.failing && !w.chat.down
    ensures Respond(w, ctx, Some((id, code))).0.store.contribs[id].code == Formatter.FormatDisplay(code)
    ensures Respond(w, ctx, Some((id, Formatter.FormatDisplay(code)))).0.store.contribs[id].code == Formatter.FormatDisplay(code)
  {
    ReplacesWhenAllowed(w, ctx, id, code);
    ReplacesWhenAllowed(w, ctx, id, Formatter.FormatDisplay(code));
    Formatter.FormatDisplayIdempotent(code);
  }
}
