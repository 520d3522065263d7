// lib/commands/delete.ts: `!contrib -D <id>` removes one of the caller's
// pending contributions.
module DeleteCommand {
  import opened Text
  import opened Store
  import opened Chat
  import opened RateLimiter
  import opened CommandBase
  import opened Patterns

  const FAILED := "Failed to delete contribution. Please try again."
  const VERB := "delete"

  function Deleted(id: nat): string {
    "Contribution #" + NatToString(id) + " has been deleted."
  }

  /** `matches`: `/!contrib\s+-D\s+\d+$/i` finds a match, so the id ends the line. */
  predicate Matches(message: string) {
    HasFlagIdEnd(message, "-d")
  }

  /**
   * The id `execute` reads with the unanchored `/!contrib\s+-D\s+(\d+)/i`;
   * none when that finds no match, where the source's non-null assertion
   * lets `match[1]` throw.
   */
  function Request(message: string): Option<nat> {
    match FlagDigits(message, "-d")
    case None => None
    case Some(digits) => Some(DigitsValue(digits))
  }

  /** A line that `matches` always yields an id, so the throwing path is only reachable by calling `execute` directly. */
  lemma MatchesYieldsId(message: string)
    requires Matches(message)
    ensures Request(message).Some?
  {
    AnchoredImpliesCapture(message, "-d");
  }

  function Run(w: World, ctx: Context): (World, ExecOutcome) {
    Respond(w, ctx, Request(ctx.message))
  }

  /** What `execute` does once the line has been read into `req`. */
  function Respond(w: World, ctx: Context, req: Option<nat>): (World, ExecOutcome) {
    match req
    case None => Catch(w, ctx, FAILED)
    case Some(id) =>
      if id == 0 then Finish(w, ctx, INVALID_ID, FAILED)
      else
        match Get(w.store, id)
        case Err => Catch(w, ctx, FAILED)
        case Ok(found) =>
          match Guard(found, ctx.username)
          case Allowed(_) =>
            (match Delete(w.store, id)
             case Err => Catch(w, ctx, FAILED)
             case Ok(st) => Finish(w.(store := st), ctx, Deleted(id), FAILED))
          case v => Finish(w, ctx, GuardText(v, id, VERB), FAILED)
  }

  method Execute(store: ContributionStore, limiter: Limiter, chat: ChatClient, ctx: Context) returns (o: ExecOutcome)
    modifies store, chat
    ensures (Snapshot(store, limiter, chat), o) == Run(old(Snapshot(store, limiter, chat)), ctx)
  {
    var m := FlagDigits(ctx.message, "-d");
    if m.None? {
      o := CatchReply(chat, ctx, FAILED);
      return;
    }
    var contribId := DigitsValue(m.value);
    if contribId == 0 {
      o := FinishReply(chat, ctx, INVALID_ID, FAILED);
      return;
    }
    var existing := store.GetContribution(contribId);
    if existing.Err? {
      o := CatchReply(chat, ctx, FAILED);
      return;
    }
    if existing.value.None? {
      o := FinishReply(chat, ctx, GuardText(NotFound, contribId, VERB), FAILED);
      return;
    }
    var c := existing.value.value;
    if c.username != ctx.username {
      o := FinishReply(chat, ctx, GuardText(NotOwner, contribId, VERB), FAILED);
      return;
    }
    if c.status != PENDING {
      o := FinishReply(chat, ctx, GuardText(NotPending, contribId, VERB), FAILED);
      return;
    }
    var r := store.DeleteContribution(contribId);
    if r.Err? {
      o := CatchReply(chat, ctx, FAILED);
      return;
    }
    o := FinishReply(chat, ctx, Deleted(contribId), FAILED);
  }

  // ---------------------------------------------------------------------

  /**
   * `deleteContribution` is reached only for a positive id whose record
   * exists, belongs to the caller and is pending; it removes that record and
   * nothing else. The rate limiter is never touched.
   */
  lemma StoreEffect(w: World, ctx: Context, req: Option<nat>)
    ensures Respond(w, ctx, req).0.rates == w.rates
    ensures var st := Respond(w, ctx, req).0.store;
      st == w.store ||
      (req.Some? && req.value > 0 && Guard(Lookup(w.store, req.value), ctx.username).Allowed? &&
       st == w.store.(contribs := w.store.contribs - {req.value}))
  {
    match req
    case None =>
    case Some(id) =>
      if id > 0 && GetOp !in w.store.failing {
        GetIsLookup(w.store, id);
      }
  }

  /** With every check passed and a working store, the record is gone and the success reply is sent. */
  lemma DeletesWhenAllowed(w: World, ctx: Context, id: nat)
    requires id > 0 && Guard(Lookup(w.store, id), ctx.username).Allowed?
    requires GetOp !in w.store.failing && DeleteOp !in w.store.failing && !w.chat.down
    ensures Respond(w, ctx, Some(id)) ==
      (w.(store := w.store.(contribs := w.store.contribs - {id}), chat := Replied(w.chat, ctx, Deleted(id))), Handled(true))
  {
    GetIsLookup(w.store, id);
  }

  /** A failed check leaves the store alone and sends that check's reply, in the order exists, owner, pending. */
  lemma GuardFailureReplies(w: World, ctx: Context, id: nat)
    requires id > 0 && !Guard(Lookup(w.store, id), ctx.username).Allowed?
    requires GetOp !in w.store.failing && !w.chat.down
    ensures Respond(w, ctx, Some(id)) ==
      (w.(chat := Replied(w.chat, ctx, GuardText(Guard(Lookup(w.store, id), ctx.username), id, VERB))), Handled(true))
  {
    GetIsLookup(w.store, id);
  }

  /** An id of 0 gets the invalid-id reply before the store is read. */
  lemma ZeroIdRejected(w: World, ctx: Context)
    requires !w.chat.down
    ensures Respond(w, ctx, Some(0)) == (w.(chat := Replied(w.chat, ctx, INVALID_ID)), Handled(true))
  {
  }

  /** Whatever the line holds, `execute` resolves to `true` with exactly one more reply, unless the chat itself is down. */
  lemma AlwaysTrue(w: World, ctx: Context, req: Option<nat>)
    ensures !w.chat.down ==> Respond(w, ctx, req).1 == Handled(true) && |Respond(w, ctx, req).0.chat.sent| == |w.chat.sent| + 1
    ensures w.chat.down ==> Respond(w, ctx, req).1 == Threw && Respond(w, ctx, req).0.chat == w.chat
  {
  }

  /** The command only ever removes the caller's own pending records, and keeps the store consistent. */
  lemma KeepsOwnPendingRule(w: World, ctx: Context)
    ensures OwnPendingEdits(w.store, Run(w, ctx).0.store, ctx.username)
    ensures ValidState(w.store) ==> ValidState(Run(w, ctx).0.store)
  {
    StoreEffect(w, ctx, Request(ctx.message));
  }
}
