// lib/commands/contrib.ts: `!contrib <file> [-l <line>] <code>` submits a new
// contribution. The line is parsed, the call is charged against the rate
// limit, the code is checked for duplicates and line conflicts, and a pending
// record holding the display form of the code is created.
module ContribCommand {
  import opened Text
  import opened Store
  import opened Chat
  import opened RateLimiter
  import opened CommandBase
  import opened Patterns
  import Parser
  import Formatter
  import Validator

  const INVALID_USAGE := "Invalid usage ❌. Use: !contrib filename -l line_number(optional) code or !contrib --help"
  const PERSONAL_DUPLICATE := "You've already submitted this code. Please try something different."
  const ACCEPTED_DUPLICATE := "This code has already been accepted. Please try something different."
  const LINE_CONFLICT := "Another user has a pending contribution for that line. Please choose a different line or wait for it to be reviewed."
  const FAILED := "Failed to save contribution. Please try again later."

  function Saved(id: nat): string {
    "Contribution saved! ID: " + NatToString(id)
  }

  /**
   * `matches`: no flag of another command follows `!contrib` anywhere in the
   * line, and somewhere `!contrib` is followed by a path with an extension.
   */
  predicate Matches(message: string) {
    Leftmost(message, FlagPrefixPattern(message)).None? && Leftmost(message, FilePathPattern(message)).Some?
  }

  /** The duplicate key `execute` checks: the normalized code followed by the filename. */
  function CodeHash(p: Parser.Contribution): string {
    Formatter.NormalizeKey(p.code) + p.filename
  }

  /** `execute`, as a function of everything it reads and changes. */
  function Run(w: World, ctx: Context): (World, ExecOutcome) {
    Respond(w, ctx, Parser.ParseSpec(ctx.message))
  }

  /** What `execute` does once the line has been parsed into `parsed`. */
  function Respond(w: World, ctx: Context, parsed: Option<Parser.Contribution>): (World, ExecOutcome) {
    match parsed
    case None => Finish(w, ctx, INVALID_USAGE, FAILED)
    case Some(p) =>
      var (rates, limited) := RateCheck(w.rates, ctx.username, ctx.now);
      var w1 := w.(rates := rates);
      if limited then Finish(w1, ctx, TOO_QUICK, FAILED)
      else
        var v := Validator.Validate(w1.store, p.filename, p.lineNumber, CodeHash(p), ctx.username);
        if v.personalDuplicate then Finish(w1, ctx, PERSONAL_DUPLICATE, FAILED)
        else if v.acceptedDuplicate then Finish(w1, ctx, ACCEPTED_DUPLICATE, FAILED)
        else if v.lineConflict then Finish(w1, ctx, LINE_CONFLICT, FAILED)
        else
          match Create(w1.store, ctx.username, p.filename, p.lineNumber, Formatter.FormatDisplay(p.code))
          case Err => Catch(w1, ctx, FAILED)
          case Ok((st, id)) => Finish(w1.(store := st), ctx, Saved(id), FAILED)
  }

  method Execute(store: ContributionStore, limiter: Limiter, chat: ChatClient, ctx: Context) returns (o: ExecOutcome)
    modifies store, limiter, chat
    ensures (Snapshot(store, limiter, chat), o) == Run(old(Snapshot(store, limiter, chat)), ctx)
  {
    var contribution := Parser.ParseContribution(ctx.message);
    if contribution.None? {
      o := FinishReply(chat, ctx, INVALID_USAGE, FAILED);
      return;
    }
    var p := contribution.value;
    var limited := limiter.IsRateLimited(ctx.username, ctx.now);
    if limited {
      o := FinishReply(chat, ctx, TOO_QUICK, FAILED);
      return;
    }
    var formattedCode := Formatter.FormatCode(p.code, false);
    var normalized := Formatter.FormatCode(p.code, true);
    var codeHash := normalized + p.filename;
    var validation := Validator.ValidateContribution(store, p.filename, p.lineNumber, codeHash, ctx.username);
    if validation.personalDuplicate {
      o := FinishReply(chat, ctx, PERSONAL_DUPLICATE, FAILED);
      return;
    }
    if validation.acceptedDuplicate {
      o := FinishReply(chat, ctx, ACCEPTED_DUPLICATE, FAILED);
      return;
    }
    if validation.lineConflict {
      o := FinishReply(chat, ctx, LINE_CONFLICT, FAILED);
      return;
    }
    var result := store.CreateContribution(ctx.username, p.filename, p.lineNumber, formattedCode);
    if result.Err? {
      o := CatchReply(chat, ctx, FAILED);
      return;
    }
    o := FinishReply(chat, ctx, Saved(result.value), FAILED);
  }

  // ---------------------------------------------------------------------

  /** The record a successful submission of `p` by `username` creates under `id`. */
  function NewRecord(id: nat, username: string, p: Parser.Contribution): Contribution {
    Contribution(id, username, p.filename, p.lineNumber, Formatter.FormatDisplay(p.code), PENDING)
  }

  /**
   * A line that does not parse gets the usage reply and costs nothing: the
   * rate limiter and the store are untouched.
   */
  lemma UnparseableCostsNothing(w: World, ctx: Context)
    requires !w.chat.down
    ensures Respond(w, ctx, None) == (w.(chat := Replied(w.chat, ctx, INVALID_USAGE)), Handled(true))
  {
  }

  /**
   * A parsed line is charged against the rate limit. The only change to the
   * store is one new pending record of the caller under the next id, holding
   * the display form of the code, made by a call that was not limited and
   * met no conflict.
   */
  lemma Effect(w: World, ctx: Context, parsed: Option<Parser.Contribution>)
    ensures Respond(w, ctx, parsed).0.rates == if parsed.None? then w.rates else RateCheck(w.rates, ctx.username, ctx.now).0
    ensures var st := Respond(w, ctx, parsed).0.store;
      st == w.store ||
      (parsed.Some? && !RateCheck(w.rates, ctx.username, ctx.now).1 &&
       Validator.Validate(w.store, parsed.value.filename, parsed.value.lineNumber, CodeHash(parsed.value), ctx.username)
         == Validator.NO_CONFLICTS &&
       st == w.store.(contribs := w.store.contribs[w.store.nextId := NewRecord(w.store.nextId, ctx.username, parsed.value)],
                      nextId := w.store.nextId + 1))
  {
  }

  /**
   * The conflict replies come in a fixed order: a personal duplicate wins
   * over an accepted duplicate, which wins over a line conflict; none of them
   * writes to the store.
   */
  lemma ConflictPriority(w: World, ctx: Context, p: Parser.Contribution)
    requires !RateCheck(w.rates, ctx.username, ctx.now).1 && !w.chat.down
    requires Validator.Validate(w.store, p.filename, p.lineNumber, CodeHash(p), ctx.username) != Validator.NO_CONFLICTS
    ensures var v := Validator.Validate(w.store, p.filename, p.lineNumber, CodeHash(p), ctx.username);
      Respond(w, ctx, Some(p)) ==
      (w.(rates := RateCheck(w.rates, ctx.username, ctx.now).0,
          chat := Replied(w.chat, ctx,
            if v.personalDuplicate then PERSONAL_DUPLICATE
            else if v.acceptedDuplicate then ACCEPTED_DUPLICATE
            else LINE_CONFLICT)), Handled(true))
  {
  }

  /** A submission with no conflict and a working store is saved, and the reply carries its new id. */
  lemma SavesWhenClear(w: World, ctx: Context, p: Parser.Contribution)
    requires !RateCheck(w.rates, ctx.username, ctx.now).1 && !w.chat.down && CreateOp !in w.store.failing
    requires Validator.Validate(w.store, p.filename, p.lineNumber, CodeHash(p), ctx.username) == Validator.NO_CONFLICTS
    ensures var id := w.store.nextId;
      Respond(w, ctx, Some(p)) ==
      (w.(rates := RateCheck(w.rates, ctx.username, ctx.now).0,
          store := w.store.(contribs := w.store.contribs[id := NewRecord(id, ctx.username, p)], nextId := id + 1),
          chat := Replied(w.chat, ctx, Saved(id))), Handled(true))
  {
  }

  /**
   * Sending the same contribution again is caught as the caller's own
   * duplicate: the stored display form has the same key as the submitted
   * code, so the second submission creates nothing.
   */
  lemma ResubmissionRejected(w: World, ctx: Context, ctx2: Context, p: Parser.Contribution)
    requires ctx2.username == ctx.username && ConflictsOp !in w.store.failing
    requires Respond(w, ctx, Some(p)).0.store != w.store
    ensures var w2 := Respond(w, ctx, Some(p)).0;
      Validator.Validate(w2.store, p.filename, p.lineNumber, CodeHash(p), ctx2.username).personalDuplicate &&
      Respond(w2, ctx2, Some(p)).0.store == w2.store
  {
    Effect(w, ctx, Some(p));
    var w2 := Respond(w, ctx, Some(p)).0;
    var id := w.store.nextId;
    assert w2.store.contribs[id] == NewRecord(id, ctx.username, p);
    Formatter.FormatDisplayKeepsKey(p.code);
    Validator.SeesOwnRecord(w2.store, p.filename, p.lineNumber, CodeHash(p), ctx2.username, id);
  }

  /** Whatever the line holds, `execute` resolves to `true` with exactly one more reply, unless the chat itself is down. */
  lemma AlwaysTrue(w: World, ctx: Context, parsed: Option<Parser.Contribution>)
    ensures !w.chat.down ==> Respond(w, ctx, parsed).1 == Handled(true) && |Respond(w, ctx, parsed).0.chat.sent| == |w.chat.sent| + 1
    ensures w.chat.down ==> Respond(w, ctx, parsed).1 == Threw && Respond(w, ctx, parsed).0.chat == w.chat
  {
  }

  /**
   * The command only ever adds a pending record of the caller, and keeps the
   * store consistent. Unlike the editing commands this needs a consistent
   * store to begin with: the new id must not already be taken.
   */
  lemma KeepsOwnPendingRule(w: World, ctx: Context)
    requires ValidState(w.store)
    ensures OwnPendingEdits(w.store, Run(w, ctx).0.store, ctx.username)
    ensures ValidState(Run(w, ctx).0.store)
  {
    KeepsRuleFor(w, ctx, Parser.ParseSpec(ctx.message));
  }

  lemma KeepsRuleFor(w: World, ctx: Context, parsed: Option<Parser.Contribution>)
    requires ValidState(w.store)
    ensures OwnPendingEdits(w.store, Respond(w, ctx, parsed).0.store, ctx.username)
    ensures ValidState(Respond(w, ctx, parsed).0.store)
  {
    Effect(w, ctx, parsed);
    var st := Respond(w, ctx, parsed).0.store;
    if st != w.store {
      forall id | id in st.contribs ensures id < st.nextId && st.contribs[id].id == id {
        if id != w.store.nextId {
          assert id in w.store.contribs;
        }
      }
    }
  }
}
