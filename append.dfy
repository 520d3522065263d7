// lib/commands/append.ts: `!contrib -A <id> <code>` adds code to the end of
// one of the caller's pending contributions.
module AppendCommand {
  import opened Text
  import opened Store
  import opened Chat
  import opened RateLimiter
  import opened CommandBase
  import opened Patterns

  const INVALID_FORMAT := "Invalid append format. Use: !contrib -A contrib_id your_code_here"
  const FAILED := "Failed to append code. Please try again."
  const VERB := "append to"

  function Updated(id: nat): string {
    "Contribution #" + NatToString(id) + " has been updated with your additional code."
  }

  /** `matches`: `/!contrib\s+-A\s+\d+\s+.+/i` finds a match. */
  predicate Matches(message: string) {
    FlagIdCode(message, "-a").Some?
  }

  /** The id and the code to append that `execute` reads from the line. */
  function Request(message: string): (r: Option<(nat, string)>)
    ensures r.Some? <==> Matches(message)
    ensures r.Some? ==> !HasNewlineEscape(r.value.1)
  {
    match FlagIdCode(message, "-a")
    case None => None
    case Some(m) =>
      NoNewlineEscapeLeft(Trim(m.code));
      Some((DigitsValue(m.id), ReplaceNewlineEscapes(Trim(m.code))))
  }

  /** `execute`, as a function of everything it reads and changes. */
  function Run(w: World, ctx: Context): (World, ExecOutcome) {
    Respond(w, ctx, Request(ctx.message))
  }

  /** What `execute` does once the line has been read into `req`. */
  function Respond(w: World, ctx: Context, req: Option<(nat, string)>): (World, ExecOutcome) {
    match req
    case None => Finish(w, ctx, INVALID_FORMAT, FAILED)
    case Some((id, suffix)) =>
      if id == 0 then Finish(w, ctx, INVALID_ID, FAILED)
      else
        match Get(w.store, id)
        case Err => Catch(w, ctx, FAILED)
        case Ok(found) =>
          match Guard(found, ctx.username)
          case Allowed(c) =>
            (match UpdateCode(w.store, id, c.code + suffix)
             case Err => Catch(w, ctx, FAILED)
             case Ok(st) => Finish(w.(store := st), ctx, Updated(id), FAILED))
          case v => Finish(w, ctx, GuardText(v, id, VERB), FAILED)
  }

  method Execute(store: ContributionStore, limiter: Limiter, chat: ChatClient, ctx: Context) returns (o: ExecOutcome)
    modifies store, chat
    ensures (Snapshot(store, limiter, chat), o) == Run(old(Snapshot(store, limiter, chat)), ctx)
  {
    var m := FlagIdCode(ctx.message, "-a");
    if m.None? {
      o := FinishReply(chat, ctx, INVALID_FORMAT, FAILED);
      return;
    }
    var contribId := DigitsValue(m.value.id);
    if contribId == 0 {
      o := FinishReply(chat, ctx, INVALID_ID, FAILED);
      return;
    }
    var codeToAppend := Trim(m.value.code);
    codeToAppend := ReplaceNewlineEscapes(codeToAppend);
    var existing := store.GetContribution(contribId);
    if existing.Err? {
      o := CatchReply(chat, ctx, FAILED);
      return;
    }
    if existing.value.None? {
      o := FinishReply(chat, ctx, GuardText(NotFound, contribId, VERB), FAILED);
      return;
    }
    var c := existing.value.value;
    if c.username != ctx.username {
      o := FinishReply(chat, ctx, GuardText(NotOwner, contribId, VERB), FAILED);
      return;
    }
    if c.status != PENDING {
      o := FinishReply(chat, ctx, GuardText(NotPending, contribId, VERB), FAILED);
      return;
    }
    var updatedCode := c.code + codeToAppend;
    var r := store.UpdateContribution(contribId, updatedCode);
    if r.Err? {
      o := CatchReply(chat, ctx, FAILED);
      return;
    }
    o := FinishReply(chat, ctx, Updated(contribId), FAILED);
  }

  // ---------------------------------------------------------------------

  /** The store after a successful append to record `id`. */
  function Appended(st: StoreState, id: nat, suffix: string): StoreState
    requires id in st.contribs
  {
    st.(contribs := st.contribs[id := st.contribs[id].(code := st.contribs[id].code + suffix)])
  }

  /**
   * The only change `execute` can make to the store is to append the
   * requested code, with no separator, to a positive id's record that the
   * caller owns and that is pending; the rate limiter is never touched.
   */
  lemma StoreEffect(w: World, ctx: Context, req: Option<(nat, string)>)
    ensures Respond(w, ctx, req).0.rates == w.rates
    ensures var st := Respond(w, ctx, req).0.store;
      st == w.store ||
      (req.Some? && req.value.0 > 0 && Guard(Lookup(w.store, req.value.0), ctx.username).Allowed? &&
       st == Appended(w.store, req.value.0, req.value.1))
  {
    match req
    case None =>
    case Some((id, suffix)) =>
      if id > 0 && GetOp !in w.store.failing {
        GetIsLookup(w.store, id);
      }
  }

  /** With every check passed and a working store, the code is appended and the success reply is sent. */
  lemma AppendsWhenAllowed(w: World, ctx: Context, id: nat, suffix: string)
    requires id > 0 && Guard(Lookup(w.store, id), ctx.username).Allowed?
    requires GetOp !in w.store.failing && UpdateOp !in w.store.failing && !w.chat.down
    ensures Respond(w, ctx, Some((id, suffix))) ==
      (w.(store := Appended(w.store, id, suffix), chat := Replied(w.chat, ctx, Updated(id))), Handled(true))
  {
    GetIsLookup(w.store, id);
  }

  /** A failed check leaves the store alone and sends that check's reply, in the order exists, owner, pending. */
  lemma GuardFailureReplies(w: World, ctx: Context, id: nat, suffix: string)
    requires id > 0 && !Guard(Lookup(w.store, id), ctx.username).Allowed?
    requires GetOp !in w.store.failing && !w.chat.down
    ensures Respond(w, ctx, Some((id, suffix))) ==
      (w.(chat := Replied(w.chat, ctx, GuardText(Guard(Lookup(w.store, id), ctx.username), id, VERB))), Handled(true))
  {
    GetIsLookup(w.store, id);
  }

  /** An id of 0 gets the invalid-id reply before the store is read; a line without a match gets the format reply. */
  lemma RejectedBeforeStore(w: World, ctx: Context, req: Option<(nat, string)>)
    requires (req.None? || req.value.0 == 0) && !w.chat.down
    ensures Respond(w, ctx, req) == (w.(chat := Replied(w.chat, ctx, if req.None? then INVALID_FORMAT else INVALID_ID)), Handled(true))
  {
  }

  /** Whatever the line holds, `execute` resolves to `true` with exactly one more reply, unless the chat itself is down. */
  lemma AlwaysTrue(w: World, ctx: Context, req: Option<(nat, string)>)
    ensures !w.chat.down ==> Respond(w, ctx, req).1 == Handled(true) && |Respond(w, ctx, req).0.chat.sent| == |w.chat.sent| + 1
    ensures w.chat.down ==> Respond(w, ctx, req).1 == Threw && Respond(w, ctx, req).0.chat == w.chat
  {
  }

  /** The command only ever edits the caller's own pending records, and keeps the store consistent. */
  lemma KeepsOwnPendingRule(w: World, ctx: Context)
    ensures OwnPendingEdits(w.store, Run(w, ctx).0.store, ctx.username)
    ensures ValidState(w.store) ==> ValidState(Run(w, ctx).0.store)
  {
    StoreEffect(w, ctx, Request(ctx.message));
  }

  lemma ExampleDigits()
    ensures FlagDigitsAt("!contrib -A 5 fix()", 0, "-a") == Some((12, 13))
  {
    var s := "!contrib -A 5 fix()";
    CommandArgsAtStart("-A 5 fix()");
    assert LowerChar(s[9]) == '-' && LowerChar(s[10]) == "-a"[1];
    assert CIAt(s, 9, "-a");
    assert IsWs(s[11]) && !IsWs(s[12]) && IsDigit(s[12]) && !IsDigit(s[13]);
    assert WsEnd(s, 11) == 12;
    assert DigitsEnd(s, 12) == 13;
  }

  lemma ExampleCaptureAt()
    ensures FlagIdCodeAt("!contrib -A 5 fix()", 0, "-a") == Some(IdCode("5", "fix()"))
  {
    var s := "!contrib -A 5 fix()";
    ExampleDigits();
    assert WsEnd(s, 13) == 14;
    assert CodeStart(s, 13) == Some(14);
    assert LineEnd(s, 14) == 19;
    assert s[12..13] == "5";
    assert s[14..19] == "fix()";
  }

  lemma ExampleCapture()
    ensures FlagIdCode("!contrib -A 5 fix()", "-a") == Some(IdCode("5", "fix()"))
  {
    ExampleCaptureAt();
    LeftmostAtStart("!contrib -A 5 fix()", FlagIdCodePattern("!contrib -A 5 fix()", "-a"));
  }

  /** `!contrib -A 5 fix()` asks to append `fix()` to record 5. */
  lemma ExampleRequest(message: string)
    requires message == "!contrib -A 5 fix()"
    ensures Request(message) == Some((5, "fix()"))
  {
    ExampleCapture();
    RequestFromCapture(message, IdCode("5", "fix()"));
    ExampleCode();
    assert DigitsValue("5") == 5;
  }

  lemma ExampleCode()
    ensures ReplaceNewlineEscapes(Trim("fix()")) == "fix()"
  {
    TrimUnchanged("fix()");
    ReplaceWithoutBackslash("fix()");
  }

  lemma RequestFromCapture(message: string, m: IdCode)
    requires FlagIdCode(message, "-a") == Some(m)
    ensures Request(message) == Some((DigitsValue(m.id), ReplaceNewlineEscapes(Trim(m.code))))
  {
  }

  /** `!contrib -A 5`, with no code after the id, is not an append command. */
  lemma ExampleWithoutCode()
    ensures !Matches("!contrib -A 5")
  {
    var s := "!contrib -A 5";
    CommandArgsAtStart("-A 5");
    assert CIAt(s, 9, "-a");
    assert WsEnd(s, 11) == 12;
    assert DigitsEnd(s, 12) == 13;
    assert FlagDigitsAt(s, 0, "-a") == Some((12, 13));
    assert forall k :: 0 < k < |s| ==> s[k] != '!';
    NoCodeAfterDigits(s, "-a");
  }

}
