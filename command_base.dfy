// lib/commands/base.ts: the context a handler runs in, and the shared
// shape of a handler's `execute`: replies go through `client.say`, and a
// `try { ... } catch { say(failure) }` turns thrown errors into a failure
// reply.
module CommandBase {
  import opened Text
  import opened Store
  import opened Chat
  import opened RateLimiter

  /** `CommandContext`, with the clock reading the rate limiter would take. */
  datatype Context = Context(channel: string, username: string, message: string, now: int)

  /** What `execute` ends with: a returned boolean, or a rejected promise. */
  datatype ExecOutcome = Handled(done: bool) | Threw

  /** Everything a handler can change: the store, the rate limiter's table, and the chat. */
  datatype World = World(store: StoreState, rates: map<string, UserRate>, chat: ChatState)

  function Snapshot(store: ContributionStore, limiter: Limiter, chat: ChatClient): World
    reads store, limiter, chat
  {
    World(store.State(), limiter.userRates, chat.State())
  }

  /** Every reply is addressed `@username `. */
  function At(username: string, text: string): string {
    "@" + username + " " + text
  }

  /** `await client.say(channel, `@${username} ${text}`)`. */
  function ReplyChat(c: ChatState, ctx: Context, text: string): (ChatState, bool) {
    SayStep(c, ctx.channel, At(ctx.username, text))
  }

  /** The `catch` block: the failure reply, and if that `say` throws as well, the handler throws. */
  function CatchChat(c: ChatState, ctx: Context, failText: string): (ChatState, ExecOutcome) {
    var (c1, ok) := ReplyChat(c, ctx, failText);
    (c1, if ok then Handled(true) else Threw)
  }

  /** A reply followed by `return true` inside the `try`. */
  function FinishChat(c: ChatState, ctx: Context, text: string, failText: string): (ChatState, ExecOutcome) {
    var (c1, ok) := ReplyChat(c, ctx, text);
    if ok then (c1, Handled(true)) else CatchChat(c1, ctx, failText)
  }

  function Catch(w: World, ctx: Context, failText: string): (World, ExecOutcome) {
    var (c, o) := CatchChat(w.chat, ctx, failText);
    (w.(chat := c), o)
  }

  function Finish(w: World, ctx: Context, text: string, failText: string): (World, ExecOutcome) {
    var (c, o) := FinishChat(w.chat, ctx, text, failText);
    (w.(chat := c), o)
  }

  method CatchReply(chat: ChatClient, ctx: Context, failText: string) returns (o: ExecOutcome)
    modifies chat
    ensures (chat.State(), o) == CatchChat(old(chat.State()), ctx, failText)
  {
    var ok := chat.Say(ctx.channel, At(ctx.username, failText));
    o := if ok then Handled(true) else Threw;
  }

  method FinishReply(chat: ChatClient, ctx: Context, text: string, failText: string) returns (o: ExecOutcome)
    modifies chat
    ensures (chat.State(), o) == FinishChat(old(chat.State()), ctx, text, failText)
  {
    var ok := chat.Say(ctx.channel, At(ctx.username, text));
    if ok {
      o := Handled(true);
    } else {
      o := CatchReply(chat, ctx, failText);
    }
  }

  /** A reply ends a handler with `true`, or it throws when the chat is down: it never ends with `false`. */
  lemma FinishNeverFalse(c: ChatState, ctx: Context, text: string, failText: string)
    ensures FinishChat(c, ctx, text, failText).1 == (if c.down then Threw else Handled(true))
    ensures FinishChat(c, ctx, text, failText).0 == (if c.down then c else c.(sent := c.sent + [Reply(ctx.channel, At(ctx.username, text))]))
  {
  }

  // ---------------------------------------------------------------------
  // The rule every command keeps: it only ever changes the caller's own
  // pending records, and never renames, re-files or re-numbers one.

  predicate SameIdentity(a: Contribution, b: Contribution) {
    a.id == b.id && a.username == b.username && a.filename == b.filename &&
    a.lineNumber == b.lineNumber && a.status == b.status
  }

  /**
   * From `before` to `after`: new records belong to `username`, are pending and
   * have fresh ids; kept records keep their identity; a record whose code
   * changed or that was removed was a pending record of `username`.
   */
  predicate OwnPendingEdits(before: StoreState, after: StoreState, username: string) {
    && before.nextId <= after.nextId
    && (forall id :: id in after.contribs && id !in before.contribs ==>
          id >= before.nextId && after.contribs[id].username == username && after.contribs[id].status == PENDING)
    && (forall id :: id in before.contribs && id in after.contribs ==> SameIdentity(before.contribs[id], after.contribs[id]))
    && (forall id :: id in before.contribs && (id !in after.contribs || after.contribs[id] != before.contribs[id]) ==>
          before.contribs[id].username == username && before.contribs[id].status == PENDING)
  }

  lemma OwnPendingEditsReflexive(st: StoreState, username: string)
    ensures OwnPendingEdits(st, st, username)
  {
  }

  /** Two steps that each keep the rule keep it together, so it holds over any sequence of commands. */
  lemma OwnPendingEditsTransitive(a: StoreState, b: StoreState, c: StoreState, username: string)
    requires ValidState(a)
    requires OwnPendingEdits(a, b, username) && OwnPendingEdits(b, c, username)
    ensures OwnPendingEdits(a, c, username)
  {
    forall id | id in a.contribs && id in c.contribs
      ensures SameIdentity(a.contribs[id], c.contribs[id])
    {
      assert id < a.nextId <= b.nextId;
    }
    forall id | id in a.contribs && (id !in c.contribs || c.contribs[id] != a.contribs[id])
      ensures a.contribs[id].username == username && a.contribs[id].status == PENDING
    {
      if id in b.contribs && b.contribs[id] == a.contribs[id] {
        assert id !in c.contribs || c.contribs[id] != b.contribs[id];
      }
    }
    forall id | id in c.contribs && id !in a.contribs
      ensures c.contribs[id].username == username && c.contribs[id].status == PENDING
    {
      if id in b.contribs {
        assert SameIdentity(b.contribs[id], c.contribs[id]);
      }
    }
  }

  // ---------------------------------------------------------------------
  // Replies and checks shared by the handlers

  const INVALID_ID := "Invalid contribution ID. Please use a positive number."
  const TOO_QUICK := "You're contributing too quickly. Please wait a moment and try again."

  /**
   * The checks before an edit, in their order: the record exists, it belongs
   * to the caller, it is pending.
   */
  datatype Verdict = NotFound | NotOwner | NotPending | Allowed(c: Contribution)

  function Guard(found: Option<Contribution>, username: string): (v: Verdict)
    ensures v == NotFound <==> found.None?
    ensures v == NotOwner <==> found.Some? && found.value.username != username
    ensures v == NotPending <==> found.Some? && found.value.username == username && found.value.status != PENDING
    ensures v.Allowed? <==> found.Some? && found.value.username == username && found.value.status == PENDING
    ensures v.Allowed? ==> v.c == found.value
  {
    match found
    case None => NotFound
    case Some(c) =>
      if c.username != username then NotOwner
      else if c.status != PENDING then NotPending
      else Allowed(c)
  }

  /** The reply for a failed check; `verb` is the edit ("append to", "delete", ...). */
  function GuardText(v: Verdict, id: nat, verb: string): string
    requires !v.Allowed?
  {
    match v
    case NotFound => "Contribution #" + NatToString(id) + " not found."
    case NotOwner => "You can only " + verb + " your own contributions."
    case NotPending => "You can only " + verb + " pending contributions."
  }

  /** The record `getContribution(id)` finds in a store that does not fail. */
  function Lookup(st: StoreState, id: nat): Option<Contribution> {
    if id in st.contribs then Some(st.contribs[id]) else None
  }

  lemma GetIsLookup(st: StoreState, id: nat)
    requires GetOp !in st.failing
    ensures Get(st, id) == Ok(Lookup(st, id))
  {
  }

  /** The chat after one more reply `text` to the caller. */
  function Replied(c: ChatState, ctx: Context, text: string): ChatState {
    c.(sent := c.sent + [Reply(ctx.channel, At(ctx.username, text))])
  }

  /** A reply followed by `return true`: the reply and `true`, or a throw that leaves the world as it was. */
  lemma FinishIs(w: World, ctx: Context, text: string, failText: string)
    ensures Finish(w, ctx, text, failText) ==
      if w.chat.down then (w, Threw) else (w.(chat := Replied(w.chat, ctx, text)), Handled(true))
  {
  }

  /** The `catch` block: the failure reply and `true`, or a throw that leaves the world as it was. */
  lemma CatchIs(w: World, ctx: Context, failText: string)
    ensures Catch(w, ctx, failText) ==
      if w.chat.down then (w, Threw) else (w.(chat := Replied(w.chat, ctx, failText)), Handled(true))
  {
  }

  /** `, line N` when the line number is truthy (present and not 0), and nothing otherwise. */
  function LineSuffix(lineNumber: Option<int>): (r: string)
    ensures r != [] <==> lineNumber.Some? && lineNumber.value != 0
    ensures r != [] ==> r == ", line " + IntToString(lineNumber.value)
  {
    if lineNumber.Some? && lineNumber.value != 0 then ", line " + IntToString(lineNumber.value) else ""
  }
}
