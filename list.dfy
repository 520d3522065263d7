// lib/commands/list.ts: `!contrib -ls` lists the caller's five most recent
// contributions. It reads the store and never writes it.
module ListCommand {
  import opened Text
  import opened Store
  import opened Chat
  import opened RateLimiter
  import opened CommandBase
  import opened Patterns

  const LIMIT: nat := 5
  const NONE_YET := "You don't have any recent contributions."
  const FAILED := "Failed to fetch your contributions. Please try again."

  /** `matches`: `/!contrib\s+-ls($|\s)/i` finds a match. */
  predicate Matches(message: string) {
    Leftmost(message, ListPattern(message)).Some?
  }

  /** One entry: `#id (filename[, line N], status)`. */
  function Entry(c: Contribution): string {
    "#" + NatToString(c.id) + " (" + c.filename + LineSuffix(c.lineNumber) + ", " + c.status + ")"
  }

  function Entries(cs: seq<Contribution>): (r: seq<string>)
    ensures |r| == |cs| && forall i :: 0 <= i < |cs| ==> r[i] == Entry(cs[i])
  {
    seq(|cs|, i requires 0 <= i < |cs| => Entry(cs[i]))
  }

  /** The reply for the records the store returned, in the store's order. */
  function ListText(cs: seq<Contribution>): string {
    if |cs| == 0 then NONE_YET else "Your recent contributions: " + Join(Entries(cs), ", ")
  }

  function Run(w: World, ctx: Context): (World, ExecOutcome)
    requires ValidState(w.store)
  {
    match UserContributions(w.store, ctx.username, LIMIT)
    case Err => Catch(w, ctx, FAILED)
    case Ok(cs) => Finish(w, ctx, ListText(cs), FAILED)
  }

  method Execute(store: ContributionStore, limiter: Limiter, chat: ChatClient, ctx: Context) returns (o: ExecOutcome)
    requires store.Valid()
    modifies chat
    ensures (Snapshot(store, limiter, chat), o) == Run(old(Snapshot(store, limiter, chat)), ctx)
  {
    var contributions := store.GetUserContributions(ctx.username, LIMIT);
    if contributions.Err? {
      o := CatchReply(chat, ctx, FAILED);
      return;
    }
    var cs := contributions.value;
    if |cs| == 0 {
      o := FinishReply(chat, ctx, NONE_YET, FAILED);
      return;
    }
    var contribList := Join(Entries(cs), ", ");
    o := FinishReply(chat, ctx, "Your recent contributions: " + contribList, FAILED);
  }

  // ---------------------------------------------------------------------

  /**
   * The store and the rate limiter are left as they were; with the chat up,
   * exactly one reply is sent and `execute` resolves to `true`.
   */
  lemma ReadOnly(w: World, ctx: Context)
    requires ValidState(w.store)
    ensures Run(w, ctx).0.store == w.store && Run(w, ctx).0.rates == w.rates
    ensures !w.chat.down ==> Run(w, ctx).1 == Handled(true) && |Run(w, ctx).0.chat.sent| == |w.chat.sent| + 1
    ensures w.chat.down ==> Run(w, ctx).1 == Threw && Run(w, ctx).0.chat == w.chat
  {
  }

  /**
   * With a working store, the reply lists at most five of the caller's own
   * records, newest first, one entry per record; a caller without records
   * gets the "none" reply.
   */
  lemma ListsOwnRecent(w: World, ctx: Context)
    requires ValidState(w.store) && UserListOp !in w.store.failing && !w.chat.down
    ensures var cs := UserContributions(w.store, ctx.username, LIMIT).value;
      && |cs| <= LIMIT
      && (forall i :: 0 <= i < |cs| ==> cs[i].username == ctx.username && w.store.contribs[cs[i].id] == cs[i])
      && (forall i, j :: 0 <= i < j < |cs| ==> cs[i].id > cs[j].id)
      && Run(w, ctx).0.chat == Replied(w.chat, ctx,
           if cs == [] then NONE_YET else "Your recent contributions: " + Join(Entries(cs), ", "))
  {
    UserContributionsAreOwn(w.store, ctx.username, LIMIT);
  }

  /** A caller with a record and fewer than five records in all sees that record listed. */
  lemma ListsEveryRecordOfFew(w: World, ctx: Context, id: nat)
    requires ValidState(w.store) && UserListOp !in w.store.failing
    requires |Matching(w.store.contribs, ByUser(ctx.username), w.store.nextId)| < LIMIT
    requires id in w.store.contribs && w.store.contribs[id].username == ctx.username
    ensures Entry(w.store.contribs[id]) in Entries(UserContributions(w.store, ctx.username, LIMIT).value)
  {
    UserContributionsComplete(w.store, ctx.username, LIMIT, id);
  }
}
