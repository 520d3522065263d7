// lib/commands/grep.ts: `!contrib -grep <file>` lists the five most recent
// contributions for one file. It reads the store and never writes it.
module GrepCommand {
  import opened Text
  import opened Store
  import opened Chat
  import opened RateLimiter
  import opened CommandBase
  import opened Patterns

  const LIMIT: nat := 5
  const FAILED := "Failed to fetch contributions. Please try again."

  /** `matches`: `/!contrib\s+-grep\s+\S+$/i` finds a match. */
  predicate Matches(message: string) {
    Leftmost(message, GrepEndPattern(message)).Some?
  }

  /** The file name read by `/!contrib\s+-grep\s+(\S+)/i`; none where `match[1]` would throw. */
  function Request(message: string): Option<string> {
    GrepToken(message)
  }

  lemma MatchesYieldsFile(message: string)
    requires Matches(message)
    ensures Request(message).Some?
  {
    GrepAnchoredImpliesCapture(message);
  }

  /** One entry: `#id (username[, line N], status)`. */
  function Entry(c: Contribution): string {
    "#" + NatToString(c.id) + " (" + c.username + LineSuffix(c.lineNumber) + ", " + c.status + ")"
  }

  function Entries(cs: seq<Contribution>): (r: seq<string>)
    ensures |r| == |cs| && forall i :: 0 <= i < |cs| ==> r[i] == Entry(cs[i])
  {
    seq(|cs|, i requires 0 <= i < |cs| => Entry(cs[i]))
  }

  function GrepText(filename: string, cs: seq<Contribution>): string {
    if |cs| == 0 then "No contributions found for " + filename + "."
    else "Recent contributions for " + filename + ": " + Join(Entries(cs), ", ")
  }

  function Run(w: World, ctx: Context): (World, ExecOutcome)
    requires ValidState(w.store)
  {
    Respond(w, ctx, Request(ctx.message))
  }

  function Respond(w: World, ctx: Context, req: Option<string>): (World, ExecOutcome)
    requires ValidState(w.store)
  {
    match req
    case None => Catch(w, ctx, FAILED)
    case Some(filename) =>
      match FileContributions(w.store, filename, LIMIT)
      case Err => Catch(w, ctx, FAILED)
      case Ok(cs) => Finish(w, ctx, GrepText(filename, cs), FAILED)
  }

  method Execute(store: ContributionStore, limiter: Limiter, chat: ChatClient, ctx: Context) returns (o: ExecOutcome)
    requires store.Valid()
    modifies chat
    ensures (Snapshot(store, limiter, chat), o) == Run(old(Snapshot(store, limiter, chat)), ctx)
  {
    var m := GrepToken(ctx.message);
    if m.None? {
      o := CatchReply(chat, ctx, FAILED);
      return;
    }
    var filename := m.value;
    var contributions := store.GetFileContributions(filename, LIMIT);
    if contributions.Err? {
      o := CatchReply(chat, ctx, FAILED);
      return;
    }
    var cs := contributions.value;
    if |cs| == 0 {
      o := FinishReply(chat, ctx, "No contributions found for " + filename + ".", FAILED);
      return;
    }
    var contribList := Join(Entries(cs), ", ");
    o := FinishReply(chat, ctx, "Recent contributions for " + filename + ": " + contribList, FAILED);
  }

  // ---------------------------------------------------------------------

  /**
   * The store and the rate limiter are left as they were; with the chat up,
   * exactly one reply is sent and `execute` resolves to `true`.
   */
  lemma ReadOnly(w: World, ctx: Context, req: Option<string>)
    requires ValidState(w.store)
    ensures Respond(w, ctx, req).0.store == w.store && Respond(w, ctx, req).0.rates == w.rates
    ensures !w.chat.down ==> Respond(w, ctx, req).1 == Handled(true) && |Respond(w, ctx, req).0.chat.sent| == |w.chat.sent| + 1
    ensures w.chat.down ==> Respond(w, ctx, req).1 == Threw && Respond(w, ctx, req).0.chat == w.chat
  {
  }

  /**
   * With a working store, the reply lists at most five records of the
   * requested file, newest first, one entry per record.
   */
  lemma ListsFileRecent(w: World, ctx: Context, filename: string)
    requires ValidState(w.store) && FileListOp !in w.store.failing && !w.chat.down
    ensures var cs := FileContributions(w.store, filename, LIMIT).value;
      && |cs| <= LIMIT
      && (forall i :: 0 <= i < |cs| ==> cs[i].filename == filename && w.store.contribs[cs[i].id] == cs[i])
      && (forall i, j :: 0 <= i < j < |cs| ==> cs[i].id > cs[j].id)
      && Respond(w, ctx, Some(filename)).0.chat == Replied(w.chat, ctx,
           if cs == [] then "No contributions found for " + filename + "."
           else "Recent contributions for " + filename + ": " + Join(Entries(cs), ", "))
  {
    var all := Matching(w.store.contribs, ByFile(filename), w.store.nextId);
    var cs := FileContributions(w.store, filename, LIMIT).value;
    assert forall i :: 0 <= i < |cs| ==> cs[i] == all[i];
  }
}
