// lib/commands/index.ts and lib/commands/base.ts: the command handlers, and
// the list of handlers the dispatcher actually tries, in order.
module Registry {
  import opened Text
  import opened Store
  import opened Chat
  import opened RateLimiter
  import opened CommandBase
  import opened Patterns
  import HelpCommand
  import AppendCommand
  import PrependCommand
  import ReplaceCommand
  import DeleteCommand
  import StatusCommand
  import ListCommand
  import GrepCommand
  import IncompleteArgumentCommand
  import UnknownCommand
  import ContribCommand

  /** Every handler class of lib/commands, as a `CommandHandler`. */
  datatype Handler =
    | Help | Append | Prepend | Replace | Delete | Status | List | Grep | IncompleteArgument | Unknown | Contrib

  /** `commands`: only these three are wired up, and Append is tried before the general Contrib. */
  const COMMANDS: seq<Handler> := [Help, Append, Contrib]

  /** `handler.matches(message)`. */
  predicate Matches(h: Handler, message: string) {
    match h
    case Help => HelpCommand.Matches(message)
    case Append => AppendCommand.Matches(message)
    case Prepend => PrependCommand.Matches(message)
    case Replace => ReplaceCommand.Matches(message)
    case Delete => DeleteCommand.Matches(message)
    case Status => StatusCommand.Matches(message)
    case List => ListCommand.Matches(message)
    case Grep => GrepCommand.Matches(message)
    case IncompleteArgument => IncompleteArgumentCommand.Matches(message)
    case Unknown => UnknownCommand.Matches(message)
    case Contrib => ContribCommand.Matches(message)
  }

  /** `handler.execute(context)`, as a function of everything it reads and changes. */
  function Run(h: Handler, w: World, ctx: Context): (World, ExecOutcome)
    requires ValidState(w.store)
  {
    match h
    case Help => HelpCommand.Run(w, ctx)
    case Append => AppendCommand.Run(w, ctx)
    case Prepend => PrependCommand.Run(w, ctx)
    case Replace => ReplaceCommand.Run(w, ctx)
    case Delete => DeleteCommand.Run(w, ctx)
    case Status => StatusCommand.Run(w, ctx)
    case List => ListCommand.Run(w, ctx)
    case Grep => GrepCommand.Run(w, ctx)
    case IncompleteArgument => IncompleteArgumentCommand.Run(w, ctx)
    case Unknown => UnknownCommand.Run(w, ctx)
    case Contrib => ContribCommand.Run(w, ctx)
  }

  method Execute(h: Handler, store: ContributionStore, limiter: Limiter, chat: ChatClient, ctx: Context) returns (o: ExecOutcome)
    requires store.Valid()
    modifies store, limiter, chat
    ensures (Snapshot(store, limiter, chat), o) == Run(h, old(Snapshot(store, limiter, chat)), ctx)
  {
    match h
    case Help => o := HelpCommand.Execute(store, limiter, chat, ctx);
    case Append => o := AppendCommand.Execute(store, limiter, chat, ctx);
    case Prepend => o := PrependCommand.Execute(store, limiter, chat, ctx);
    case Replace => o := ReplaceCommand.Execute(store, limiter, chat, ctx);
    case Delete => o := DeleteCommand.Execute(store, limiter, chat, ctx);
    case Status => o := StatusCommand.Execute(store, limiter, chat, ctx);
    case List => o := ListCommand.Execute(store, limiter, chat, ctx);
    case Grep => o := GrepCommand.Execute(store, limiter, chat, ctx);
    case IncompleteArgument => o := IncompleteArgumentCommand.Execute(store, limiter, chat, ctx);
    case Unknown => o := UnknownCommand.Execute(store, limiter, chat, ctx);
    case Contrib => o := ContribCommand.Execute(store, limiter, chat, ctx);
  }

  // ---------------------------------------------------------------------

  /**
   * Every handler keeps the store consistent and only ever touches the
   * caller's own pending records.
   */
  lemma RunKeepsRule(h: Handler, w: World, ctx: Context)
    requires ValidState(w.store)
    ensures ValidState(Run(h, w, ctx).0.store)
    ensures OwnPendingEdits(w.store, Run(h, w, ctx).0.store, ctx.username)
  {
    OwnPendingEditsReflexive(w.store, ctx.username);
    match h
    case Help => HelpCommand.OneReplyNeverThrows(w, ctx);
    case Append => AppendCommand.KeepsOwnPendingRule(w, ctx);
    case Prepend => PrependCommand.KeepsOwnPendingRule(w, ctx);
    case Replace => ReplaceCommand.KeepsOwnPendingRule(w, ctx);
    case Delete => DeleteCommand.KeepsOwnPendingRule(w, ctx);
    case Status => StatusCommand.ReadOnly(w, ctx, StatusCommand.Request(ctx.message));
    case List => ListCommand.ReadOnly(w, ctx);
    case Grep => GrepCommand.ReadOnly(w, ctx, GrepCommand.Request(ctx.message));
    case IncompleteArgument => IncompleteArgumentCommand.OnlyReplies(w, ctx);
    case Unknown => UnknownCommand.FixedReply(w, ctx, ctx.message);
    case Contrib => ContribCommand.KeepsOwnPendingRule(w, ctx);
  }

  /**
   * A line Append accepts carries the short flag `-A`, so the general
   * Contrib handler never accepts it: append lines cannot be taken for new
   * contributions, whatever the order.
   */
  lemma AppendExcludesContrib(message: string)
    requires AppendCommand.Matches(message)
    ensures !ContribCommand.Matches(message)
  {
    var p := Leftmost(message, FlagIdCodePattern(message, "-a")).value;
    ShortFlagIsFlagPrefix(message, p, "-a");
    LeftmostSome(message, FlagPrefixPattern(message), p);
  }

  /** Of the registered handlers, `!contrib -A 5 fix()` is matched by Append alone. */
  lemma AppendLineRouting(message: string)
    requires message == "!contrib -A 5 fix()"
    ensures !HelpCommand.Matches(message) && AppendCommand.Matches(message) && !ContribCommand.Matches(message)
  {
    AppendMatches(message);
    AppendExcludesContrib(message);
    NotHelp(message);
  }

  lemma AppendMatches(message: string)
    requires message == "!contrib -A 5 fix()"
    ensures AppendCommand.Matches(message)
  {
    AppendCommand.ExampleRequest(message);
  }

  lemma NotHelp(message: string)
    requires message == "!contrib -A 5 fix()"
    ensures !HelpCommand.Matches(message)
  {
    TrimUnchanged(message);
    assert |HelpCommand.Clean(message)| == 19;
  }

  /** `!contrib -D 5` is a delete command, but no registered handler matches it. */
  lemma DeleteLineUnhandled(message: string)
    requires message == "!contrib -D 5"
    ensures DeleteCommand.Matches(message)
    ensures forall h :: h in COMMANDS ==> !Matches(h, message)
  {
    DeleteMatches(message);
    DeleteNotHelp(message);
    DeleteNotAppend(message);
    DeleteNotContrib(message);
    NoRegisteredMatch(message);
  }

  /** A line that neither Help, Append nor Contrib accepts is left to the other listeners. */
  lemma NoRegisteredMatch(message: string)
    requires !HelpCommand.Matches(message) && !AppendCommand.Matches(message) && !ContribCommand.Matches(message)
    ensures forall h :: h in COMMANDS ==> !Matches(h, message)
  {
  }

  lemma DeleteMatches(message: string)
    requires message == "!contrib -D 5"
    ensures DeleteCommand.Matches(message)
  {
    assert WsEnd(message, 8) == 9 && WsEnd(message, 11) == 12 && DigitsEnd(message, 12) == 13;
    assert FlagDigitsAt(message, 0, "-d") == Some((12, 13));
    assert FlagIdEndPattern(message, "-d")(0);
  }

  lemma DeleteNotHelp(message: string)
    requires message == "!contrib -D 5"
    ensures !HelpCommand.Matches(message)
  {
    TrimUnchanged(message);
    assert HelpCommand.Clean(message)[9] == '-';
  }

  lemma DeleteNotAppend(message: string)
    requires message == "!contrib -D 5"
    ensures !AppendCommand.Matches(message)
  {
    forall p: nat | p <= |message| ensures !FlagIdCodePattern(message, "-a")(p) {
      if p > 0 {
        CommandOnlyAtStart(message, p);
      }
    }
  }

  lemma DeleteNotContrib(message: string)
    requires message == "!contrib -D 5"
    ensures !ContribCommand.Matches(message)
  {
    assert WsEnd(message, 8) == 9 && WsEnd(message, 11) == 12 && DigitsEnd(message, 12) == 13;
    assert FlagDigitsAt(message, 0, "-d") == Some((12, 13));
    ShortFlagIsFlagPrefix(message, 0, "-d");
    LeftmostSome(message, FlagPrefixPattern(message), 0);
  }
}
