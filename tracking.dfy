// lib/contribution/tracking.ts: `processMessage` drops messages it has seen
// before, records every message id, and hands `!contrib` lines to the
// registered handlers in order until one of them reports the line handled.
module Tracking {
  import opened Text
  import opened Store
  import opened Chat
  import opened RateLimiter
  import opened CommandBase
  import opened Registry

  /** The message tags the dispatcher reads: `id`, `display-name` and `username`. */
  datatype Tags = Tags(id: Option<string>, displayName: Option<string>, username: Option<string>)

  /** `tags['id']` is truthy: present and not the empty string. */
  predicate HasId(tags: Tags) {
    tags.id.Some? && tags.id.value != ""
  }

  /** `String(tags['display-name'] || tags['username'])`. */
  function Username(tags: Tags): (u: string)
    ensures tags.displayName.Some? && tags.displayName.value != "" ==> u == tags.displayName.value
    ensures !(tags.displayName.Some? && tags.displayName.value != "") && tags.username.Some? ==> u == tags.username.value
    ensures !(tags.displayName.Some? && tags.displayName.value != "") && tags.username.None? ==> u == "undefined"
  {
    if tags.displayName.Some? && tags.displayName.value != "" then tags.displayName.value
    else if tags.username.Some? then tags.username.value
    else "undefined"
  }

  /**
   * The handler loop: each handler whose `matches` holds is executed; the
   * first one that resolves to `true` ends the loop. A handler that resolves
   * to `false` or throws leaves its effects in place and lets the next one
   * try. Every step keeps the store consistent and only touches the caller's
   * own pending records.
   */
  function Dispatch(handlers: seq<Handler>, w: World, ctx: Context): (r: World)
    requires ValidState(w.store)
    ensures ValidState(r.store)
    ensures OwnPendingEdits(w.store, r.store, ctx.username)
    decreases |handlers|
  {
    if handlers == [] then
      OwnPendingEditsReflexive(w.store, ctx.username);
      w
    else if !Matches(handlers[0], ctx.message) then Dispatch(handlers[1..], w, ctx)
    else
      var (w1, o) := Run(handlers[0], w, ctx);
      RunKeepsRule(handlers[0], w, ctx);
      if o == Handled(true) then w1
      else
        var r := Dispatch(handlers[1..], w1, ctx);
        OwnPendingEditsTransitive(w.store, w1.store, r.store, ctx.username);
        r
  }

  /**
   * `processMessage`: the new set of seen ids and the new world. A client
   * that fails `verifyClient` makes the call reject before anything happens.
   */
  function Process(seen: set<string>, w: World, client: ClientHandle, channel: string, tags: Tags, message: string, now: int)
    : (set<string>, World)
    requires ValidState(w.store)
  {
    if VerifyClient(client).Err? then (seen, w)
    else if HasId(tags) && tags.id.value in seen then (seen, w)
    else
      var seen' := if HasId(tags) then seen + {tags.id.value} else seen;
      if !StartsWith(message, "!contrib") then (seen', w)
      else (seen', Dispatch(COMMANDS, w, Context(channel, Username(tags), message, now)))
  }

  /** The `message` listener: the bot's own messages are ignored. */
  function OnMessage(seen: set<string>, w: World, client: ClientHandle, channel: string, tags: Tags, message: string, self: bool, now: int)
    : (set<string>, World)
    requires ValidState(w.store)
  {
    if self then (seen, w) else Process(seen, w, client, channel, tags, message, now)
  }

  /** The module-level state of tracking.ts: the set of processed message ids. */
  class Tracker {
    var processedMessageIds: set<string>

    constructor()
      ensures processedMessageIds == {}
    {
      processedMessageIds := {};
    }

    method ProcessMessage(store: ContributionStore, limiter: Limiter, chat: ChatClient, client: ClientHandle,
                          channel: string, tags: Tags, message: string, now: int)
      requires store.Valid()
      modifies this, store, limiter, chat
      ensures store.Valid()
      ensures (processedMessageIds, Snapshot(store, limiter, chat)) ==
        Process(old(processedMessageIds), old(Snapshot(store, limiter, chat)), client, channel, tags, message, now)
    {
      if VerifyClient(client).Err? {
        return;
      }
      if HasId(tags) && tags.id.value in processedMessageIds {
        return;
      }
      if HasId(tags) {
        processedMessageIds := processedMessageIds + {tags.id.value};
      }
      if !StartsWith(message, "!contrib") {
        return;
      }
      var ctx := Context(channel, Username(tags), message, now);
      DispatchLoop(store, limiter, chat, ctx);
    }

    /** The `for (const handler of commandHandlers)` loop of `processMessage`. */
    method DispatchLoop(store: ContributionStore, limiter: Limiter, chat: ChatClient, ctx: Context)
      requires store.Valid()
      modifies store, limiter, chat
      ensures store.Valid()
      ensures Snapshot(store, limiter, chat) == Dispatch(COMMANDS, old(Snapshot(store, limiter, chat)), ctx)
    {
      ghost var w0 := Snapshot(store, limiter, chat);
      var i := 0;
      while i < |COMMANDS|
        invariant 0 <= i <= |COMMANDS|
        invariant store.Valid()
        invariant Dispatch(COMMANDS, w0, ctx) == Dispatch(COMMANDS[i..], Snapshot(store, limiter, chat), ctx)
      {
        var handler := COMMANDS[i];
        assert COMMANDS[i..][0] == handler && COMMANDS[i..][1..] == COMMANDS[i + 1..];
        if Matches(handler, ctx.message) {
          ghost var before := Snapshot(store, limiter, chat);
          var handled := Registry.Execute(handler, store, limiter, chat, ctx);
          RunKeepsRule(handler, before, ctx);
          if handled == Handled(true) {
            return;
          }
        }
        i := i + 1;
      }
    }
  }

  // ---------------------------------------------------------------------

  /** A message whose id was seen before is dropped: nothing is recorded and no handler runs. */
  lemma DuplicateDropped(seen: set<string>, w: World, client: ClientHandle, channel: string, tags: Tags, message: string, now: int)
    requires ValidState(w.store) && HasId(tags) && tags.id.value in seen
    ensures Process(seen, w, client, channel, tags, message, now) == (seen, w)
  {
  }

  /** Every message with an id is recorded, command or not; the set only ever grows, by at most that id. */
  lemma RecordsIds(seen: set<string>, w: World, client: ClientHandle, channel: string, tags: Tags, message: string, now: int)
    requires ValidState(w.store)
    ensures var seen' := Process(seen, w, client, channel, tags, message, now).0;
      seen <= seen' && seen' <= seen + (if HasId(tags) then {tags.id.value} else {})
    ensures VerifyClient(client).Ok? && HasId(tags) ==>
      Process(seen, w, client, channel, tags, message, now).0 == seen + {tags.id.value}
  {
  }

  /** A message without an id is never deduplicated: what happens to it does not depend on the seen set. */
  lemma NoIdNoDedup(seen: set<string>, w: World, client: ClientHandle, channel: string, tags: Tags, message: string, now: int)
    requires ValidState(w.store) && !HasId(tags)
    ensures Process(seen, w, client, channel, tags, message, now) == (seen, Process({}, w, client, channel, tags, message, now).1)
  {
  }

  /** A line that does not start with the case-sensitive `!contrib` reaches no handler. */
  lemma NonCommandUntouched(seen: set<string>, w: World, client: ClientHandle, channel: string, tags: Tags, message: string, now: int)
    requires ValidState(w.store) && !StartsWith(message, "!contrib")
    ensures Process(seen, w, client, channel, tags, message, now).1 == w
  {
  }

  /** The bot's own messages change nothing, not even the seen set. */
  lemma SelfIgnored(seen: set<string>, w: World, client: ClientHandle, channel: string, tags: Tags, message: string, now: int)
    requires ValidState(w.store)
    ensures OnMessage(seen, w, client, channel, tags, message, true, now) == (seen, w)
  {
  }

  /** Handlers whose `matches` is false never run: if none matches, the world is unchanged. */
  lemma {:induction false} NoMatchNoEffect(handlers: seq<Handler>, w: World, ctx: Context)
    requires ValidState(w.store)
    requires forall h :: h in handlers ==> !Matches(h, ctx.message)
    ensures Dispatch(handlers, w, ctx) == w
    decreases |handlers|
  {
    if handlers != [] {
      assert handlers[0] in handlers;
      forall h | h in handlers[1..] ensures !Matches(h, ctx.message) {
        assert h in handlers;
      }
      NoMatchNoEffect(handlers[1..], w, ctx);
    }
  }

  /** Once a matching handler resolves to `true`, no later handler runs. */
  lemma FirstHandledStops(handlers: seq<Handler>, w: World, ctx: Context)
    requires ValidState(w.store) && handlers != [] && Matches(handlers[0], ctx.message)
    requires Run(handlers[0], w, ctx).1 == Handled(true)
    ensures Dispatch(handlers, w, ctx) == Dispatch(handlers[..1], w, ctx)
  {
    assert handlers[..1][0] == handlers[0];
  }

  /**
   * Whatever any sequence of messages does, the store stays consistent and
   * changes only by the sender's own pending records.
   */
  lemma ProcessKeepsRule(seen: set<string>, w: World, client: ClientHandle, channel: string, tags: Tags, message: string, now: int)
    requires ValidState(w.store)
    ensures ValidState(Process(seen, w, client, channel, tags, message, now).1.store)
    ensures OwnPendingEdits(w.store, Process(seen, w, client, channel, tags, message, now).1.store, Username(tags))
  {
    OwnPendingEditsReflexive(w.store, Username(tags));
  }

  /** `!contrib -D 5` is recorded but changes nothing else: its handler is not registered. */
  lemma UnregisteredDeleteIgnored(seen: set<string>, w: World, client: ClientHandle, channel: string, tags: Tags, message: string, now: int)
    requires ValidState(w.store) && message == "!contrib -D 5"
    ensures Process(seen, w, client, channel, tags, message, now).1 == w
  {
    DeleteLineUnhandled(message);
    NoMatchNoEffect(COMMANDS, w, Context(channel, Username(tags), message, now));
  }
}
