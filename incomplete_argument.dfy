// lib/commands/incomplete-argument.ts: a flag given without its required
// arguments gets an explanation, in a serious or a playful ("HUH") tone
// chosen by the settings record.
module IncompleteArgumentCommand {
  import opened Text
  import opened Store
  import opened Chat
  import opened RateLimiter
  import opened CommandBase
  import opened Patterns

  /** The eleven cases, in the order they are tested; both tables are total over them. */
  datatype Missing =
    | AppendNoId | AppendNoCode | PrependNoId | PrependNoCode | ReplaceNoId | ReplaceNoCode
    | DeleteNoId | StatusNoId | GrepNoFile | LineNoNumber | LineNoCode

  function Serious(k: Missing): string {
    match k
    case AppendNoId => "Missing contribution ID and code. Use: !contrib -A contrib_id your_code_here"
    case AppendNoCode => "Missing code to append. Use: !contrib -A contrib_id your_code_here"
    case PrependNoId => "Missing contribution ID and code. Use: !contrib -0 contrib_id your_code_here"
    case PrependNoCode => "Missing code to prepend. Use: !contrib -0 contrib_id your_code_here"
    case ReplaceNoId => "Missing contribution ID and code. Use: !contrib -C contrib_id new_code"
    case ReplaceNoCode => "Missing code to replace with. Use: !contrib -C contrib_id new_code"
    case DeleteNoId => "Missing contribution ID. Use: !contrib -D contrib_id"
    case StatusNoId => "Missing contribution ID. Use: !contrib -status contrib_id"
    case GrepNoFile => "Missing filename. Use: !contrib -grep filename"
    case LineNoNumber => "Missing line number. Use: !contrib filename -l line_number code"
    case LineNoCode => "Missing code after line number. Use: !contrib filename -l line_number code"
  }

  function Huh(k: Missing): string {
    match k
    case AppendNoId => "Append with no ID!! what do you want me to do, manifest it from stardust? Try: !contrib -A 123 console.log('this') Kreygasm"
    case AppendNoCode => "Appending nothing? Bro, you're out here coding with vibes and prayers. Feed me some actual logic: !contrib -A 123 your_code_goes_brrr NotLikeThis"
    case PrependNoId => "Prepending without an ID is like breathing in sand, can't do it can ya? SMOrc"
    case PrependNoCode => "Prepending nothing ha? bold move, Picasso. Toss me some code: !contrib -0 123 // Actually adding something HeyGuys"
    case ReplaceNoId => "A change command with zero ID? That's not an operation, that's a cry for help. !contrib -C 123 better_code_goes_here LUL"
    case ReplaceNoCode => "Changing with nothing? Bro, already your code's so minimalist it's just a lonely bracket FailFish NotLikeThis help me help you: !contrib -C 123 function(){ // fire }"
    case DeleteNoId => "Dude tryna rm -rf twitch! WutFace chill GoldPLZ try: !contrib -D contrib_id but i bet you forgot the id NotLikeThis use !contrib -ls"
    case StatusNoId => "Status check, no ID? You're nerding out big time!!, F5-ing a 404 page in your heart PewPewPew. look: !contrib -status 123 SeemsGood"
    case GrepNoFile => "Stop it! HeyGuys You're over-grepping JinxLUL. Seriously, try narrowing it down: !contrib -grep index.js"
    case LineNoNumber => "No number for line? Bro, I'm not guessing your code's horoscope. Gimme digits: !contrib file.js -l 42 console.log('facts') 4Head PogChamp"
    case LineNoCode => "You picked a line but sent no code. That's just a vibe. !contrib file.js -l 42 console.log('answer') PogChamp"
  }

  /** The text for a case in the chosen tone. */
  function ToneText(huh: bool, k: Missing): string {
    if huh then Huh(k) else Serious(k)
  }

  /** The tone: playful only when the settings record exists and its flag is set; a read error keeps it serious. */
  function UseHuh(st: StoreState): (huh: bool)
    ensures huh <==> GetSettings(st) == Ok(Some(Settings(true)))
  {
    match GetSettings(st)
    case Err => false
    case Ok(None) => false
    case Ok(Some(settings)) => settings.useHuhMode
  }

  /** `matches`: one of the eleven end-anchored patterns finds a match. */
  predicate Matches(message: string) {
    || HasFlagEnd(message, "-a") || HasFlagIdEnd(message, "-a")
    || HasFlagEnd(message, "-0") || HasFlagIdEnd(message, "-0")
    || HasFlagEnd(message, "-c") || HasFlagIdEnd(message, "-c")
    || HasFlagEnd(message, "-d")
    || HasFlagEnd(message, "-status")
    || HasFlagEnd(message, "-grep")
    || HasFlagEnd(message, "-l") || HasFlagIdEnd(message, "-l")
  }

  /** The case of the first pattern, in the order `execute` tests them, that matches. */
  function FirstMissing(message: string): Option<Missing> {
    if HasFlagEnd(message, "-a") then Some(AppendNoId)
    else if HasFlagIdEnd(message, "-a") then Some(AppendNoCode)
    else if HasFlagEnd(message, "-0") then Some(PrependNoId)
    else if HasFlagIdEnd(message, "-0") then Some(PrependNoCode)
    else if HasFlagEnd(message, "-c") then Some(ReplaceNoId)
    else if HasFlagIdEnd(message, "-c") then Some(ReplaceNoCode)
    else if HasFlagEnd(message, "-d") then Some(DeleteNoId)
    else if HasFlagEnd(message, "-status") then Some(StatusNoId)
    else if HasFlagEnd(message, "-grep") then Some(GrepNoFile)
    else if HasFlagEnd(message, "-l") then Some(LineNoNumber)
    else if HasFlagIdEnd(message, "-l") then Some(LineNoCode)
    else None
  }

  /** `execute`: the reply for the first matching case (none if no case matches), then `true`; a failed send rejects. */
  function Run(w: World, ctx: Context): (World, ExecOutcome) {
    Respond(w, ctx, FirstMissing(ctx.message))
  }

  /** What `execute` does once the first matching case is known. */
  function Respond(w: World, ctx: Context, missing: Option<Missing>): (World, ExecOutcome) {
    match missing
    case None => (w, Handled(true))
    case Some(k) =>
      var (c, ok) := ReplyChat(w.chat, ctx, ToneText(UseHuh(w.store), k));
      (w.(chat := c), if ok then Handled(true) else Threw)
  }

  method Execute(store: ContributionStore, limiter: Limiter, chat: ChatClient, ctx: Context) returns (o: ExecOutcome)
    modifies chat
    ensures (Snapshot(store, limiter, chat), o) == Run(old(Snapshot(store, limiter, chat)), ctx)
  {
    var settings := store.GetSettingsRecord();
    var huh := settings.Ok? && settings.value.Some? && settings.value.value.useHuhMode;
    assert huh == UseHuh(store.State());
    var k := FirstMissing(ctx.message);
    ghost var w := Snapshot(store, limiter, chat);
    assert Run(w, ctx) == Respond(w, ctx, k);
    if k.None? {
      return Handled(true);
    }
    var ok := chat.Say(ctx.channel, At(ctx.username, ToneText(huh, k.value)));
    o := if ok then Handled(true) else Threw;
  }

  // ---------------------------------------------------------------------

  /** `matches` and the reply chain test the same patterns, so a matched line gets exactly one case. */
  lemma MatchedLineGetsACase(message: string)
    ensures Matches(message) <==> FirstMissing(message).Some?
  {
  }

  /**
   * A matched line gets exactly one reply, the text of its case in the tone
   * the settings choose, and `execute` resolves to `true`; nothing but the
   * chat changes.
   */
  lemma OneReply(w: World, ctx: Context)
    requires Matches(ctx.message) && !w.chat.down
    ensures Run(w, ctx) ==
      (w.(chat := Replied(w.chat, ctx, ToneText(UseHuh(w.store), FirstMissing(ctx.message).value))), Handled(true))
  {
    MatchedLineGetsACase(ctx.message);
  }

  /** `execute` changes nothing but the chat. */
  lemma OnlyReplies(w: World, ctx: Context)
    ensures Run(w, ctx).0 == w.(chat := Run(w, ctx).0.chat)
  {
  }

  /** A line no case matches gets no reply, and `execute` still resolves to `true`. */
  lemma NoCaseNoReply(w: World, ctx: Context)
    requires !Matches(ctx.message)
    ensures Run(w, ctx) == (w, Handled(true))
  {
    MatchedLineGetsACase(ctx.message);
  }

  /** `!contrib -A` is missing the id. */
  lemma ExampleNoId(message: string)
    requires message == "!contrib -A"
    ensures FirstMissing(message) == Some(AppendNoId)
  {
    assert CIAt(message, 0, "!contrib") && CIAt(message, 9, "-a");
    assert WsEnd(message, 8) == 9;
    assert FlagEndPattern(message, "-a")(0);
  }

  lemma ExampleNoCodeDigits(message: string)
    requires message == "!contrib -A 5"
    ensures FlagDigitsAt(message, 0, "-a") == Some((12, 13))
    ensures CommandArgs(message, 0) == Some(9)
  {
    assert WsEnd(message, 8) == 9 && WsEnd(message, 11) == 12 && DigitsEnd(message, 12) == 13;
  }

  /** `!contrib -A 5` has the id but is missing the code. */
  lemma ExampleNoCode(message: string)
    requires message == "!contrib -A 5"
    ensures FirstMissing(message) == Some(AppendNoCode)
  {
    ExampleNoCodeDigits(message);
    assert FlagIdEndPattern(message, "-a")(0);
    forall p: nat | p <= |message| ensures !FlagEndPattern(message, "-a")(p) {
      if p > 0 {
        CommandOnlyAtStart(message, p);
      }
    }
  }
}
