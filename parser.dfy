// lib/contribution/parser.ts: `parseContribution(message)` turns
// "!contrib <filename> [-l <line>] <code>" into a contribution, or null.
module Parser {
  import opened Text

  /** What the parser extracts; `lineNumber` is `null` when no `-l` flag was given. */
  datatype Contribution = Contribution(filename: string, lineNumber: Option<int>, code: string)

  /** Every "!contrib" removed, then trimmed, then split at whitespace runs. */
  function Tokens(message: string): seq<string> {
    SplitWs(Trim(RemoveAll(message, "!contrib")))
  }

  /** The position the `for` loop stops at: the first `-l` among tokens 1 .. n-2. */
  function LineFlagIndex(parts: seq<string>): Option<nat> {
    if |parts| < 3 then None
    else FirstFrom(IsLineFlag(parts), 1, |parts| - 2)
  }

  function IsLineFlag(parts: seq<string>): nat -> bool {
    (i: nat) => i < |parts| && parts[i] == "-l"
  }

  /** The tokens from `start` joined by single spaces, with `\n` escapes turned into newlines. */
  function CodeFrom(parts: seq<string>, start: nat): string
    requires start <= |parts|
  {
    ReplaceNewlineEscapes(Join(parts[start..], " "))
  }

  /** The parse of an already tokenised message. */
  function ParseTokens(parts: seq<string>): Option<Contribution> {
    if |parts| < 2 then None
    else match LineFlagIndex(parts)
      case None => Some(Contribution(parts[0], None, CodeFrom(parts, 1)))
      case Some(i) =>
        match ParseInt(parts[i + 1])
        case None => None
        case Some(n) => if n <= 0 then None else Some(Contribution(parts[0], Some(n), CodeFrom(parts, i + 2)))
  }

  function ParseSpec(message: string): Option<Contribution> {
    ParseTokens(Tokens(message))
  }

  /** `parseContribution`, with its `for` loop and `break`. */
  method ParseContribution(message: string) returns (r: Option<Contribution>)
    ensures r == ParseSpec(message)
  {
    var cleanMessage := Trim(RemoveAll(message, "!contrib"));
    var parts := SplitWs(cleanMessage);
    assert ParseSpec(message) == ParseTokens(parts);
    if |parts| < 2 {
      return None;
    }
    var filename := parts[0];
    var lineNumber: Option<int> := None;
    var codeStartIndex := 1;
    var i := 1;
    while i < |parts| - 1
      invariant 1 <= i <= |parts| - 1
      invariant forall j :: 1 <= j < i ==> parts[j] != "-l"
      invariant lineNumber == None && codeStartIndex == 1
    {
      if parts[i] == "-l" {
        FlagFoundAt(parts, i);
        var n := ParseInt(parts[i + 1]);
        if n.None? || n.value <= 0 {
          return None;
        }
        lineNumber := n;
        codeStartIndex := i + 2;
        break;
      }
      i := i + 1;
    }
    if lineNumber == None {
      NoFlagFound(parts);
    }
    var code := Join(parts[codeStartIndex..], " ");
    code := ReplaceNewlineEscapes(code);
    r := Some(Contribution(filename, lineNumber, code));
  }

  /** The loop stops at `i`: the first `-l` among tokens 1 .. n-2. */
  lemma FlagFoundAt(parts: seq<string>, i: nat)
    requires 1 <= i < |parts| - 1 && parts[i] == "-l"
    requires forall j :: 1 <= j < i ==> parts[j] != "-l"
    ensures LineFlagIndex(parts) == Some(i)
  {
    FirstFromAt(IsLineFlag(parts), 1, |parts| - 2, i);
  }

  /** The loop runs to the end without meeting `-l`. */
  lemma NoFlagFound(parts: seq<string>)
    requires |parts| >= 2
    requires forall j :: 1 <= j < |parts| - 1 ==> parts[j] != "-l"
    ensures LineFlagIndex(parts) == None
  {
  }

  // ---------------------------------------------------------------------
  // Properties

  /**
   * A successful parse has at least two tokens; its filename is the first,
   * non-empty and free of whitespace; a line number is at least 1; and no
   * `\n` escape is left in the code.
   */
  lemma ParseShape(message: string)
    requires ParseSpec(message).Some?
    ensures |Tokens(message)| >= 2
    ensures ParseSpec(message).value.filename == Tokens(message)[0]
    ensures ParseSpec(message).value.filename != []
    ensures forall k :: 0 <= k < |ParseSpec(message).value.filename| ==> !IsWs(ParseSpec(message).value.filename[k])
    ensures ParseSpec(message).value.lineNumber.Some? ==> ParseSpec(message).value.lineNumber.value >= 1
    ensures !HasNewlineEscape(ParseSpec(message).value.code)
  {
    var clean := Trim(RemoveAll(message, "!contrib"));
    var parts := Tokens(message);
    var r := ParseSpec(message).value;
    assert SplitWs("") == [""];
    SplitWsNonEmpty(clean);
    match LineFlagIndex(parts)
    case None => NoNewlineEscapeLeft(Join(parts[1..], " "));
    case Some(i) => NoNewlineEscapeLeft(Join(parts[i + 2..], " "));
  }

  /** Fewer than two tokens (a message holding only the command, or a single word) is rejected. */
  lemma ParseNeedsTwoTokens(message: string)
    ensures |Tokens(message)| < 2 ==> ParseSpec(message) == None
    ensures RemoveAll(message, "!contrib") == "" ==> ParseSpec(message) == None
  {
    if RemoveAll(message, "!contrib") == "" {
      assert Trim("") == "";
      assert Tokens(message) == [""];
    }
  }

  /**
   * Without an `-l` token strictly between the filename and the last token,
   * everything after the filename is code, and there is no line number.
   */
  lemma ParseWithoutFlag(parts: seq<string>)
    requires |parts| >= 2
    requires forall i :: 1 <= i < |parts| - 1 ==> parts[i] != "-l"
    ensures ParseTokens(parts) == Some(Contribution(parts[0], None, CodeFrom(parts, 1)))
  {
  }

  /**
   * At the first `-l` token i (1 <= i <= n-2) the parse succeeds exactly when
   * the next token reads as a positive integer, which becomes the line
   * number; the code is then everything after that token.
   */
  lemma ParseAtFlag(parts: seq<string>, i: nat)
    requires 1 <= i < |parts| - 1 && parts[i] == "-l"
    requires forall j :: 1 <= j < i ==> parts[j] != "-l"
    ensures ParseTokens(parts).Some? <==> ParseInt(parts[i + 1]).Some? && ParseInt(parts[i + 1]).value >= 1
    ensures ParseTokens(parts).Some? ==>
      ParseTokens(parts).value == Contribution(parts[0], Some(ParseInt(parts[i + 1]).value), CodeFrom(parts, i + 2))
  {
    FirstFromAt(IsLineFlag(parts), 1, |parts| - 2, i);
  }

  /** An `-l` in last position has no value after it and is kept as code. */
  lemma TrailingFlagIsCode()
    ensures ParseTokens(["app.ts", "x", "-l"]) == Some(Contribution("app.ts", None, CodeFrom(["app.ts", "x", "-l"], 1)))
    ensures CodeFrom(["app.ts", "x", "-l"], 1) == "x -l"
  {
    var parts := ["app.ts", "x", "-l"];
    assert parts[1] != "-l";
    assert parts[1..] == ["x", "-l"];
    assert Join(parts[1..], " ") == "x -l";
    ReplaceWithoutBackslash("x -l");
  }

  /** A zero line number is rejected rather than read as "no line". */
  lemma ZeroLineRejected()
    ensures ParseTokens(["app.ts", "-l", "0", "x"]) == None
  {
    var parts := ["app.ts", "-l", "0", "x"];
    assert LineFlagIndex(parts) == Some(1);
    ParseIntDigits("0");
  }

  /** A complete example: filename, line 12, and code. */
  lemma ParseExample()
    ensures ParseTokens(["app.ts", "-l", "12", "foo();"]) == Some(Contribution("app.ts", Some(12), "foo();"))
  {
    var parts := ["app.ts", "-l", "12", "foo();"];
    FlagFoundAt(parts, 1);
    TwelveParses();
    assert parts[2] == "12" && parts[1 + 2..] == ["foo();"];
    assert Join(["foo();"], " ") == "foo();";
    ReplaceWithoutBackslash("foo();");
    assert CodeFrom(parts, 3) == "foo();";
  }

  lemma TwelveParses()
    ensures ParseInt("12") == Some(12)
  {
    ParseIntDigits("12");
    assert "12"[..1] == "1" && "1"[..0] == "";
    assert DigitsValue("12") == 12;
  }

  /** A `-l` value with nothing after it gives the line number and empty code. */
  lemma FlagWithoutCode()
    ensures ParseTokens(["file.js", "-l", "5"]) == Some(Contribution("file.js", Some(5), ""))
  {
    var parts := ["file.js", "-l", "5"];
    assert LineFlagIndex(parts) == Some(1);
    ParseIntDigits("5");
    assert parts[3..] == [];
  }
}
