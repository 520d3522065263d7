// String helpers shared by the whole model: the character classes the
// JavaScript regular expressions of the bot use, `trim`, `split`, `join`,
// `replace` with a global pattern, `parseInt` and number formatting.
// Characters are Dafny `char`s; only the ASCII part of JavaScript's
// whitespace and case tables is modelled.
module Text {

  datatype Option<T> = None | Some(value: T)

  /** A store or transport call either answers or fails. */
  datatype Result<T> = Ok(value: T) | Err

  // ---------------------------------------------------------------------
  // Character classes

  /** `\s` restricted to ASCII: space, tab, newline, carriage return, vertical tab, form feed. */
  predicate IsWs(c: char) {
    c == ' ' || c == '\t' || c == '\n' || c == '\r' || c == '\U{000B}' || c == '\U{000C}'
  }

  /** The characters `.` does not match: line feed, carriage return, line separator, paragraph separator. */
  predicate IsLineTerminator(c: char) {
    c == '\n' || c == '\r' || c == '\U{2028}' || c == '\U{2029}'
  }

  predicate IsDigit(c: char) {
    '0' <= c <= '9'
  }

  predicate IsHexDigit(c: char) {
    IsDigit(c) || 'a' <= c <= 'f' || 'A' <= c <= 'F'
  }

  /** `\w`: letters, digits and underscore. */
  predicate IsWordChar(c: char) {
    'a' <= c <= 'z' || 'A' <= c <= 'Z' || IsDigit(c) || c == '_'
  }

  predicate IsUpper(c: char) {
    'A' <= c <= 'Z'
  }

  function LowerChar(c: char): (d: char)
    ensures !IsUpper(d)
    ensures IsWs(d) <==> IsWs(c)
  {
    if IsUpper(c) then (c as int + 32) as char else c
  }

  function UpperChar(c: char): char {
    if 'a' <= c <= 'z' then (c as int - 32) as char else c
  }

  /** `toLowerCase` on ASCII letters. */
  function ToLower(s: string): (t: string)
    ensures |t| == |s|
    ensures forall k :: 0 <= k < |s| ==> t[k] == LowerChar(s[k])
  {
    seq(|s|, i requires 0 <= i < |s| => LowerChar(s[i]))
  }

  /** `toUpperCase` on ASCII letters. */
  function ToUpper(s: string): (t: string)
    ensures |t| == |s|
  {
    seq(|s|, i requires 0 <= i < |s| => UpperChar(s[i]))
  }

  predicate StartsWith(s: string, prefix: string) {
    |prefix| <= |s| && s[..|prefix|] == prefix
  }

  // ---------------------------------------------------------------------
  // Runs of characters: each returns the end of the longest run of one
  // class starting at `i`.

  function WsEnd(s: string, i: nat): (j: nat)
    requires i <= |s|
    ensures i <= j <= |s|
    ensures forall k :: i <= k < j ==> IsWs(s[k])
    ensures j < |s| ==> !IsWs(s[j])
    decreases |s| - i
  {
    if i < |s| && IsWs(s[i]) then WsEnd(s, i + 1) else i
  }

  function NonWsEnd(s: string, i: nat): (j: nat)
    requires i <= |s|
    ensures i <= j <= |s|
    ensures forall k :: i <= k < j ==> !IsWs(s[k])
    ensures j < |s| ==> IsWs(s[j])
    decreases |s| - i
  {
    if i < |s| && !IsWs(s[i]) then NonWsEnd(s, i + 1) else i
  }

  function DigitsEnd(s: string, i: nat): (j: nat)
    requires i <= |s|
    ensures i <= j <= |s|
    ensures forall k :: i <= k < j ==> IsDigit(s[k])
    ensures j < |s| ==> !IsDigit(s[j])
    decreases |s| - i
  {
    if i < |s| && IsDigit(s[i]) then DigitsEnd(s, i + 1) else i
  }

  function HexDigitsEnd(s: string, i: nat): (j: nat)
    requires i <= |s|
    ensures i <= j <= |s|
    ensures forall k :: i <= k < j ==> IsHexDigit(s[k])
    ensures j < |s| ==> !IsHexDigit(s[j])
    decreases |s| - i
  {
    if i < |s| && IsHexDigit(s[i]) then HexDigitsEnd(s, i + 1) else i
  }

  /** Index of the first line terminator at or after `i`, or `|s|`. */
  function LineEnd(s: string, i: nat): (j: nat)
    requires i <= |s|
    ensures i <= j <= |s|
    ensures forall k :: i <= k < j ==> !IsLineTerminator(s[k])
    ensures j < |s| ==> IsLineTerminator(s[j])
    decreases |s| - i
  {
    if i < |s| && !IsLineTerminator(s[i]) then LineEnd(s, i + 1) else i
  }

  /** Start of the trailing whitespace run ending at `j`. */
  function WsStart(s: string, j: nat): (i: nat)
    requires j <= |s|
    ensures i <= j
    ensures forall k :: i <= k < j ==> IsWs(s[k])
    ensures 0 < i ==> !IsWs(s[i - 1])
  {
    if 0 < j && IsWs(s[j - 1]) then WsStart(s, j - 1) else j
  }

  // ---------------------------------------------------------------------
  // trim

  predicate IsBlank(s: string) {
    forall k :: 0 <= k < |s| ==> IsWs(s[k])
  }

  /** Number of leading whitespace characters (`length - trimStart().length`). */
  function LeadingWs(s: string): (n: nat)
    ensures n <= |s|
    ensures IsBlank(s[..n])
    ensures n < |s| ==> !IsWs(s[n])
  {
    WsEnd(s, 0)
  }

  function TrimStart(s: string): (t: string)
    ensures t == s[LeadingWs(s)..]
  {
    s[WsEnd(s, 0)..]
  }

  function TrimEnd(s: string): (t: string)
    ensures t == s[..WsStart(s, |s|)]
  {
    s[..WsStart(s, |s|)]
  }

  function Trim(s: string): (t: string)
    ensures |t| <= |s|
    ensures t == [] || (!IsWs(t[0]) && !IsWs(t[|t| - 1]))
  {
    TrimEnd(TrimStart(s))
  }

  /** A string with no whitespace at either end is its own trim. */
  lemma TrimUnchanged(s: string)
    requires s != [] && !IsWs(s[0]) && !IsWs(s[|s| - 1])
    ensures Trim(s) == s
  {
    assert WsEnd(s, 0) == 0;
    assert s[0..] == s;
    assert WsStart(s, |s|) == |s|;
  }

  lemma BlankIffLeading(s: string)
    ensures IsBlank(s) <==> LeadingWs(s) == |s|
  {
  }

  // ---------------------------------------------------------------------
  // split and join

  /** `parts.join(sep)`. */
  function Join(parts: seq<string>, sep: string): (s: string)
    decreases |parts|
  {
    if |parts| == 0 then ""
    else if |parts| == 1 then parts[0]
    else parts[0] + sep + Join(parts[1..], sep)
  }

  /** Index of the first `c` in `s`, or `|s|`. */
  function IndexOf(s: string, c: char): (i: nat)
    ensures i <= |s|
    ensures c !in s[..i]
    ensures i < |s| ==> s[i] == c
    decreases |s|
  {
    if |s| == 0 then 0
    else if s[0] == c then 0
    else 1 + IndexOf(s[1..], c)
  }

  /** `s.split(sep)` for a one-character separator; it undoes Join. */
  function Split(s: string, sep: char): (parts: seq<string>)
    ensures |parts| >= 1
    ensures forall i :: 0 <= i < |parts| ==> sep !in parts[i]
    ensures Join(parts, [sep]) == s
    decreases |s|
  {
    var i := IndexOf(s, sep);
    if i == |s| then [s]
    else
      var rest := Split(s[i + 1..], sep);
      assert s == s[..i] + [sep] + s[i + 1..];
      [s[..i]] + rest
  }

  /** Join is undone by Split when no part holds the separator. */
  lemma {:induction false} SplitJoin(parts: seq<string>, sep: char)
    requires |parts| >= 1
    requires forall i :: 0 <= i < |parts| ==> sep !in parts[i]
    ensures Split(Join(parts, [sep]), sep) == parts
    decreases |parts|
  {
    if |parts| == 1 {
      assert IndexOf(parts[0], sep) == |parts[0]|;
    } else {
      var tail := Join(parts[1..], [sep]);
      var s := parts[0] + [sep] + tail;
      assert Join(parts, [sep]) == s;
      IndexOfPrefix(parts[0], sep, tail);
      assert s[..|parts[0]|] == parts[0];
      assert s[|parts[0]| + 1..] == tail;
      assert forall i :: 0 <= i < |parts[1..]| ==> parts[1..][i] == parts[i + 1];
      SplitJoin(parts[1..], sep);
      assert Split(s, sep) == [parts[0]] + Split(tail, sep);
      assert parts == [parts[0]] + parts[1..];
    }
  }

  lemma {:induction false} IndexOfPrefix(a: string, c: char, b: string)
    requires c !in a
    ensures IndexOf(a + [c] + b, c) == |a|
    decreases |a|
  {
    if |a| > 0 {
      assert (a + [c] + b)[1..] == a[1..] + [c] + b;
      IndexOfPrefix(a[1..], c, b);
    }
  }

  /**
   * `s.split(/\s+/)`: the pieces between maximal whitespace runs (a leading
   * or trailing run yields an empty piece, as in JavaScript).
   */
  function SplitWs(s: string): (parts: seq<string>)
    ensures |parts| >= 1
    ensures forall i :: 0 <= i < |parts| ==> forall k :: 0 <= k < |parts[i]| ==> !IsWs(parts[i][k])
    decreases |s|
  {
    var i := NonWsEnd(s, 0);
    if i == |s| then [s]
    else
      var j := WsEnd(s, i);
      [s[..i]] + SplitWs(s[j..])
  }

  /** On a string without leading or trailing whitespace every piece of SplitWs is non-empty. */
  lemma {:induction false} SplitWsNonEmpty(s: string)
    requires s != [] && !IsWs(s[0]) && !IsWs(s[|s| - 1])
    ensures forall i :: 0 <= i < |SplitWs(s)| ==> SplitWs(s)[i] != []
    decreases |s|
  {
    var i := NonWsEnd(s, 0);
    if i < |s| {
      var j := WsEnd(s, i);
      assert j < |s|;
      SplitWsNonEmpty(s[j..]);
    }
  }

  // ---------------------------------------------------------------------
  // Global replacements

  /** `s.replace(/\\n/g, '\n')`: each backslash-n pair becomes a newline, scanning left to right. */
  function ReplaceNewlineEscapes(s: string): (t: string)
    ensures |t| <= |s|
    decreases |s|
  {
    if |s| < 2 then s
    else if s[0] == '\\' && s[1] == 'n' then "\n" + ReplaceNewlineEscapes(s[2..])
    else [s[0]] + ReplaceNewlineEscapes(s[1..])
  }

  predicate HasNewlineEscape(s: string) {
    exists i :: 0 <= i < |s| - 1 && s[i] == '\\' && s[i + 1] == 'n'
  }

  /** After the replacement no backslash-n pair is left. */
  lemma {:induction false} NoNewlineEscapeLeft(s: string)
    ensures !HasNewlineEscape(ReplaceNewlineEscapes(s))
    decreases |s|
  {
    var t := ReplaceNewlineEscapes(s);
    if |s| < 2 {
    } else if s[0] == '\\' && s[1] == 'n' {
      NoNewlineEscapeLeft(s[2..]);
      var r := ReplaceNewlineEscapes(s[2..]);
      assert t == "\n" + r;
      forall i | 0 <= i < |t| - 1 ensures !(t[i] == '\\' && t[i + 1] == 'n') {
        if i > 0 { assert t[i] == r[i - 1] && t[i + 1] == r[i]; }
      }
    } else {
      NoNewlineEscapeLeft(s[1..]);
      var r := ReplaceNewlineEscapes(s[1..]);
      assert t == [s[0]] + r;
      forall i | 0 <= i < |t| - 1 ensures !(t[i] == '\\' && t[i + 1] == 'n') {
        if i > 0 {
          assert t[i] == r[i - 1] && t[i + 1] == r[i];
        } else if s[0] == '\\' {
          // s[1] is not 'n'; the character after s[0] in t starts the rest's output
          ReplaceHead(s[1..]);
        }
      }
    }
  }

  /** The first output character is a newline exactly when the input starts with backslash-n; else it is the first input character. */
  lemma ReplaceHead(s: string)
    requires |s| > 0
    ensures |ReplaceNewlineEscapes(s)| > 0
    ensures ReplaceNewlineEscapes(s)[0] == (if |s| >= 2 && s[0] == '\\' && s[1] == 'n' then '\n' else s[0])
  {
  }

  /** Without a backslash the replacement changes nothing. */
  lemma {:induction false} ReplaceWithoutBackslash(s: string)
    requires '\\' !in s
    ensures ReplaceNewlineEscapes(s) == s
    decreases |s|
  {
    if |s| >= 2 {
      ReplaceWithoutBackslash(s[1..]);
    }
  }

  /** `s.replace(/pat/g, '')` for a literal pattern: occurrences are removed left to right without rescanning. */
  function RemoveAll(s: string, pat: string): (t: string)
    requires |pat| > 0
    ensures |t| <= |s|
    decreases |s|
  {
    if |s| < |pat| then s
    else if s[..|pat|] == pat then RemoveAll(s[|pat|..], pat)
    else [s[0]] + RemoveAll(s[1..], pat)
  }

  predicate OccursAt(s: string, pat: string, i: nat) {
    i + |pat| <= |s| && s[i..i + |pat|] == pat
  }

  predicate Occurs(s: string, pat: string) {
    exists i: nat | i <= |s| :: OccursAt(s, pat, i)
  }

  /** With no occurrence of the pattern the string is returned unchanged. */
  lemma {:induction false} RemoveAllAbsent(s: string, pat: string)
    requires |pat| > 0 && !Occurs(s, pat)
    ensures RemoveAll(s, pat) == s
    decreases |s|
  {
    if |s| >= |pat| {
      assert !OccursAt(s, pat, 0);
      assert !Occurs(s[1..], pat) by {
        forall i: nat | i <= |s[1..]| && OccursAt(s[1..], pat, i) ensures false {
          assert s[1..][i..i + |pat|] == s[i + 1..i + 1 + |pat|];
          assert OccursAt(s, pat, i + 1);
        }
      }
      RemoveAllAbsent(s[1..], pat);
    }
  }

  // ---------------------------------------------------------------------
  // Numbers

  function DigitValue(c: char): nat
    requires IsDigit(c)
  {
    c as int - '0' as int
  }

  function HexDigitValue(c: char): nat
    requires IsHexDigit(c)
  {
    if IsDigit(c) then DigitValue(c)
    else if 'a' <= c <= 'f' then c as int - 'a' as int + 10
    else c as int - 'A' as int + 10
  }

  predicate AllDigits(s: string) {
    forall k :: 0 <= k < |s| ==> IsDigit(s[k])
  }

  /** Decimal value of a digit string. */
  function DigitsValue(s: string): nat
    requires AllDigits(s)
  {
    if |s| == 0 then 0 else DigitsValue(s[..|s| - 1]) * 10 + DigitValue(s[|s| - 1])
  }

  function HexValue(s: string): nat
    requires forall k :: 0 <= k < |s| ==> IsHexDigit(s[k])
  {
    if |s| == 0 then 0 else HexValue(s[..|s| - 1]) * 16 + HexDigitValue(s[|s| - 1])
  }

  /**
   * `parseInt(s)` with no radix: leading whitespace is skipped, one sign is
   * read, a `0x`/`0X` prefix selects base 16, then the longest digit prefix is
   * read; no digit at all is NaN (`None`).
   */
  function ParseInt(s: string): (r: Option<int>)
  {
    var t := s[WsEnd(s, 0)..];
    var neg := |t| > 0 && t[0] == '-';
    var u := if |t| > 0 && (t[0] == '-' || t[0] == '+') then t[1..] else t;
    var magnitude: Option<nat> :=
      if |u| >= 2 && u[0] == '0' && (u[1] == 'x' || u[1] == 'X') then
        var h := HexDigitsEnd(u, 2);
        if h == 2 then None else Some(HexValue(u[2..h]))
      else
        var d := DigitsEnd(u, 0);
        if d == 0 then None else Some(DigitsValue(u[..d]));
    match magnitude
    case None => None
    case Some(m) => Some(if neg then -(m as int) else m as int)
  }

  /** On a plain digit string parseInt is the decimal value. */
  lemma ParseIntDigits(s: string)
    requires s != [] && AllDigits(s)
    requires !(|s| >= 2 && s[0] == '0' && (s[1] == 'x' || s[1] == 'X'))
    ensures ParseInt(s) == Some(DigitsValue(s))
  {
    assert WsEnd(s, 0) == 0;
    assert s[0..] == s;
    assert DigitsEnd(s, 0) == |s| by { DigitsEndAll(s, 0); }
    assert s[..|s|] == s;
  }

  lemma {:induction false} DigitsEndAll(s: string, i: nat)
    requires i <= |s| && AllDigits(s)
    ensures DigitsEnd(s, i) == |s|
    decreases |s| - i
  {
    if i < |s| { DigitsEndAll(s, i + 1); }
  }

  /** A run that stops at j ends at j: the three run functions below find it. */
  lemma {:induction false} DigitsEndAt(s: string, i: nat, j: nat)
    requires i <= j <= |s| && (forall k :: i <= k < j ==> IsDigit(s[k])) && (j < |s| ==> !IsDigit(s[j]))
    ensures DigitsEnd(s, i) == j
    decreases j - i
  {
    if i < j { DigitsEndAt(s, i + 1, j); }
  }

  lemma {:induction false} NonWsEndAt(s: string, i: nat, j: nat)
    requires i <= j <= |s| && (forall k :: i <= k < j ==> !IsWs(s[k])) && (j < |s| ==> IsWs(s[j]))
    ensures NonWsEnd(s, i) == j
    decreases j - i
  {
    if i < j { NonWsEndAt(s, i + 1, j); }
  }

  lemma {:induction false} LineEndAt(s: string, i: nat, j: nat)
    requires i <= j <= |s| && (forall k :: i <= k < j ==> !IsLineTerminator(s[k])) && (j < |s| ==> IsLineTerminator(s[j]))
    ensures LineEnd(s, i) == j
    decreases j - i
  {
    if i < j { LineEndAt(s, i + 1, j); }
  }

  function DigitChar(d: nat): (c: char)
    requires d < 10
    ensures IsDigit(c) && DigitValue(c) == d
  {
    ('0' as int + d) as char
  }

  /** Decimal rendering of a natural number, as template literals print it. */
  function NatToString(n: nat): (s: string)
    ensures s != [] && AllDigits(s)
  {
    if n < 10 then [DigitChar(n)] else NatToString(n / 10) + [DigitChar(n % 10)]
  }

  function IntToString(n: int): string {
    if n < 0 then "-" + NatToString(-n) else NatToString(n)
  }

  /** Reading back a rendered number gives the number. */
  lemma {:induction false} NatToStringRoundTrip(n: nat)
    ensures DigitsValue(NatToString(n)) == n
  {
    if n >= 10 {
      var s := NatToString(n);
      NatToStringRoundTrip(n / 10);
      assert s[..|s| - 1] == NatToString(n / 10);
    }
  }

  // ---------------------------------------------------------------------
  // Leftmost search, used for the regular expressions' leftmost match.

  /** The least position in `from..to` satisfying `P`, if any. */
  function FirstFrom(P: nat -> bool, from: nat, to: nat): (r: Option<nat>)
    ensures r.Some? ==> from <= r.value <= to && P(r.value) && forall q :: from <= q < r.value ==> !P(q)
    ensures r.None? ==> (forall q :: from <= q <= to ==> !P(q))
    decreases (to as int) - (from as int)
  {
    if to < from then None
    else if P(from) then Some(from)
    else FirstFrom(P, from + 1, to)
  }

  /** FirstFrom finds a position exactly when it is the leftmost one satisfying P. */
  lemma FirstFromAt(P: nat -> bool, from: nat, to: nat, i: nat)
    requires from <= i <= to && P(i)
    requires forall q :: from <= q < i ==> !P(q)
    ensures FirstFrom(P, from, to) == Some(i)
  {
  }
}
