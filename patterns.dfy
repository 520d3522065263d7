// The regular expressions of the command handlers, written out by hand.
// Each `...At(s, p)` says what the pattern does when its match starts at
// position p; a regex `match` or `test` finds the leftmost such p.
// Whitespace is the ASCII set of Text.IsWs; the `i` flag folds ASCII case.
module Patterns {
  import opened Text

  /** The lower-case literal `lit` at position i, ignoring case. */
  predicate CIAt(s: string, i: nat, lit: string) {
    i + |lit| <= |s| && forall k :: 0 <= k < |lit| ==> LowerChar(s[i + k]) == lit[k]
  }

  /** The leftmost start position at which `P` holds. */
  function Leftmost(s: string, P: nat -> bool): (r: Option<nat>)
    ensures r.Some? ==> r.value <= |s| && P(r.value) && forall q: nat :: q < r.value ==> !P(q)
    ensures r.None? ==> forall q: nat :: q <= |s| ==> !P(q)
  {
    FirstFrom(P, 0, |s|)
  }

  /**
   * `!contrib\s+` starting at p: the position after the whitespace run. The
   * run is maximal because what follows it in every pattern cannot be
   * whitespace.
   */
  function CommandArgs(s: string, p: nat): (r: Option<nat>)
    ensures r.Some? ==> p + 9 <= r.value <= |s| && (r.value < |s| ==> !IsWs(s[r.value]))
  {
    if CIAt(s, p, "!contrib") && p + 8 < |s| && IsWs(s[p + 8]) then Some(WsEnd(s, p + 8)) else None
  }

  // ---------------------------------------------------------------------
  // `!contrib\s+FLAG$`, `!contrib\s+FLAG\s+(\d+)`, `...\d+$`

  /** `!contrib\s+FLAG$` at p. */
  predicate FlagEndAt(s: string, p: nat, flag: string) {
    match CommandArgs(s, p)
    case None => false
    case Some(a) => CIAt(s, a, flag) && a + |flag| == |s|
  }

  /** `!contrib\s+FLAG\s+\d+` at p: the bounds of the (maximal) digit run. */
  function FlagDigitsAt(s: string, p: nat, flag: string): (r: Option<(nat, nat)>)
    ensures r.Some? ==> r.value.0 < r.value.1 <= |s| && AllDigits(s[r.value.0..r.value.1])
    ensures r.Some? ==> r.value.1 < |s| ==> !IsDigit(s[r.value.1])
  {
    match CommandArgs(s, p)
    case None => None
    case Some(a) =>
      if !CIAt(s, a, flag) || a + |flag| >= |s| || !IsWs(s[a + |flag|]) then None
      else
        var c := WsEnd(s, a + |flag|);
        if c < |s| && IsDigit(s[c]) then
          var d := DigitsEnd(s, c);
          assert forall k :: 0 <= k < d - c ==> s[c..d][k] == s[c + k];
          Some((c, d))
        else None
  }

  /** `!contrib\s+FLAG\s+\d+$` at p. */
  predicate FlagIdEndAt(s: string, p: nat, flag: string) {
    FlagDigitsAt(s, p, flag).Some? && FlagDigitsAt(s, p, flag).value.1 == |s|
  }

  function FlagDigitsPattern(s: string, flag: string): nat -> bool {
    (p: nat) => FlagDigitsAt(s, p, flag).Some?
  }

  /** The group `(\d+)` of the leftmost match of `!contrib\s+FLAG\s+(\d+)`. */
  function FlagDigits(s: string, flag: string): (r: Option<string>)
    ensures r.Some? ==> r.value != [] && AllDigits(r.value)
  {
    match Leftmost(s, FlagDigitsPattern(s, flag))
    case None => None
    case Some(p) => var (c, d) := FlagDigitsAt(s, p, flag).value; Some(s[c..d])
  }

  // ---------------------------------------------------------------------
  // `!contrib\s+FLAG\s+(\d+)\s+(.+)`

  /** The last position in `lo..hi` holding a character `.` matches. */
  function LastNonTerminator(s: string, lo: nat, hi: nat): (r: Option<nat>)
    requires lo <= hi <= |s|
    ensures r.Some? ==> lo <= r.value < hi && !IsLineTerminator(s[r.value])
    ensures r.Some? ==> forall j :: r.value < j < hi ==> IsLineTerminator(s[j])
    ensures r.None? ==> forall j :: lo <= j < hi ==> IsLineTerminator(s[j])
    decreases hi
  {
    if hi == lo then None
    else if !IsLineTerminator(s[hi - 1]) then Some(hi - 1)
    else LastNonTerminator(s, lo, hi - 1)
  }

  /**
   * Where the group `(.+)` of `\s+(.+)` starts when the `\s+` starts at d: the
   * greedy `\s+` takes the whole whitespace run unless the run ends at the end
   * of the input or at a line terminator, in which case it gives back
   * characters until `.` can match.
   */
  function CodeStart(s: string, d: nat): (r: Option<nat>)
    requires d <= |s|
    ensures r.Some? ==> d < r.value < |s| && !IsLineTerminator(s[r.value]) && IsBlank(s[d..r.value])
  {
    if d == |s| || !IsWs(s[d]) then None
    else
      var e := WsEnd(s, d);
      assert forall k :: 0 <= k < e - d ==> s[d..e][k] == s[d + k];
      if e < |s| && !IsLineTerminator(s[e]) then Some(e)
      else
        var k := LastNonTerminator(s, d + 1, e);
        if k.Some? then
          assert forall j :: 0 <= j < k.value - d ==> s[d..k.value][j] == s[d..e][j];
          k
        else None
  }

  /** The two groups of `!contrib\s+FLAG\s+(\d+)\s+(.+)`. */
  datatype IdCode = IdCode(id: string, code: string)

  function FlagIdCodeAt(s: string, p: nat, flag: string): (r: Option<IdCode>)
    ensures r.Some? ==> r.value.id != [] && AllDigits(r.value.id) && r.value.code != []
  {
    match FlagDigitsAt(s, p, flag)
    case None => None
    case Some((c, d)) =>
      match CodeStart(s, d)
      case None => None
      case Some(k) => Some(IdCode(s[c..d], s[k..LineEnd(s, k)]))
  }

  function FlagIdCodePattern(s: string, flag: string): nat -> bool {
    (p: nat) => FlagIdCodeAt(s, p, flag).Some?
  }

  /** The groups of the leftmost match of `!contrib\s+FLAG\s+(\d+)\s+(.+)`. */
  function FlagIdCode(s: string, flag: string): (r: Option<IdCode>)
    ensures r.Some? ==> r.value.id != [] && AllDigits(r.value.id) && r.value.code != []
  {
    match Leftmost(s, FlagIdCodePattern(s, flag))
    case None => None
    case Some(p) => FlagIdCodeAt(s, p, flag)
  }

  // ---------------------------------------------------------------------
  // `-ls($|\s)` and `-grep\s+(\S+)`

  /** `!contrib\s+-ls($|\s)` at p. */
  predicate ListAt(s: string, p: nat) {
    match CommandArgs(s, p)
    case None => false
    case Some(a) => CIAt(s, a, "-ls") && (a + 3 == |s| || IsWs(s[a + 3]))
  }

  /** `!contrib\s+-grep\s+\S+` at p: the bounds of the (maximal) token. */
  function GrepTokenAt(s: string, p: nat): (r: Option<(nat, nat)>)
    ensures r.Some? ==> r.value.0 < r.value.1 <= |s|
  {
    match CommandArgs(s, p)
    case None => None
    case Some(a) =>
      if !CIAt(s, a, "-grep") || a + 5 >= |s| || !IsWs(s[a + 5]) then None
      else
        var c := WsEnd(s, a + 5);
        if c < |s| then Some((c, NonWsEnd(s, c))) else None
  }

  /** `!contrib\s+-grep\s+\S+$` at p. */
  predicate GrepEndAt(s: string, p: nat) {
    GrepTokenAt(s, p).Some? && GrepTokenAt(s, p).value.1 == |s|
  }

  function GrepTokenPattern(s: string): nat -> bool {
    (p: nat) => GrepTokenAt(s, p).Some?
  }

  /** The group `(\S+)` of the leftmost match of `!contrib\s+-grep\s+(\S+)`. */
  function GrepToken(s: string): (r: Option<string>)
    ensures r.Some? ==> r.value != [] && forall k :: 0 <= k < |r.value| ==> !IsWs(r.value[k])
  {
    match Leftmost(s, GrepTokenPattern(s))
    case None => None
    case Some(p) =>
      var (c, d) := GrepTokenAt(s, p).value;
      assert forall k :: 0 <= k < d - c ==> s[c..d][k] == s[c + k];
      Some(s[c..d])
  }

  // ---------------------------------------------------------------------
  // The two patterns of the general contribution command

  /** The characters of `[A0CDhlsgre]` under the `i` flag, in lower case. */
  const SHORT_FLAGS := "a0cdhlsgre"

  /** `!contrib\s+(-[A0CDhlsgre]|--help|--usage|--options|help|-status|-grep|-ls)` at p. */
  predicate FlagPrefixAt(s: string, p: nat) {
    match CommandArgs(s, p)
    case None => false
    case Some(a) =>
      (a + 1 < |s| && s[a] == '-' && LowerChar(s[a + 1]) in SHORT_FLAGS) ||
      CIAt(s, a, "--help") || CIAt(s, a, "--usage") || CIAt(s, a, "--options") ||
      CIAt(s, a, "help") || CIAt(s, a, "-status") || CIAt(s, a, "-grep") || CIAt(s, a, "-ls")
  }

  /** The characters of `[\w\/\.-]`. */
  predicate IsPathChar(c: char) {
    IsWordChar(c) || c == '/' || c == '.' || c == '-'
  }

  function PathEnd(s: string, i: nat): (j: nat)
    requires i <= |s|
    ensures i <= j <= |s|
    ensures forall k :: i <= k < j ==> IsPathChar(s[k])
    ensures j < |s| ==> !IsPathChar(s[j])
    decreases |s| - i
  {
    if i < |s| && IsPathChar(s[i]) then PathEnd(s, i + 1) else i
  }

  /**
   * `!contrib\s+[\w\/\.-]+\.\w+` at p: inside the run of path characters after
   * the whitespace there is a dot, not at its first position, followed by a
   * word character.
   */
  predicate FilePathAt(s: string, p: nat) {
    match CommandArgs(s, p)
    case None => false
    case Some(a) =>
      var e := PathEnd(s, a);
      exists k :: a < k && k + 1 < e && s[k] == '.' && IsWordChar(s[k + 1])
  }

  // ---------------------------------------------------------------------
  // Whole-message tests

  function FlagEndPattern(s: string, flag: string): nat -> bool {
    (p: nat) => FlagEndAt(s, p, flag)
  }

  function FlagIdEndPattern(s: string, flag: string): nat -> bool {
    (p: nat) => FlagIdEndAt(s, p, flag)
  }

  function ListPattern(s: string): nat -> bool {
    (p: nat) => ListAt(s, p)
  }

  function GrepEndPattern(s: string): nat -> bool {
    (p: nat) => GrepEndAt(s, p)
  }

  function FlagPrefixPattern(s: string): nat -> bool {
    (p: nat) => FlagPrefixAt(s, p)
  }

  function FilePathPattern(s: string): nat -> bool {
    (p: nat) => FilePathAt(s, p)
  }

  /** `s.match(/!contrib\s+FLAG$/i)` is non-null. */
  predicate HasFlagEnd(s: string, flag: string) {
    Leftmost(s, FlagEndPattern(s, flag)).Some?
  }

  /** `s.match(/!contrib\s+FLAG\s+\d+$/i)` is non-null. */
  predicate HasFlagIdEnd(s: string, flag: string) {
    Leftmost(s, FlagIdEndPattern(s, flag)).Some?
  }

  /** Some start position satisfies `P` exactly when the leftmost search finds one. */
  lemma LeftmostSome(s: string, P: nat -> bool, p: nat)
    requires p <= |s| && P(p)
    ensures Leftmost(s, P).Some?
  {
  }

  /**
   * The anchored `!contrib\s+FLAG\s+\d+$` can only match where the unanchored
   * `!contrib\s+FLAG\s+(\d+)` also matches, so after `matches` the capture in
   * `execute` is never null.
   */
  lemma AnchoredImpliesCapture(s: string, flag: string)
    requires HasFlagIdEnd(s, flag)
    ensures FlagDigits(s, flag).Some?
  {
    var p := Leftmost(s, FlagIdEndPattern(s, flag)).value;
    assert FlagDigitsPattern(s, flag)(p);
  }

  /** Likewise for `-grep\s+\S+$` and its capture. */
  lemma GrepAnchoredImpliesCapture(s: string)
    requires Leftmost(s, GrepEndPattern(s)).Some?
    ensures GrepToken(s).Some?
  {
    var p := Leftmost(s, GrepEndPattern(s)).value;
    assert GrepTokenPattern(s)(p);
  }

  /** A line with no `!` after its first character can only match at position 0. */
  lemma CommandOnlyAtStart(s: string, p: nat)
    requires p > 0 && forall k :: 0 < k < |s| ==> s[k] != '!'
    ensures CommandArgs(s, p).None?
  {
    assert "!contrib"[0] == '!';
    assert p + 8 > |s| || LowerChar(s[p + 0]) != "!contrib"[0];
    assert !CIAt(s, p, "!contrib");
  }

  /** A line that ends right after `!contrib FLAG <digits>`, with no other `!`, has no id-and-code match. */
  lemma NoCodeAfterDigits(s: string, flag: string)
    requires FlagDigitsAt(s, 0, flag).Some? && FlagDigitsAt(s, 0, flag).value.1 == |s|
    requires forall k :: 0 < k < |s| ==> s[k] != '!'
    ensures FlagIdCode(s, flag).None?
  {
    forall p: nat | p <= |s| ensures !FlagIdCodePattern(s, flag)(p) {
      if p > 0 {
        CommandOnlyAtStart(s, p);
      } else {
        assert CodeStart(s, |s|).None?;
      }
    }
  }

  /** The leftmost match of a pattern that holds at position 0 is at position 0. */
  lemma LeftmostAtStart(s: string, P: nat -> bool)
    requires P(0)
    ensures Leftmost(s, P) == Some(0)
  {
    FirstFromAt(P, 0, |s|, 0);
  }

  /** A line that starts `!contrib ` and then a non-space: the arguments start at position 9. */
  lemma CommandArgsAtStart(rest: string)
    requires rest != [] && !IsWs(rest[0])
    ensures CommandArgs("!contrib " + rest, 0) == Some(9)
  {
    var s := "!contrib " + rest;
    assert forall k :: 0 <= k < 9 ==> s[k] == "!contrib "[k];
    assert CIAt(s, 0, "!contrib");
    assert s[9] == rest[0];
    assert WsEnd(s, 9) == 9;
  }

  /**
   * Where `!contrib\s+FLAG\s+\d+` matches for a short flag such as `-a`, the
   * flag-prefix pattern of the general contribution command matches too.
   */
  lemma ShortFlagIsFlagPrefix(s: string, p: nat, flag: string)
    requires |flag| == 2 && flag[0] == '-' && flag[1] in SHORT_FLAGS
    requires FlagDigitsAt(s, p, flag).Some?
    ensures FlagPrefixAt(s, p)
  {
    var a := CommandArgs(s, p).value;
    assert LowerChar(s[a + 0]) == flag[0] && LowerChar(s[a + 1]) == flag[1];
  }
}
